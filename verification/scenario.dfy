/** The opening of a session worked end to end: two players register, one
    opens a room, the other joins it and the game starts by itself; then X
    takes the centre and completes the middle column on its third move. */
module Scenario {
  import opened Wrappers
  import opened Types
  import opened Dicts
  import opened Game
  import opened Rooms
  import opened Events
  import opened Server
  import Matchmaking

  const Order: seq<PlayerId> := ["a", "b"]

  /** The game right after the automatic start: empty board, `a` to move. */
  const Opening: GameState := GameState(EmptyBoard, Some("a"), true, NoWinner, 0)

  const B1: Board := [None, None, None, None, Some(X), None, None, None, None]
  const B2: Board := [Some(O), None, None, None, Some(X), None, None, None, None]
  const B3: Board := [Some(O), Some(X), None, None, Some(X), None, None, None, None]
  const B4: Board := [Some(O), Some(X), None, Some(O), Some(X), None, None, None, None]
  const B5: Board := [Some(O), Some(X), None, Some(O), Some(X), None, None, Some(X), None]

  lemma Move1()
    ensures Play(Opening, Order, "a", 4) == Success(GameState(B1, Some("b"), true, NoWinner, 1))
  {
    assert EmptyBoard[4 := Some(X)] == B1;
    assert LineOwner(B1, 0).None? && LineOwner(B1, 1).None? && LineOwner(B1, 2).None? && LineOwner(B1, 3).None?;
    assert LineOwner(B1, 4).None? && LineOwner(B1, 5).None? && LineOwner(B1, 6).None? && LineOwner(B1, 7).None?;
  }

  lemma Move2()
    ensures Play(GameState(B1, Some("b"), true, NoWinner, 1), Order, "b", 0) == Success(GameState(B2, Some("a"), true, NoWinner, 2))
  {
    assert B1[0 := Some(O)] == B2;
    assert LineOwner(B2, 0).None? && LineOwner(B2, 1).None? && LineOwner(B2, 2).None? && LineOwner(B2, 3).None?;
    assert LineOwner(B2, 4).None? && LineOwner(B2, 5).None? && LineOwner(B2, 6).None? && LineOwner(B2, 7).None?;
  }

  lemma Move3()
    ensures Play(GameState(B2, Some("a"), true, NoWinner, 2), Order, "a", 1) == Success(GameState(B3, Some("b"), true, NoWinner, 3))
  {
    assert B2[1 := Some(X)] == B3;
    assert LineOwner(B3, 0).None? && LineOwner(B3, 1).None? && LineOwner(B3, 2).None? && LineOwner(B3, 3).None?;
    assert LineOwner(B3, 4).None? && LineOwner(B3, 5).None? && LineOwner(B3, 6).None? && LineOwner(B3, 7).None?;
  }

  lemma Move4()
    ensures Play(GameState(B3, Some("b"), true, NoWinner, 3), Order, "b", 3) == Success(GameState(B4, Some("a"), true, NoWinner, 4))
  {
    assert B3[3 := Some(O)] == B4;
    assert LineOwner(B4, 0).None? && LineOwner(B4, 1).None? && LineOwner(B4, 2).None? && LineOwner(B4, 3).None?;
    assert LineOwner(B4, 4).None? && LineOwner(B4, 5).None? && LineOwner(B4, 6).None? && LineOwner(B4, 7).None?;
  }

  lemma Move5()
    ensures Play(GameState(B4, Some("a"), true, NoWinner, 4), Order, "a", 7) == Success(GameState(B5, None, false, Won(X), 5))
  {
    assert B4[7 := Some(X)] == B5;
    assert LineOwner(B5, 0).None? && LineOwner(B5, 1).None? && LineOwner(B5, 2).None? && LineOwner(B5, 3).None?;
    assert LineOwner(B5, 4) == Some(X);
  }

  /** X at 4, O at 0, X at 1, O at 3, X at 7: the column 1-4-7 wins for X
      on the fifth move, and the game stops with nobody to move. */
  lemma {:induction false} ColumnWin()
    ensures var r1 := Play(Opening, Order, "a", 4);
            && r1.Success? && r1.value.current == Some("b")
            && var r2 := Play(r1.value, Order, "b", 0);
            && r2.Success? && r2.value.current == Some("a")
            && var r3 := Play(r2.value, Order, "a", 1);
            && r3.Success? && r3.value.current == Some("b")
            && var r4 := Play(r3.value, Order, "b", 3);
            && r4.Success? && r4.value.current == Some("a")
            && var r5 := Play(r4.value, Order, "a", 7);
            && r5.Success?
            && r5.value.board == [Some(O), Some(X), None, Some(O), Some(X), None, None, Some(X), None]
            && r5.value.winner == Won(X) && !r5.value.active && r5.value.current.None?
            && r5.value.moves == 5
  {
    Move1(); Move2(); Move3(); Move4(); Move5();
  }

  /** The registries once `a` (on connection "sa") and `b` (on "sb") have
      registered; no room exists yet. */
  function Lobby(): (s: State)
    ensures "r" !in s.rooms.entries
  {
    var s1 := HandleRegisterPlayer(Startup(), "sa", "a", "A", "t0").state;
    HandleRegisterPlayer(s1, "sb", "b", "B", "t1").state
  }

  /** `b` joining `a`'s room starts the game: `a` is X, moves first and
      hosts; `b` is O. */
  lemma {:induction false} SessionOpening()
    ensures var c := HandleCreateRoom(Lobby(), "a", "A's game", "r", 10.0);
            && c.Success?
            && var j := HandleJoinRoom(c.value.state, "b", "r", 20.0);
            && j.Success?
            && "r" in j.value.state.rooms.entries
            && Members(j.value.state.rooms.entries["r"]) == Order
            && j.value.state.rooms.entries["r"].game == Opening
            && |j.value.events| == 5
            && j.value.events[2] == Event(ToConnection("sa"), GameStarted("r", X, true, true))
            && j.value.events[3] == Event(ToConnection("sb"), GameStarted("r", O, false, false))
  {
    var s := Lobby();
    assert "a" in s.players.entries && s.players.entries["a"].sid == "sa";
    assert "b" in s.players.entries && s.players.entries["b"].sid == "sb";
    var c := HandleCreateRoom(s, "a", "A's game", "r", 10.0);
    var s3 := c.value.state;
    assert Members(s3.rooms.entries["r"]) == ["a"];
    assert Len(s3.rooms.entries["r"].players) == 1;
    Matchmaking.AutoStartAnnouncesRoles(s3, "b", "r", 20.0);
  }

  /** A move accepted by the rules is accepted by the server in a room whose
      members are `a` then `b`, and the room's game becomes the rules' result. */
  lemma {:induction false} ServerPlays(s: State, pid: PlayerId, index: nat, now: real, g': GameState)
    requires index < 9 && pid in Order && "r" in s.rooms.entries && Members(s.rooms.entries["r"]) == Order
    requires Play(s.rooms.entries["r"].game, Order, pid, index) == Success(g')
    ensures HandleMakeMove(s, pid, "r", index, now).Success?
    ensures var s' := HandleMakeMove(s, pid, "r", index, now).value.state;
            && "r" in s'.rooms.entries
            && Members(s'.rooms.entries["r"]) == Order
            && s'.rooms.entries["r"].game == g'
  {
    var room := s.rooms.entries["r"];
    assert Len(room.players) == 2;
  }

  /** The whole session at the server: after the automatic start, the moves
      4, 0, 1, 3, 7 alternate between `a` and `b` and leave room "r" with X
      on the middle column, X the winner and the game stopped. */
  lemma {:induction false} SessionColumnWin()
    ensures var c := HandleCreateRoom(Lobby(), "a", "A's game", "r", 10.0);
            && c.Success?
            && var j := HandleJoinRoom(c.value.state, "b", "r", 20.0);
            && j.Success?
            && var m1 := HandleMakeMove(j.value.state, "a", "r", 4, 21.0);
            && m1.Success?
            && var m2 := HandleMakeMove(m1.value.state, "b", "r", 0, 22.0);
            && m2.Success?
            && var m3 := HandleMakeMove(m2.value.state, "a", "r", 1, 23.0);
            && m3.Success?
            && var m4 := HandleMakeMove(m3.value.state, "b", "r", 3, 24.0);
            && m4.Success?
            && var m5 := HandleMakeMove(m4.value.state, "a", "r", 7, 25.0);
            && m5.Success?
            && "r" in m5.value.state.rooms.entries
            && var g := m5.value.state.rooms.entries["r"].game;
            && g.board == [Some(O), Some(X), None, Some(O), Some(X), None, None, Some(X), None]
            && g.winner == Won(X) && !g.active && g.current.None?
  {
    SessionOpening();
    var c := HandleCreateRoom(Lobby(), "a", "A's game", "r", 10.0);
    var s0 := HandleJoinRoom(c.value.state, "b", "r", 20.0).value.state;
    Move1();
    ServerPlays(s0, "a", 4, 21.0, GameState(B1, Some("b"), true, NoWinner, 1));
    var s1 := HandleMakeMove(s0, "a", "r", 4, 21.0).value.state;
    Move2();
    ServerPlays(s1, "b", 0, 22.0, GameState(B2, Some("a"), true, NoWinner, 2));
    var s2 := HandleMakeMove(s1, "b", "r", 0, 22.0).value.state;
    Move3();
    ServerPlays(s2, "a", 1, 23.0, GameState(B3, Some("b"), true, NoWinner, 3));
    var s3 := HandleMakeMove(s2, "a", "r", 1, 23.0).value.state;
    Move4();
    ServerPlays(s3, "b", 3, 24.0, GameState(B4, Some("a"), true, NoWinner, 4));
    var s4 := HandleMakeMove(s3, "b", "r", 3, 24.0).value.state;
    Move5();
    ServerPlays(s4, "a", 7, 25.0, GameState(B5, None, false, Won(X), 5));
  }
}
