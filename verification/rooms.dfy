/** `GameRoom`: a named container for at most two players, kept in join
    order, together with the room's game state and its activity clock. */
module Rooms {
  import opened Wrappers
  import opened Types
  import opened Dicts
  import opened Game

  /** The record `players[player_id]` holds for a registered player; a room
      keeps the record its member had when joining. */
  datatype PlayerInfo = PlayerInfo(name: string, sid: Sid, connectedAt: string)

  datatype Room = Room(
    id: RoomId,
    players: Dict<PlayerId, PlayerInfo>,
    game: GameState,
    createdAt: real,
    lastActivity: real)

  const Capacity: nat := 2

  /** `GameRoom(room_id)` created at time `now`. */
  function NewRoom(id: RoomId, now: real): (r: Room)
    ensures r.id == id && r.players.keys == [] && r.game == Initial
    ensures r.createdAt == now && r.lastActivity == now
  {
    Room(id, Empty(), Initial, now, now)
  }

  /** `get_player_list`: the member ids in join order, each once. */
  function Members(r: Room): (m: seq<PlayerId>)
    ensures forall p :: p in m <==> p in r.players.entries
    ensures |m| == |r.players.entries|
  {
    assert Len(r.players) == |r.players.keys|;
    r.players.keys
  }

  /** `is_full`: two members or more. */
  predicate IsFull(r: Room)
    ensures IsFull(r) <==> |r.players.entries| >= Capacity
    ensures IsFull(r) <==> |Members(r)| >= Capacity
  {
    Len(r.players) >= Capacity
  }

  /** `is_empty`: no members at all. */
  predicate IsEmpty(r: Room)
    ensures IsEmpty(r) <==> r.players.entries == map[]
    ensures IsEmpty(r) <==> Members(r) == []
  {
    Len(r.players) == 0
  }

  /** `add_player`: admits `pid` only while there is room, and reports
      whether it did. A member who joins again keeps their place. */
  function AddPlayer(r: Room, pid: PlayerId, info: PlayerInfo, now: real): (res: (Room, bool))
    ensures res.1 <==> Len(r.players) < Capacity
    ensures !res.1 ==> res.0 == r
    ensures res.1 ==> && pid in res.0.players.entries
                      && res.0.players.entries[pid] == info
                      && (pid in r.players.entries ==> Members(res.0) == Members(r))
                      && (pid !in r.players.entries ==> Members(res.0) == Members(r) + [pid])
                      && (forall q :: q != pid && q in r.players.entries ==>
                            q in res.0.players.entries && res.0.players.entries[q] == r.players.entries[q])
                      && res.0.lastActivity == now
    ensures Len(res.0.players) <= Capacity || res.0 == r
    ensures res.0.id == r.id && res.0.game == r.game && res.0.createdAt == r.createdAt
  {
    if Len(r.players) < Capacity then
      (r.(players := Put(r.players, pid, info), lastActivity := now), true)
    else
      (r, false)
  }

  /** `remove_player`: drops `pid` if it is a member, keeping the others in
      order; a non-member leaves the room exactly as it was. */
  function RemovePlayer(r: Room, pid: PlayerId, now: real): (res: Room)
    ensures pid !in res.players.entries
    ensures forall q :: q != pid ==> (q in res.players.entries <==> q in r.players.entries)
    ensures forall q :: q in res.players.entries ==> res.players.entries[q] == r.players.entries[q]
    ensures pid !in r.players.entries ==> res == r
    ensures pid in r.players.entries ==> && Len(res.players) + 1 == Len(r.players)
                                         && Members(res) == Without(Members(r), pid)
                                         && res.lastActivity == now
    ensures res.id == r.id && res.game == r.game && res.createdAt == r.createdAt
  {
    if pid in r.players.entries then
      r.(players := Remove(r.players, pid), lastActivity := now)
    else
      r
  }

  /** `start_game`: only a room of exactly two can start; the first member
      moves first. The board, counter and winner are left as they were. */
  function StartGame(r: Room, now: real): (res: (Room, bool))
    ensures res.1 <==> Len(r.players) == 2
    ensures !res.1 ==> res.0 == r
    ensures res.1 ==> && res.0.game.active
                      && res.0.game.current == Some(Members(r)[0])
                      && res.0.game.board == r.game.board
                      && res.0.game.moves == r.game.moves
                      && res.0.game.winner == r.game.winner
                      && res.0.lastActivity == now
    ensures res.0.id == r.id && res.0.players == r.players && res.0.createdAt == r.createdAt
  {
    if Len(r.players) == 2 then
      (r.(game := r.game.(active := true, current := Some(Members(r)[0])), lastActivity := now), true)
    else
      (r, false)
  }

  /** The game-state update of `reset_game`: a fresh, inactive game. */
  function ResetGame(r: Room, now: real): (res: Room)
    ensures res.game.board == EmptyBoard && res.game.moves == 0
    ensures res.game.winner == NoWinner && res.game.current.None? && !res.game.active
    ensures res.id == r.id && res.players == r.players && res.lastActivity == now
  {
    r.(game := Initial, lastActivity := now)
  }

  /** A newcomer who joins and leaves again leaves the members, their order
      and their records exactly as before. */
  lemma {:induction false} AddThenRemove(r: Room, pid: PlayerId, info: PlayerInfo, t1: real, t2: real)
    requires pid !in r.players.entries && !IsFull(r)
    ensures RemovePlayer(AddPlayer(r, pid, info, t1).0, pid, t2).players == r.players
  {
    PutThenRemove(r.players, pid, info);
  }

  /** A reset followed by a start always yields the opening position, with
      the first member to move, whatever the previous game left behind. */
  lemma ResetThenStart(r: Room, t1: real, t2: real)
    requires Len(r.players) == 2
    ensures StartGame(ResetGame(r, t1), t2).1
    ensures StartGame(ResetGame(r, t1), t2).0.game == GameState(EmptyBoard, Some(Members(r)[0]), true, NoWinner, 0)
  {
  }

  /** Without a reset, `start_game` reopens a finished game with its old
      board and winner still in place. */
  lemma StartDoesNotClearBoard(r: Room, now: real)
    requires Len(r.players) == 2 && r.game.winner.Won?
    ensures StartGame(r, now).0.game.active && StartGame(r, now).0.game.winner == r.game.winner
  {
  }

  /** The member checks and state update of `make_move` on this room. */
  function MakeMove(r: Room, pid: PlayerId, index: nat, now: real): (res: Result<Room, Error>)
    requires index < 9
    requires Playable(r.game, pid, index) ==> Len(r.players) == 2 && pid in Members(r)
    ensures res.Success? <==> Playable(r.game, pid, index)
    ensures Play(r.game, Members(r), pid, index).Failure? ==> res == Failure(Play(r.game, Members(r), pid, index).error)
    ensures res.Success? ==> res.value == r.(game := res.value.game, lastActivity := now)
    ensures res.Success? ==> && Play(r.game, Members(r), pid, index) == Success(res.value.game)
                             && res.value.players == r.players && res.value.id == r.id
                             && res.value.lastActivity == now
  {
    match Play(r.game, Members(r), pid, index)
    case Failure(e) => Failure(e)
    case Success(g) => Success(r.(game := g, lastActivity := now))
  }
}
