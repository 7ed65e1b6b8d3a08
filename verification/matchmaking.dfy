/** What joining promises the two players: who plays which symbol, who moves
    first and who hosts the peer connection, and which room a random join
    picks. */
module Matchmaking {
  import opened Wrappers
  import opened Types
  import opened Dicts
  import opened Game
  import opened Rooms
  import opened Events
  import opened Server
  import Invariants

  /** The second player into a room starts the game: the joiner is told it
      joined, the first member is told who arrived, then the first member gets
      X, the turn and the host role, the joiner gets O and neither, and the
      stats go out last. */
  lemma {:induction false} AutoStartAnnouncesRoles(s: State, pid: PlayerId, rid: RoomId, now: real)
    requires pid in s.players.entries && rid in s.rooms.entries
    requires Len(s.rooms.entries[rid].players) == 1 && pid !in s.rooms.entries[rid].players.entries
    requires Members(s.rooms.entries[rid])[0] in s.players.entries
    ensures var r := HandleJoinRoom(s, pid, rid, now);
            var host := Members(s.rooms.entries[rid])[0];
            && r.Success?
            && Members(r.value.state.rooms.entries[rid]) == [host, pid]
            && r.value.state.rooms.entries[rid].game.active
            && r.value.state.rooms.entries[rid].game.current == Some(host)
            && |r.value.events| == 5
            && r.value.events[0].to == ToSender && r.value.events[0].payload.RoomJoined?
            && r.value.events[1].to == ToRoomExceptSender(rid) && r.value.events[1].payload.PlayerJoined?
            && r.value.events[2] == Event(ToConnection(s.players.entries[host].sid), GameStarted(rid, X, true, true))
            && r.value.events[3] == Event(ToConnection(s.players.entries[pid].sid), GameStarted(rid, O, false, false))
            && r.value.events[4] == StatsEvent(r.value.state)
  {
    var room := s.rooms.entries[rid];
    var host := Members(room)[0];
    assert |Members(room)| == 1;
    var joined := AddPlayer(room, pid, s.players.entries[pid], now).0;
    assert Members(joined) == [host, pid];
    var started := StartGame(joined, now).0;
    var s' := s.(rooms := Put(s.rooms, rid, started));
    var starts := Announce(s.players, rid, Members(started), 0);
    assert |starts| == 2;
    assert starts[0] == StartNotice(s.players, rid, [host, pid], 0);
    assert starts[1] == StartNotice(s.players, rid, [host, pid], 1);
  }

  /** If the first member is no longer registered, the lookup for its
      `game_started` raises: the game has started, but nobody is told so and
      no stats go out. */
  lemma {:induction false} AutoStartStopsAtUnregisteredHost(s: State, pid: PlayerId, rid: RoomId, now: real)
    requires pid in s.players.entries && rid in s.rooms.entries
    requires Len(s.rooms.entries[rid].players) == 1 && pid !in s.rooms.entries[rid].players.entries
    requires Members(s.rooms.entries[rid])[0] !in s.players.entries
    ensures var r := HandleJoinRoom(s, pid, rid, now);
            && r.Success?
            && r.value.state.rooms.entries[rid].game.active
            && |r.value.events| == 2
            && r.value.events[0].payload.RoomJoined? && r.value.events[1].payload.PlayerJoined?
  {
    var room := s.rooms.entries[rid];
    var host := Members(room)[0];
    assert |Members(room)| == 1;
    var joined := AddPlayer(room, pid, s.players.entries[pid], now).0;
    assert Members(joined) == [host, pid];
    var started := StartGame(joined, now).0;
    assert Announce(s.players, rid, Members(started), 0) == [];
  }

  /** A random join goes to the first room, in directory order, that is not
      full, and every room before it is full. */
  lemma {:induction false} JoinRandomTakesFirstOpenRoom(s: State, pid: PlayerId, newId: RoomId, now: real) returns (i: nat)
    requires Invariants.Inv(s) && newId !in s.rooms.entries
    requires pid in s.players.entries
    requires exists k :: k in s.rooms.entries && !IsFull(s.rooms.entries[k])
    ensures i < |s.rooms.keys| && !IsFull(s.rooms.entries[s.rooms.keys[i]])
    ensures forall n :: 0 <= n < i ==> IsFull(s.rooms.entries[s.rooms.keys[n]])
    ensures HandleJoinRandomRoom(s, pid, newId, now) == HandleJoinRoom(s, pid, s.rooms.keys[i], now)
  {
    var keys := s.rooms.keys;
    var k :| k in s.rooms.entries && !IsFull(s.rooms.entries[k]);
    i := FirstOpenFound(keys, s.rooms.entries, k);
    assert Invariants.RoomOk(keys[i], s.rooms.entries[keys[i]]);
  }

  /** When some room is open, the search finds one. */
  lemma {:induction false} FirstOpenFound(keys: seq<RoomId>, entries: map<RoomId, Room>, k: RoomId) returns (i: nat)
    requires forall q :: q in keys ==> q in entries
    requires k in keys && !IsFull(entries[k])
    ensures i == FirstOpen(keys, entries, 0) && i < |keys|
  {
    i := FirstOpen(keys, entries, 0);
    var n :| 0 <= n < |keys| && keys[n] == k;
  }

  /** With every room full, or none at all, a random join opens a new room
      named after the player. */
  lemma {:induction false} JoinRandomOpensRoomWhenAllFull(s: State, pid: PlayerId, newId: RoomId, now: real)
    requires newId !in s.rooms.entries && pid in s.players.entries
    requires forall k :: k in s.rooms.entries ==> IsFull(s.rooms.entries[k])
    ensures HandleJoinRandomRoom(s, pid, newId, now)
              == HandleCreateRoom(s, pid, s.players.entries[pid].name + "'s Room", newId, now)
  {
  }
}
