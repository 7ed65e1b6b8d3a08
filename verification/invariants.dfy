/** The shape every handler keeps the room directory in, and the proof that
    each of them, and so every step of the server, keeps it. */
module Invariants {
  import opened Wrappers
  import opened Types
  import opened Dicts
  import opened Game
  import opened Rooms
  import opened Events
  import opened Server
  import Dispatch

  /** A room as the handlers leave it: filed under its own id, holding one or
      two members, its move counter counting the filled cells, and, while its
      game runs, somebody to move, who is a member whenever both members are
      still there. */
  ghost predicate RoomOk(id: RoomId, room: Room)
  {
    && room.id == id
    && 1 <= Len(room.players) <= Capacity
    && Counted(room.game)
    && (room.game.active ==> room.game.current.Some?)
    && (room.game.active && Len(room.players) == 2 ==> room.game.current.value in room.players.entries)
  }

  ghost predicate Inv(s: State)
  {
    forall id :: id in s.rooms.entries ==> RoomOk(id, s.rooms.entries[id])
  }

  /** Every room the directory holds after the step is either one it held
      before, unchanged, or `rid`, which is in good shape. */
  lemma {:induction false} InvAfterUpdate(s: State, s': State, rid: RoomId)
    requires Inv(s) && OthersUntouched(s, s', rid)
    requires rid in s'.rooms.entries ==> RoomOk(rid, s'.rooms.entries[rid])
    ensures Inv(s')
  {
    forall id | id in s'.rooms.entries ensures RoomOk(id, s'.rooms.entries[id]) {
      if id != rid {
        assert s'.rooms.entries[id] == s.rooms.entries[id];
      }
    }
  }

  lemma InitialIsCounted()
    ensures Counted(Initial)
  {
    assert forall i :: 0 <= i < 9 ==> EmptyBoard[i].None?;
  }

  lemma {:induction false} CreateKeepsInv(s: State, pid: PlayerId, name: string, newId: RoomId, now: real)
    requires Inv(s) && newId !in s.rooms.entries
    ensures HandleCreateRoom(s, pid, name, newId, now).Success? ==> Inv(HandleCreateRoom(s, pid, name, newId, now).value.state)
  {
    var r := HandleCreateRoom(s, pid, name, newId, now);
    if r.Success? {
      var room := r.value.state.rooms.entries[newId];
      InitialIsCounted();
      assert Len(room.players) == 1;
      InvAfterUpdate(s, r.value.state, newId);
    }
  }

  lemma {:induction false} JoinKeepsInv(s: State, pid: PlayerId, rid: RoomId, now: real)
    requires Inv(s)
    ensures HandleJoinRoom(s, pid, rid, now).Success? ==> Inv(HandleJoinRoom(s, pid, rid, now).value.state)
  {
    var r := HandleJoinRoom(s, pid, rid, now);
    if r.Success? {
      var before := s.rooms.entries[rid];
      var after := r.value.state.rooms.entries[rid];
      assert RoomOk(rid, before);
      assert Counted(after.game);
      if IsFull(after) {
        assert Members(after)[0] in after.players.keys;
      }
      InvAfterUpdate(s, r.value.state, rid);
    }
  }

  lemma {:induction false} JoinRandomKeepsInv(s: State, pid: PlayerId, newId: RoomId, now: real)
    requires Inv(s) && newId !in s.rooms.entries
    ensures HandleJoinRandomRoom(s, pid, newId, now).Success? ==> Inv(HandleJoinRandomRoom(s, pid, newId, now).value.state)
  {
    if pid in s.players.entries {
      var i := FirstOpen(s.rooms.keys, s.rooms.entries, 0);
      if i < |s.rooms.keys| {
        JoinKeepsInv(s, pid, s.rooms.entries[s.rooms.keys[i]].id, now);
      } else {
        CreateKeepsInv(s, pid, s.players.entries[pid].name + "'s Room", newId, now);
      }
    }
  }

  /** Removing a member from a room that keeps somebody leaves it in shape. */
  lemma {:induction false} VacateKeepsInv(s: State, rid: RoomId, pid: PlayerId, now: real)
    requires Inv(s) && rid in s.rooms.entries
    ensures Inv(s.(rooms := Vacate(s.rooms, rid, pid, now)))
  {
    var s' := s.(rooms := Vacate(s.rooms, rid, pid, now));
    var before := s.rooms.entries[rid];
    assert RoomOk(rid, before);
    if rid in s'.rooms.entries {
      var after := s'.rooms.entries[rid];
      assert after == RemovePlayer(before, pid, now);
      var q :| q in before.players.entries && q != pid;
      assert q in after.players.entries;
      assert Len(after.players) >= 1;
      assert RoomOk(rid, after);
    }
    InvAfterUpdate(s, s', rid);
  }

  lemma {:induction false} LeaveKeepsInv(s: State, pid: PlayerId, rid: RoomId, now: real)
    requires Inv(s)
    ensures Inv(HandleLeaveRoom(s, pid, rid, now).state)
  {
    if rid in s.rooms.entries {
      VacateKeepsInv(s, rid, pid, now);
      assert HandleLeaveRoom(s, pid, rid, now).state == s.(rooms := Vacate(s.rooms, rid, pid, now));
    }
  }

  lemma {:induction false} DisconnectKeepsInv(s: State, sid: Sid, now: real)
    requires Inv(s)
    ensures Inv(HandleDisconnect(s, sid, now).state)
  {
    var i := FindBySid(s.players.keys, s.players.entries, sid, 0);
    if i < |s.players.keys| && s.players.keys[i] != "" {
      var pid := s.players.keys[i];
      var j := FirstRoomWith(s.rooms.keys, s.rooms.entries, pid, 0);
      if j < |s.rooms.keys| {
        VacateKeepsInv(s, s.rooms.keys[j], pid, now);
        assert HandleDisconnect(s, sid, now).state.rooms == Vacate(s.rooms, s.rooms.keys[j], pid, now);
      }
    }
  }

  lemma {:induction false} StartKeepsInv(s: State, pid: PlayerId, rid: RoomId, now: real)
    requires Inv(s)
    ensures HandleStartGame(s, pid, rid, now).Success? ==> Inv(HandleStartGame(s, pid, rid, now).value.state)
  {
    var r := HandleStartGame(s, pid, rid, now);
    if r.Success? {
      var before := s.rooms.entries[rid];
      assert RoomOk(rid, before);
      var after := r.value.state.rooms.entries[rid];
      assert Members(before)[0] in before.players.keys;
      assert RoomOk(rid, after);
      InvAfterUpdate(s, r.value.state, rid);
    }
  }

  lemma {:induction false} MoveKeepsInv(s: State, pid: PlayerId, rid: RoomId, index: nat, now: real)
    requires Inv(s) && index < 9
    requires (rid in s.rooms.entries && Playable(s.rooms.entries[rid].game, pid, index))
               ==> Len(s.rooms.entries[rid].players) == 2 && pid in Members(s.rooms.entries[rid])
    ensures HandleMakeMove(s, pid, rid, index, now).Success? ==> Inv(HandleMakeMove(s, pid, rid, index, now).value.state)
  {
    var r := HandleMakeMove(s, pid, rid, index, now);
    if r.Success? {
      var before := s.rooms.entries[rid];
      assert RoomOk(rid, before);
      var after := r.value.state.rooms.entries[rid];
      PlayKeepsCount(before.game, Members(before), pid, index);
      if after.game.active {
        assert after.game.current == Some(NextPlayer(Members(before), pid));
        assert after.game.current.value in after.players.keys;
      }
      assert RoomOk(rid, after);
      InvAfterUpdate(s, r.value.state, rid);
    }
  }

  lemma {:induction false} ResetKeepsInv(s: State, pid: PlayerId, rid: RoomId, now: real)
    requires Inv(s)
    ensures HandleResetGame(s, pid, rid, now).Success? ==> Inv(HandleResetGame(s, pid, rid, now).value.state)
  {
    var r := HandleResetGame(s, pid, rid, now);
    if r.Success? {
      assert RoomOk(rid, s.rooms.entries[rid]);
      InitialIsCounted();
      InvAfterUpdate(s, r.value.state, rid);
    }
  }

  lemma {:induction false} CleanupKeepsInv(s: State, now: real)
    requires Inv(s)
    ensures Inv(CleanupOldRooms(s, now))
  {
    var s' := CleanupOldRooms(s, now);
    forall id | id in s'.rooms.entries ensures RoomOk(id, s'.rooms.entries[id]) {
      assert s'.rooms.entries[id] == s.rooms.entries[id];
    }
  }

  /** The server starts in shape and every admissible step keeps it so. */
  lemma {:induction false} HandlePreservesInv(s: State, env: Dispatch.Env, req: Dispatch.Request)
    requires Inv(s) && Dispatch.Admissible(s, env, req)
    ensures Inv(Dispatch.Handle(s, env, req).state)
  {
    match req
    case Connect =>
    case Disconnect => DisconnectKeepsInv(s, env.sid, env.now);
    case RegisterPlayer(pid, name) =>
    case CreateRoom(pid, name) => CreateKeepsInv(s, pid, name, env.newId, env.now);
    case JoinRoom(pid, rid) => JoinKeepsInv(s, pid, rid, env.now);
    case JoinRandomRoom(pid) => JoinRandomKeepsInv(s, pid, env.newId, env.now);
    case LeaveRoom(pid, rid) => LeaveKeepsInv(s, pid, rid, env.now);
    case StartGame(pid, rid) => StartKeepsInv(s, pid, rid, env.now);
    case ResetGame(pid, rid) => ResetKeepsInv(s, pid, rid, env.now);
    case MakeMove(pid, rid, index) => MoveKeepsInv(s, pid, rid, index, env.now);
    case GetRooms =>
    case Cleanup => CleanupKeepsInv(s, env.now);
  }

  lemma StartupInv()
    ensures Inv(Startup())
  {
  }

  /** In a directory in shape, a move in a room that still has both members
      never reaches the source's crash: only a game that lost a member can. */
  lemma {:induction false} FullRoomMovesAreAdmissible(s: State, env: Dispatch.Env, pid: PlayerId, rid: RoomId, index: nat)
    requires Inv(s) && index < 9
    requires rid in s.rooms.entries ==> Len(s.rooms.entries[rid].players) == 2
    ensures Dispatch.Admissible(s, env, Dispatch.MakeMove(pid, rid, index))
  {
    if rid in s.rooms.entries && Playable(s.rooms.entries[rid].game, pid, index) {
      assert RoomOk(rid, s.rooms.entries[rid]);
    }
  }
}
