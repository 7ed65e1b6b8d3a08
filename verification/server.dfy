/** The room directory and the Socket.IO handlers of app.py, each one an
    atomic step from the process-wide registries (`game_rooms`, `players`)
    to new registries plus the events it emits. The uuid, the clock and the
    requesting connection's sid are parameters. */
module Server {
  import opened Wrappers
  import opened Types
  import opened Dicts
  import opened Game
  import opened Rooms
  import opened Events

  /** `game_rooms` and `players`. */
  datatype State = State(rooms: Dict<RoomId, Room>, players: Dict<PlayerId, PlayerInfo>)

  /** The registries after a handler ran, and what it emitted, in order. */
  datatype Step = Step(state: State, events: seq<Event>)

  /** The registries at start-up: no rooms, no players. */
  function Startup(): (s: State)
    ensures s.rooms.keys == [] && s.players.keys == []
  {
    State(Empty(), Empty())
  }

  /** Rooms idle for longer than this many seconds are reaped. */
  const IdleLimit: real := 1800.0

  predicate GameActive(id: RoomId, room: Room)
  {
    room.game.active
  }

  /** The `active_games` count of `broadcast_stats`. */
  function ActiveGames(s: State): nat
  {
    Count(s.rooms, GameActive)
  }

  /** `broadcast_stats`; nobody is ever put on the waiting list, so its
      length is always 0. */
  function StatsEvent(s: State): Event
  {
    Event(ToEveryone, StatsUpdate(ActiveGames(s), Len(s.players), 0))
  }

  /** The stats count every room whose game is active exactly once, and
      every registered player. */
  lemma StatsCountRoomsAndPlayers(s: State)
    ensures StatsEvent(s).payload.activeGames == |set id | id in s.rooms.entries && s.rooms.entries[id].game.active|
    ensures StatsEvent(s).payload.onlinePlayers == |s.players.entries|
    ensures StatsEvent(s).payload.waitingPlayers == 0
  {
    CountIsCardinality(s.rooms, GameActive);
    assert Passing(s.rooms, GameActive) == set id | id in s.rooms.entries && s.rooms.entries[id].game.active;
  }

  /** The display name `f"Room {room_id}"`. */
  function RoomName(id: RoomId): string
  {
    "Room " + id
  }

  function RosterOf(keys: seq<PlayerId>, entries: map<PlayerId, PlayerInfo>): (r: seq<PlayerEntry>)
    requires forall k :: k in keys ==> k in entries
    ensures |r| == |keys|
    ensures forall i :: 0 <= i < |keys| ==> r[i] == PlayerEntry(keys[i], entries[keys[i]].name)
  {
    if |keys| == 0 then []
    else [PlayerEntry(keys[0], entries[keys[0]].name)] + RosterOf(keys[1..], entries)
  }

  /** The `players` list of `room_joined`: each member with the name it
      joined under, in join order. */
  function Roster(room: Room): seq<PlayerEntry>
  {
    RosterOf(room.players.keys, room.players.entries)
  }

  /** The `game_started` event member `j` of a starting room receives: the
      first member is X, moves first and hosts the peer connection. */
  function StartNotice(players: Dict<PlayerId, PlayerInfo>, rid: RoomId, members: seq<PlayerId>, j: nat): Event
    requires j < |members| && members[j] in players.entries
  {
    Event(ToConnection(players.entries[members[j]].sid), GameStarted(rid, if j == 0 then X else O, j == 0, j == 0))
  }

  /** The `game_started` loop from member `i` on. It looks every member up
      in `players`; the lookup of a member who is no longer registered
      raises, which ends the handler there with the events sent so far. */
  function Announce(players: Dict<PlayerId, PlayerInfo>, rid: RoomId, members: seq<PlayerId>, i: nat): (evs: seq<Event>)
    requires i <= |members|
    ensures i + |evs| <= |members|
    ensures forall j :: i <= j < i + |evs| ==>
              members[j] in players.entries && evs[j - i] == StartNotice(players, rid, members, j)
    ensures i + |evs| < |members| ==> members[i + |evs|] !in players.entries
    decreases |members| - i
  {
    if i == |members| || members[i] !in players.entries then []
    else
      var rest := Announce(players, rid, members, i + 1);
      var evs := [StartNotice(players, rid, members, i)] + rest;
      evs
  }

  /** The announcements and stats after a room started: the stats go out
      only if the loop got through every member. */
  function Started(s': State, rid: RoomId, members: seq<PlayerId>, players: Dict<PlayerId, PlayerInfo>): seq<Event>
  {
    var starts := Announce(players, rid, members, 0);
    if |starts| == |members| then starts + [StatsEvent(s')] else starts
  }

  /** `handle_connect`. */
  function HandleConnect(s: State, sid: Sid): (r: Step)
    ensures r.state == s && r.events == [Event(ToSender, Connected(sid))]
  {
    Step(s, [Event(ToSender, Connected(sid))])
  }

  /** `handle_register_player`: an upsert, last writer wins. */
  function HandleRegisterPlayer(s: State, sid: Sid, pid: PlayerId, name: string, clock: string): (r: Step)
    ensures r.state.rooms == s.rooms
    ensures pid in r.state.players.entries && r.state.players.entries[pid] == PlayerInfo(name, sid, clock)
    ensures forall q :: q != pid ==> (q in r.state.players.entries <==> q in s.players.entries)
    ensures forall q :: q != pid && q in s.players.entries ==> r.state.players.entries[q] == s.players.entries[q]
    ensures pid in s.players.entries ==> r.state.players.keys == s.players.keys
    ensures pid !in s.players.entries ==> r.state.players.keys == s.players.keys + [pid]
    ensures r.events == [Event(ToSender, PlayerRegistered(pid)), StatsEvent(r.state)]
  {
    var s' := s.(players := Put(s.players, pid, PlayerInfo(name, sid, clock)));
    Step(s', [Event(ToSender, PlayerRegistered(pid)), StatsEvent(s')])
  }

  /** What a successful `create_room` did: a new room `newId`, appended to the
      directory, holding only its creator, with the opening game state. */
  ghost predicate Created(s: State, r: Step, pid: PlayerId, roomName: string, newId: RoomId, now: real)
    requires pid in s.players.entries
  {
    var s' := r.state;
    && s'.players == s.players
    && s'.rooms.keys == s.rooms.keys + [newId]
    && newId in s'.rooms.entries
    && (forall k :: k != newId ==> (k in s'.rooms.entries <==> k in s.rooms.entries))
    && (forall k :: k != newId && k in s.rooms.entries ==> s'.rooms.entries[k] == s.rooms.entries[k])
    && var room := s'.rooms.entries[newId];
    && room.id == newId
    && Members(room) == [pid]
    && room.players.entries[pid] == s.players.entries[pid]
    && room.game == Initial
    && room.createdAt == now && room.lastActivity == now
    && r.events == [ Event(ToSender, RoomCreated(newId, roomName, [PlayerEntry(pid, s.players.entries[pid].name)])),
                     StatsEvent(s') ]
  }

  /** `handle_create_room`; `newId` is the id `uuid4` produced. */
  function HandleCreateRoom(s: State, pid: PlayerId, roomName: string, newId: RoomId, now: real): (r: Result<Step, Error>)
    requires newId !in s.rooms.entries
    ensures pid !in s.players.entries ==> r == Failure(NotRegistered)
    ensures pid in s.players.entries ==> r.Success? && Created(s, r.value, pid, roomName, newId, now)
  {
    if pid !in s.players.entries then Failure(NotRegistered)
    else
      var info := s.players.entries[pid];
      var room := AddPlayer(NewRoom(newId, now), pid, info, now).0;
      var s' := s.(rooms := Put(s.rooms, newId, room));
      Success(Step(s', [Event(ToSender, RoomCreated(newId, roomName, [PlayerEntry(pid, info.name)])),
                        StatsEvent(s')]))
  }

  /** The rooms other than `rid` are exactly as they were. */
  ghost predicate OthersUntouched(s: State, s': State, rid: RoomId)
  {
    && (forall k :: k != rid ==> (k in s'.rooms.entries <==> k in s.rooms.entries))
    && (forall k :: k != rid && k in s.rooms.entries ==> s'.rooms.entries[k] == s.rooms.entries[k])
  }

  /** What a successful `join_room` did to the registries: the joiner is a
      member of `rid`, appended unless already there; if that filled the
      room, its game started with the first member to move; nothing else
      changed. */
  ghost predicate Joined(s: State, s': State, pid: PlayerId, rid: RoomId, now: real)
    requires pid in s.players.entries && rid in s.rooms.entries
  {
    var before := s.rooms.entries[rid];
    && s'.players == s.players
    && s'.rooms.keys == s.rooms.keys
    && OthersUntouched(s, s', rid)
    && rid in s'.rooms.entries
    && var after := s'.rooms.entries[rid];
    && pid in after.players.entries
    && after.players.entries[pid] == s.players.entries[pid]
    && (forall q :: q != pid && q in before.players.entries ==>
          q in after.players.entries && after.players.entries[q] == before.players.entries[q])
    && (pid in before.players.entries ==> Members(after) == Members(before))
    && (pid !in before.players.entries ==> Members(after) == Members(before) + [pid])
    && Len(after.players) <= Capacity
    && after.id == before.id
    && after.lastActivity == now
    && (!IsFull(after) ==> after.game == before.game)
    && (IsFull(after) ==> && after.game.active
                          && after.game.current == Some(Members(after)[0])
                          && after.game.board == before.game.board
                          && after.game.moves == before.game.moves
                          && after.game.winner == before.game.winner)
  }

  /** The room after `add_player` and, if that filled it, `start_game`. */
  function Admit(room: Room, pid: PlayerId, info: PlayerInfo, now: real): (after: Room)
    requires !IsFull(room)
    ensures pid in after.players.entries && after.players.entries[pid] == info
    ensures forall q :: q != pid && q in room.players.entries ==>
              q in after.players.entries && after.players.entries[q] == room.players.entries[q]
    ensures pid in room.players.entries ==> Members(after) == Members(room)
    ensures pid !in room.players.entries ==> Members(after) == Members(room) + [pid]
    ensures Len(after.players) <= Capacity
    ensures after.id == room.id && after.lastActivity == now
    ensures !IsFull(after) ==> after.game == room.game
    ensures IsFull(after) ==> && after.game.active
                              && after.game.current == Some(Members(after)[0])
                              && after.game.board == room.game.board
                              && after.game.moves == room.game.moves
                              && after.game.winner == room.game.winner
  {
    var joined := AddPlayer(room, pid, info, now).0;
    if IsFull(joined) then StartGame(joined, now).0 else joined
  }

  /** The registries after `pid` joined room `rid`. */
  function AfterJoin(s: State, pid: PlayerId, rid: RoomId, now: real): (s': State)
    requires pid in s.players.entries && rid in s.rooms.entries && !IsFull(s.rooms.entries[rid])
    ensures Joined(s, s', pid, rid, now)
  {
    s.(rooms := Put(s.rooms, rid, Admit(s.rooms.entries[rid], pid, s.players.entries[pid], now)))
  }

  /** The part of `handle_join_room` after its checks: the join itself, the
      notices, and the automatic start when the room fills. */
  function JoinStep(s: State, pid: PlayerId, rid: RoomId, now: real): (r: Step)
    requires pid in s.players.entries && rid in s.rooms.entries && !IsFull(s.rooms.entries[rid])
    ensures Joined(s, r.state, pid, rid, now)
    ensures var after := r.state.rooms.entries[rid];
            var roster := Roster(after);
            && |r.events| >= 2
            && r.events[0] == Event(ToSender, RoomJoined(rid, RoomName(rid), roster))
            && r.events[1] == Event(ToRoomExceptSender(rid), PlayerJoined(pid, s.players.entries[pid].name, roster))
            && (!IsFull(after) ==> r.events[2..] == [StatsEvent(r.state)])
            && (IsFull(after) ==> r.events[2..] == Started(r.state, rid, Members(after), s.players))
  {
    var s' := AfterJoin(s, pid, rid, now);
    var after := s'.rooms.entries[rid];
    var roster := Roster(after);
    var notices := [ Event(ToSender, RoomJoined(rid, RoomName(rid), roster)),
                     Event(ToRoomExceptSender(rid), PlayerJoined(pid, s.players.entries[pid].name, roster)) ];
    if IsFull(after) then Step(s', notices + Started(s', rid, Members(after), s.players))
    else Step(s', notices + [StatsEvent(s')])
  }

  /** `handle_join_room`. */
  function HandleJoinRoom(s: State, pid: PlayerId, rid: RoomId, now: real): (r: Result<Step, Error>)
    ensures pid !in s.players.entries ==> r == Failure(NotRegistered)
    ensures pid in s.players.entries && rid !in s.rooms.entries ==> r == Failure(RoomNotFound)
    ensures pid in s.players.entries && rid in s.rooms.entries && IsFull(s.rooms.entries[rid]) ==> r == Failure(RoomFull)
    ensures r.Success? <==> pid in s.players.entries && rid in s.rooms.entries && !IsFull(s.rooms.entries[rid])
    ensures r.Success? ==> Joined(s, r.value.state, pid, rid, now)
    ensures r.Success? ==>
              var after := r.value.state.rooms.entries[rid];
              var roster := Roster(after);
              && |r.value.events| >= 2
              && r.value.events[0] == Event(ToSender, RoomJoined(rid, RoomName(rid), roster))
              && r.value.events[1] == Event(ToRoomExceptSender(rid), PlayerJoined(pid, s.players.entries[pid].name, roster))
              && (!IsFull(after) ==> r.value.events[2..] == [StatsEvent(r.value.state)])
              && (IsFull(after) ==> r.value.events[2..] == Started(r.value.state, rid, Members(after), s.players))
  {
    if pid !in s.players.entries then Failure(NotRegistered)
    else if rid !in s.rooms.entries then Failure(RoomNotFound)
    else if IsFull(s.rooms.entries[rid]) then Failure(RoomFull)
    else Success(JoinStep(s, pid, rid, now))
  }

  /** The first room, in directory order, that is not full; the number of
      rooms when every room is full. */
  function FirstOpen(keys: seq<RoomId>, entries: map<RoomId, Room>, i: nat): (j: nat)
    requires i <= |keys|
    requires forall k :: k in keys ==> k in entries
    ensures i <= j <= |keys|
    ensures forall n :: i <= n < j ==> IsFull(entries[keys[n]])
    ensures j < |keys| ==> !IsFull(entries[keys[j]])
    decreases |keys| - i
  {
    if i == |keys| then i
    else if !IsFull(entries[keys[i]]) then i
    else FirstOpen(keys, entries, i + 1)
  }

  /** `handle_join_random_room`: join the first room that is not full, or
      open a new one named after the player. */
  function HandleJoinRandomRoom(s: State, pid: PlayerId, newId: RoomId, now: real): (r: Result<Step, Error>)
    requires newId !in s.rooms.entries
    ensures pid !in s.players.entries ==> r == Failure(NotRegistered)
    ensures pid in s.players.entries ==>
              var i := FirstOpen(s.rooms.keys, s.rooms.entries, 0);
              if i < |s.rooms.keys| then r == HandleJoinRoom(s, pid, s.rooms.entries[s.rooms.keys[i]].id, now)
              else r == HandleCreateRoom(s, pid, s.players.entries[pid].name + "'s Room", newId, now)
  {
    if pid !in s.players.entries then Failure(NotRegistered)
    else
      var i := FirstOpen(s.rooms.keys, s.rooms.entries, 0);
      if i < |s.rooms.keys| then HandleJoinRoom(s, pid, s.rooms.entries[s.rooms.keys[i]].id, now)
      else HandleCreateRoom(s, pid, s.players.entries[pid].name + "'s Room", newId, now)
  }

  /** Takes `pid` out of room `rid` and deletes the room if that left it
      empty: the common part of `handle_leave_room` and `handle_disconnect`. */
  function Vacate(rooms: Dict<RoomId, Room>, rid: RoomId, pid: PlayerId, now: real): (r: Dict<RoomId, Room>)
    requires rid in rooms.entries
    ensures rid !in r.entries <==> forall q :: q in rooms.entries[rid].players.entries ==> q == pid
    ensures rid in r.entries ==> r.entries[rid] == RemovePlayer(rooms.entries[rid], pid, now)
    ensures forall k :: k != rid ==> (k in r.entries <==> k in rooms.entries)
    ensures forall k :: k != rid && k in rooms.entries ==> r.entries[k] == rooms.entries[k]
    ensures rid in r.entries ==> r.keys == rooms.keys
    ensures rid !in r.entries ==>
              forall i :: 0 <= i < |rooms.keys| && rooms.keys[i] == rid ==> r.keys == rooms.keys[..i] + rooms.keys[i + 1..]
  {
    var room := RemovePlayer(rooms.entries[rid], pid, now);
    assert IsEmpty(room) <==> forall q :: q in rooms.entries[rid].players.entries ==> q == pid by {
      if !IsEmpty(room) {
        var q :| q in room.players.entries;
        assert q != pid && q in rooms.entries[rid].players.entries;
      }
    }
    if IsEmpty(room) then Remove(rooms, rid) else Put(rooms, rid, room)
  }

  /** `handle_leave_room`. No membership or registration check: leaving a
      room one is not in only sends the notices. An unknown room is ignored
      without an error. */
  function HandleLeaveRoom(s: State, pid: PlayerId, rid: RoomId, now: real): (r: Step)
    ensures rid !in s.rooms.entries ==> r == Step(s, [])
    ensures r.state.players == s.players
    ensures rid in s.rooms.entries ==>
              && OthersUntouched(s, r.state, rid)
              && (rid !in r.state.rooms.entries <==> forall q :: q in s.rooms.entries[rid].players.entries ==> q == pid)
              && (rid in r.state.rooms.entries ==> pid !in r.state.rooms.entries[rid].players.entries)
              && (rid in r.state.rooms.entries ==>
                    (&& r.state.rooms.entries[rid] == RemovePlayer(s.rooms.entries[rid], pid, now)
                     && r.state.rooms.keys == s.rooms.keys))
              && (rid !in r.state.rooms.entries ==>
                    forall i :: 0 <= i < |s.rooms.keys| && s.rooms.keys[i] == rid ==>
                      r.state.rooms.keys == s.rooms.keys[..i] + s.rooms.keys[i + 1..])
              && (pid !in s.rooms.entries[rid].players.entries && !IsEmpty(s.rooms.entries[rid]) ==> r.state == s)
              && r.events == [ Event(ToRoom(rid), PlayerLeft(pid)),
                               Event(ToSender, RoomLeft(rid)),
                               StatsEvent(r.state) ]
  {
    if rid !in s.rooms.entries then Step(s, [])
    else
      var s' := s.(rooms := Vacate(s.rooms, rid, pid, now));
      assert pid !in s.rooms.entries[rid].players.entries && !IsEmpty(s.rooms.entries[rid]) ==> s' == s by {
        if pid !in s.rooms.entries[rid].players.entries && !IsEmpty(s.rooms.entries[rid]) {
          var q :| q in s.rooms.entries[rid].players.entries;
          assert s'.rooms.entries == s.rooms.entries;
        }
      }
      Step(s', [ Event(ToRoom(rid), PlayerLeft(pid)), Event(ToSender, RoomLeft(rid)), StatsEvent(s') ])
  }

  /** `handle_start_game`: a manual start, which does not check who asks. */
  function HandleStartGame(s: State, pid: PlayerId, rid: RoomId, now: real): (r: Result<Step, Error>)
    ensures rid !in s.rooms.entries ==> r == Failure(RoomNotFound)
    ensures rid in s.rooms.entries && !IsFull(s.rooms.entries[rid]) ==> r == Failure(NeedTwoPlayers)
    ensures (rid in s.rooms.entries && IsFull(s.rooms.entries[rid]) && s.rooms.entries[rid].game.active)
              ==> r == Failure(GameInProgress)
    ensures r.Success? <==> rid in s.rooms.entries && IsFull(s.rooms.entries[rid]) && !s.rooms.entries[rid].game.active
    ensures r.Success? ==> && rid in s.rooms.entries
                           && r.value.state.players == s.players
                           && r.value.state.rooms.keys == s.rooms.keys
                           && OthersUntouched(s, r.value.state, rid)
                           && rid in r.value.state.rooms.entries
                           && r.value.state.rooms.entries[rid] == StartGame(s.rooms.entries[rid], now).0
                           && (Len(s.rooms.entries[rid].players) == 2 ==>
                                 r.value.events == Started(r.value.state, rid, Members(s.rooms.entries[rid]), s.players))
                           && (Len(s.rooms.entries[rid].players) != 2 ==> r.value.events == [])
  {
    if rid !in s.rooms.entries then Failure(RoomNotFound)
    else
      var room := s.rooms.entries[rid];
      if !IsFull(room) then Failure(NeedTwoPlayers)
      else if room.game.active then Failure(GameInProgress)
      else
        var (started, ok) := StartGame(room, now);
        if !ok then Success(Step(s.(rooms := Put(s.rooms, rid, started)), []))
        else
          var s' := s.(rooms := Put(s.rooms, rid, started));
          Success(Step(s', Started(s', rid, Members(started), s.players)))
  }

  function SummariesOf(keys: seq<RoomId>, entries: map<RoomId, Room>): (r: seq<RoomSummary>)
    requires forall k :: k in keys ==> k in entries
    ensures |r| == |keys|
    ensures forall i :: 0 <= i < |keys| ==>
              r[i] == RoomSummary(keys[i], RoomName(keys[i]), Len(entries[keys[i]].players),
                                  IsFull(entries[keys[i]]), entries[keys[i]].game.active)
  {
    if |keys| == 0 then []
    else
      var room := entries[keys[0]];
      [RoomSummary(keys[0], RoomName(keys[0]), Len(room.players), IsFull(room), room.game.active)]
        + SummariesOf(keys[1..], entries)
  }

  /** `handle_get_rooms`: one summary per room, in directory order. */
  function HandleGetRooms(s: State): (r: Step)
    ensures r.state == s
    ensures |r.events| == 1 && r.events[0].to == ToSender && r.events[0].payload.RoomsList?
    ensures var rooms := r.events[0].payload.rooms;
            && |rooms| == |s.rooms.keys|
            && forall i :: 0 <= i < |rooms| ==>
                 var room := s.rooms.entries[s.rooms.keys[i]];
                 rooms[i] == RoomSummary(s.rooms.keys[i], RoomName(s.rooms.keys[i]), Len(room.players),
                                         IsFull(room), room.game.active)
  {
    Step(s, [Event(ToSender, RoomsList(SummariesOf(s.rooms.keys, s.rooms.entries)))])
  }

  /** `handle_make_move`. The index is not range-checked by the source, and
      the source raises if a move passing validation is made in a room that
      has lost a member, so both are required here. */
  function HandleMakeMove(s: State, pid: PlayerId, rid: RoomId, index: nat, now: real): (r: Result<Step, Error>)
    requires index < 9
    requires (rid in s.rooms.entries && Playable(s.rooms.entries[rid].game, pid, index))
               ==> Len(s.rooms.entries[rid].players) == 2 && pid in Members(s.rooms.entries[rid])
    ensures rid !in s.rooms.entries ==> r == Failure(RoomNotFound)
    ensures rid in s.rooms.entries ==>
              var room := s.rooms.entries[rid];
              && (r.Success? <==> Playable(room.game, pid, index))
              && (!room.game.active ==> r == Failure(GameNotActive))
              && (room.game.active && room.game.current != Some(pid) ==> r == Failure(NotYourTurn))
              && ((room.game.active && room.game.current == Some(pid) && room.game.board[index].Some?)
                    ==> r == Failure(CellOccupied))
    ensures r.Success? ==> && rid in s.rooms.entries
                           && var room := s.rooms.entries[rid];
                           && r.value.state.players == s.players
                           && r.value.state.rooms.keys == s.rooms.keys
                           && OthersUntouched(s, r.value.state, rid)
                           && rid in r.value.state.rooms.entries
                           && var after := r.value.state.rooms.entries[rid];
                           && Success(after.game) == Play(room.game, Members(room), pid, index)
                           && after == room.(game := after.game, lastActivity := now)
                           && |r.value.events| == 2
                           && r.value.events[0] == Event(ToRoom(rid), MoveMade(pid, index, SymbolOf(Members(room), pid),
                                after.game.board, after.game.current, after.game.winner, after.game.active, after.game.moves))
                           && r.value.events[1] == StatsEvent(r.value.state)
  {
    if rid !in s.rooms.entries then Failure(RoomNotFound)
    else
      var room := s.rooms.entries[rid];
      match MakeMove(room, pid, index, now)
      case Failure(e) => Failure(e)
      case Success(moved) =>
        var s' := s.(rooms := Put(s.rooms, rid, moved));
        var g := moved.game;
        Success(Step(s', [ Event(ToRoom(rid), MoveMade(pid, index, SymbolOf(Members(room), pid),
                                                       g.board, g.current, g.winner, g.active, g.moves)),
                           StatsEvent(s') ]))
  }

  /** `handle_reset_game`: anybody may reset any existing room. */
  function HandleResetGame(s: State, pid: PlayerId, rid: RoomId, now: real): (r: Result<Step, Error>)
    ensures rid !in s.rooms.entries ==> r == Failure(RoomNotFound)
    ensures rid in s.rooms.entries ==> && r.Success?
                                       && r.value.state.players == s.players
                                       && r.value.state.rooms.keys == s.rooms.keys
                                       && OthersUntouched(s, r.value.state, rid)
                                       && rid in r.value.state.rooms.entries
                                       && r.value.state.rooms.entries[rid]
                                            == s.rooms.entries[rid].(game := Initial, lastActivity := now)
                                       && r.value.events == [ Event(ToRoom(rid), GameReset(rid, EmptyBoard, false)),
                                                              StatsEvent(r.value.state) ]
  {
    if rid !in s.rooms.entries then Failure(RoomNotFound)
    else
      var s' := s.(rooms := Put(s.rooms, rid, ResetGame(s.rooms.entries[rid], now)));
      Success(Step(s', [ Event(ToRoom(rid), GameReset(rid, EmptyBoard, false)), StatsEvent(s') ]))
  }

  /** The first player, in registration order, whose connection is `sid`;
      the number of players when there is none. */
  function FindBySid(keys: seq<PlayerId>, entries: map<PlayerId, PlayerInfo>, sid: Sid, i: nat): (j: nat)
    requires i <= |keys|
    requires forall k :: k in keys ==> k in entries
    ensures i <= j <= |keys|
    ensures forall n :: i <= n < j ==> entries[keys[n]].sid != sid
    ensures j < |keys| ==> entries[keys[j]].sid == sid
    decreases |keys| - i
  {
    if i == |keys| then i
    else if entries[keys[i]].sid == sid then i
    else FindBySid(keys, entries, sid, i + 1)
  }

  /** The first room, in directory order, that has `pid` as a member; the
      number of rooms when there is none. */
  function FirstRoomWith(keys: seq<RoomId>, entries: map<RoomId, Room>, pid: PlayerId, i: nat): (j: nat)
    requires i <= |keys|
    requires forall k :: k in keys ==> k in entries
    ensures i <= j <= |keys|
    ensures forall n :: i <= n < j ==> pid !in entries[keys[n]].players.entries
    ensures j < |keys| ==> pid in entries[keys[j]].players.entries
    decreases |keys| - i
  {
    if i == |keys| then i
    else if pid in entries[keys[i]].players.entries then i
    else FirstRoomWith(keys, entries, pid, i + 1)
  }

  /** `handle_disconnect`: the first player registered on the closed
      connection leaves the first room it is a member of (which is deleted
      if that empties it) and is unregistered. An id that Python reads as
      false, the empty string, is skipped by the `if player_id:` test. */
  function HandleDisconnect(s: State, sid: Sid, now: real): (r: Step)
    ensures var i := FindBySid(s.players.keys, s.players.entries, sid, 0);
            if i == |s.players.keys| || s.players.keys[i] == "" then r == Step(s, [StatsEvent(s)])
            else
              var pid := s.players.keys[i];
              var j := FirstRoomWith(s.rooms.keys, s.rooms.entries, pid, 0);
              && r.state.players == Remove(s.players, pid)
              && (j == |s.rooms.keys| ==> r.state.rooms == s.rooms && r.events == [StatsEvent(r.state)])
              && (j < |s.rooms.keys| ==>
                    && r.state.rooms == Vacate(s.rooms, s.rooms.keys[j], pid, now)
                    && r.events == [Event(ToRoom(s.rooms.keys[j]), PlayerLeft(pid)), StatsEvent(r.state)])
  {
    var i := FindBySid(s.players.keys, s.players.entries, sid, 0);
    if i == |s.players.keys| || s.players.keys[i] == "" then Step(s, [StatsEvent(s)])
    else
      var pid := s.players.keys[i];
      var j := FirstRoomWith(s.rooms.keys, s.rooms.entries, pid, 0);
      if j == |s.rooms.keys| then
        var s' := s.(players := Remove(s.players, pid));
        Step(s', [StatsEvent(s')])
      else
        var rid := s.rooms.keys[j];
        var s' := State(Vacate(s.rooms, rid, pid, now), Remove(s.players, pid));
        Step(s', [Event(ToRoom(rid), PlayerLeft(pid)), StatsEvent(s')])
  }

  /** `cleanup_old_rooms`: every room idle for more than 1800 seconds at
      time `now` is deleted, silently; the others stay, unchanged. */
  function CleanupOldRooms(s: State, now: real): (s': State)
    ensures s'.players == s.players
    ensures forall k :: k in s'.rooms.entries <==> k in s.rooms.entries && now - s.rooms.entries[k].lastActivity <= IdleLimit
    ensures forall k :: k in s'.rooms.entries ==> s'.rooms.entries[k] == s.rooms.entries[k]
    ensures KeepsOrder(s'.rooms.keys, s.rooms.keys)
  {
    s.(rooms := Filter(s.rooms, (id: RoomId, room: Room) => now - room.lastActivity <= IdleLimit))
  }

  /** A second sweep at the same moment finds nothing more to delete. */
  lemma {:induction false} CleanupIsIdempotent(s: State, now: real)
    ensures CleanupOldRooms(CleanupOldRooms(s, now), now) == CleanupOldRooms(s, now)
  {
    FilterTwice(s.rooms, (id: RoomId, room: Room) => now - room.lastActivity <= IdleLimit);
  }

  /** A disconnect is a leave from the first room holding the player, minus
      the `room_left` notice, followed by unregistering; any later room that
      also lists the player keeps it. */
  lemma {:induction false} DisconnectIsLeaveThenUnregister(s: State, sid: Sid, now: real, i: nat, j: nat)
    requires i == FindBySid(s.players.keys, s.players.entries, sid, 0) && i < |s.players.keys|
    requires s.players.keys[i] != ""
    requires j == FirstRoomWith(s.rooms.keys, s.rooms.entries, s.players.keys[i], 0) && j < |s.rooms.keys|
    ensures var pid := s.players.keys[i];
            var left := HandleLeaveRoom(s, pid, s.rooms.keys[j], now);
            var r := HandleDisconnect(s, sid, now);
            && r.state == State(left.state.rooms, Remove(s.players, pid))
            && r.events == [left.events[0], StatsEvent(r.state)]
            && pid !in r.state.players.entries
            && forall k :: k != s.rooms.keys[j] && k in s.rooms.entries && pid in s.rooms.entries[k].players.entries
                 ==> k in r.state.rooms.entries && pid in r.state.rooms.entries[k].players.entries
  {
    var pid := s.players.keys[i];
    var rid := s.rooms.keys[j];
    assert HandleLeaveRoom(s, pid, rid, now).state.rooms == Vacate(s.rooms, rid, pid, now);
  }

  /** A player who registers on a connection no other player uses, and whose
      connection closes before it joins any room, leaves the registries
      exactly as they were, order included. */
  lemma {:induction false} RegisterThenDisconnect(s: State, sid: Sid, pid: PlayerId, name: string, clock: string, now: real)
    requires pid !in s.players.entries && pid != ""
    requires forall q :: q in s.players.entries ==> s.players.entries[q].sid != sid
    requires forall k :: k in s.rooms.entries ==> pid !in s.rooms.entries[k].players.entries
    ensures HandleDisconnect(HandleRegisterPlayer(s, sid, pid, name, clock).state, sid, now).state == s
  {
    var s1 := HandleRegisterPlayer(s, sid, pid, name, clock).state;
    var n := |s.players.keys|;
    assert s1.players.keys == s.players.keys + [pid];
    assert s1.players.keys[n] == pid;
    var i := FindBySid(s1.players.keys, s1.players.entries, sid, 0);
    assert i == n;
    var j := FirstRoomWith(s1.rooms.keys, s1.rooms.entries, pid, 0);
    assert j == |s1.rooms.keys|;
    PutThenRemove(s.players, pid, PlayerInfo(name, sid, clock));
  }
}
