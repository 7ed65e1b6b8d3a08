/** Event dispatch: each inbound Socket.IO event, together with the side
    inputs it reads (the requesting sid, the clock, the next uuid), is one
    atomic step of the server. A rejected request answers its sender with an
    `error` event and changes nothing. */
module Dispatch {
  import opened Wrappers
  import opened Types
  import opened Game
  import Rooms
  import opened Events
  import opened Server

  /** The inbound events and their payload fields; `Cleanup` is one pass of
      the periodic sweep. */
  datatype Request =
    | Connect
    | Disconnect
    | RegisterPlayer(playerId: PlayerId, playerName: string)
    | CreateRoom(playerId: PlayerId, roomName: string)
    | JoinRoom(playerId: PlayerId, roomId: RoomId)
    | JoinRandomRoom(playerId: PlayerId)
    | LeaveRoom(playerId: PlayerId, roomId: RoomId)
    | StartGame(playerId: PlayerId, roomId: RoomId)
    | ResetGame(playerId: PlayerId, roomId: RoomId)
    | MakeMove(playerId: PlayerId, roomId: RoomId, index: nat)
    | GetRooms
    | Cleanup

  /** The side inputs of one step: the requesting connection, the clock as
      `time.time()` and as an ISO timestamp, and the id `uuid4` would yield. */
  datatype Env = Env(sid: Sid, now: real, clock: string, newId: RoomId)

  /** A failed handler sends one `error` event to its sender; a successful
      one has already produced its step. */
  function Reply(s: State, r: Result<Step, Error>): (step: Step)
    ensures r.Failure? ==> step.state == s && step.events == [Event(ToSender, ErrorMessage(Message(r.error)))]
    ensures r.Success? ==> step == r.value
  {
    match r
    case Success(step) => step
    case Failure(e) => Step(s, [Event(ToSender, ErrorMessage(Message(e)))])
  }

  /** The conditions the model puts on a request: a new room id is not in
      use, and a move names a cell and cannot reach the source's crash. */
  ghost predicate Admissible(s: State, env: Env, req: Request)
  {
    match req
    case CreateRoom(_, _) => env.newId !in s.rooms.entries
    case JoinRandomRoom(_) => env.newId !in s.rooms.entries
    case MakeMove(pid, rid, index) =>
      && index < 9
      && ((rid in s.rooms.entries && Playable(s.rooms.entries[rid].game, pid, index))
            ==> Dicts.Len(s.rooms.entries[rid].players) == 2 && pid in Rooms.Members(s.rooms.entries[rid]))
    case _ => true
  }

  /** One step of the server: each request goes to its own handler, and a
      handler that can refuse answers through `Reply`. */
  function Handle(s: State, env: Env, req: Request): (r: Step)
    requires Admissible(s, env, req)
    ensures req.GetRooms? || req.Connect? ==> r.state == s
    ensures req.Connect? ==> r == HandleConnect(s, env.sid)
    ensures req.Disconnect? ==> r == HandleDisconnect(s, env.sid, env.now)
    ensures req.RegisterPlayer? ==> r == HandleRegisterPlayer(s, env.sid, req.playerId, req.playerName, env.clock)
    ensures req.CreateRoom? ==> r == Reply(s, HandleCreateRoom(s, req.playerId, req.roomName, env.newId, env.now))
    ensures req.JoinRoom? ==> r == Reply(s, HandleJoinRoom(s, req.playerId, req.roomId, env.now))
    ensures req.JoinRandomRoom? ==> r == Reply(s, HandleJoinRandomRoom(s, req.playerId, env.newId, env.now))
    ensures req.LeaveRoom? ==> r == HandleLeaveRoom(s, req.playerId, req.roomId, env.now)
    ensures req.StartGame? ==> r == Reply(s, HandleStartGame(s, req.playerId, req.roomId, env.now))
    ensures req.ResetGame? ==> r == Reply(s, HandleResetGame(s, req.playerId, req.roomId, env.now))
    ensures req.MakeMove? ==> r == Reply(s, HandleMakeMove(s, req.playerId, req.roomId, req.index, env.now))
    ensures req.GetRooms? ==> r == HandleGetRooms(s)
    ensures req.Cleanup? ==> r.state == CleanupOldRooms(s, env.now) && r.events == []
  {
    match req
    case Connect => HandleConnect(s, env.sid)
    case Disconnect => HandleDisconnect(s, env.sid, env.now)
    case RegisterPlayer(pid, name) => HandleRegisterPlayer(s, env.sid, pid, name, env.clock)
    case CreateRoom(pid, name) => Reply(s, HandleCreateRoom(s, pid, name, env.newId, env.now))
    case JoinRoom(pid, rid) => Reply(s, HandleJoinRoom(s, pid, rid, env.now))
    case JoinRandomRoom(pid) => Reply(s, HandleJoinRandomRoom(s, pid, env.newId, env.now))
    case LeaveRoom(pid, rid) => HandleLeaveRoom(s, pid, rid, env.now)
    case StartGame(pid, rid) => Reply(s, HandleStartGame(s, pid, rid, env.now))
    case ResetGame(pid, rid) => Reply(s, HandleResetGame(s, pid, rid, env.now))
    case MakeMove(pid, rid, index) => Reply(s, HandleMakeMove(s, pid, rid, index, env.now))
    case GetRooms => HandleGetRooms(s)
    case Cleanup => Step(CleanupOldRooms(s, env.now), [])
  }
}
