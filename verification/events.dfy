/** The outbound Socket.IO events the handlers emit, with their addressees.
    Delivery itself belongs to the transport and is not modelled. */
module Events {
  import opened Wrappers
  import opened Types
  import opened Game

  /** Who an event is addressed to: the requesting connection, every
      connection in a room's channel (optionally but the requester), one
      connection by sid, or every connection. */
  datatype Target =
    | ToSender
    | ToRoom(room: RoomId)
    | ToRoomExceptSender(room: RoomId)
    | ToConnection(sid: Sid)
    | ToEveryone

  datatype PlayerEntry = PlayerEntry(id: PlayerId, name: string)

  datatype RoomSummary = RoomSummary(
    id: RoomId,
    name: string,
    playerCount: nat,
    isFull: bool,
    gameActive: bool)

  datatype Payload =
    | Connected(sid: Sid)
    | ErrorMessage(message: string)
    | PlayerRegistered(playerId: PlayerId)
    | RoomCreated(roomId: RoomId, roomName: string, players: seq<PlayerEntry>)
    | RoomJoined(roomId: RoomId, roomName: string, players: seq<PlayerEntry>)
    | PlayerJoined(playerId: PlayerId, playerName: string, players: seq<PlayerEntry>)
    | PlayerLeft(playerId: PlayerId)
    | RoomLeft(roomId: RoomId)
    | GameStarted(roomId: RoomId, symbol: Symbol, yourTurn: bool, isHost: bool)
    | MoveMade(
        playerId: PlayerId,
        index: nat,
        symbol: Symbol,
        board: Board,
        currentPlayer: Option<PlayerId>,
        winner: Winner,
        gameActive: bool,
        moves: nat)
    | GameReset(roomId: RoomId, board: Board, gameActive: bool)
    | RoomsList(rooms: seq<RoomSummary>)
    | StatsUpdate(activeGames: nat, onlinePlayers: nat, waitingPlayers: nat)

  datatype Event = Event(to: Target, payload: Payload)
}
