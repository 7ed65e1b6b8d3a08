/** Identifiers and the named errors a request can be rejected with. */
module Types {

  /** Chosen by the client when it registers; opaque to the server. */
  type PlayerId = string

  /** The first eight characters of a UUID, generated when a room is created. */
  type RoomId = string

  /** The Socket.IO session id of one connection. */
  type Sid = string

  /** Every rejection a handler can answer with an `error` event. */
  datatype Error =
    | NotRegistered
    | RoomNotFound
    | RoomFull
    | NeedTwoPlayers
    | GameInProgress
    | GameNotActive
    | NotYourTurn
    | CellOccupied

  /** The `message` field of the `error` event sent back for `e`. */
  function Message(e: Error): string
  {
    match e
    case NotRegistered => "Player not registered"
    case RoomNotFound => "Room not found"
    case RoomFull => "Room is full"
    case NeedTwoPlayers => "Need 2 players to start game"
    case GameInProgress => "Game already in progress"
    case GameNotActive => "Game not active"
    case NotYourTurn => "Not your turn"
    case CellOccupied => "Cell already occupied"
  }

  /** A client can tell every rejection apart by its message alone. */
  lemma MessagesDistinguishErrors(e1: Error, e2: Error)
    ensures Message(e1) == Message(e2) <==> e1 == e2
  {
  }
}
