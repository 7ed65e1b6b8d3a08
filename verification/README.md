# Tic-tac-toe signaling server, modelled in Dafny

The repository is a two-player tic-tac-toe service. Its server, `app.py`,
keeps two process-wide registries:
- `game_rooms`, a dict from room id to `GameRoom`;
- `players`, a dict from player id to the player's name, Socket.IO sid and
  connection time.

Clients drive it with Socket.IO events: register, create / join / join a
random room, leave, start, move, reset, list rooms, and disconnect. Most
handlers end by broadcasting statistics. These send none:
- a rejected request, which answers with one `error` event;
- `get_rooms`;
- leaving an unknown room;
- a join or start whose `game_started` loop stops at an unregistered member.

A background thread deletes rooms that have been idle for 30 minutes.

This project models that core:
- the registries;
- the `GameRoom` class;
- the game rules (`check_winner` and the validation and update steps of
  `make_move`);
- every handler above, as a pure step from registries to new registries plus
  the events it emits;
- the statistics;
- the idle sweep.

Modules, in dependency order:

- `Wrappers`: `Option` and `Result`.
- `Types`: identifiers, the rejection reasons and their exact messages.
- `Dicts`: Python's insertion-ordered `dict`. Key order is observable here:
  - the first member of a room plays X;
  - a random join takes the first open room;
  - a disconnect acts on the first matching player and the first matching
    room.
- `Game`: the board, `check_winner`, and one move (`Play`).
- `Rooms`: `GameRoom` and its methods.
- `Events`: the outbound events, each with its target (sender, room, room
  except sender, one connection, everyone).
- `Server`: the handlers, `broadcast_stats` and `cleanup_old_rooms`.
- `Dispatch`: one request, one atomic step. A rejected request answers its
  sender with one `error` event and changes nothing.
- `Invariants`: the shape every step keeps the room directory in.
- `Matchmaking`: the role assignment when a room fills, and which room a
  random join picks.
- `Scenario`: a whole session worked through. Two players register, one opens
  a room, the other joins (the game starts by itself), and X wins on the
  middle column with its third move.

Behaviour modelled as the code has it, where a reader might expect otherwise:
- `start_game` does not clear the board, the counter or the winner. Only
  `reset_game` does.
- `start_game`, `reset_game` and `leave_room` do not check that the requester
  is a member of the room.
- `leave_room` does not check registration, and it ignores an unknown room
  silently.
- `disconnect` takes the player out of the first room, in directory order,
  that lists them, and only that room.
- `disconnect` skips a player whose id is the empty string, because Python's
  `if player_id:` treats it as false.
- A room keeps the player record it was given at join time. Re-registering
  replaces the registry's record only.
- In the `game_started` loop the lookup `players[pid]` raises for a member
  who is no longer registered. That can happen to a player who sat in two
  rooms and disconnected. The model ends the handler there:
  - the started game and the events already sent stay;
  - the stats are not sent.

## Model

| member | source | states |
|---|---|---|
| Game.CheckWinner | app.py:1432-1445 | `None` exactly when none of the eight patterns is filled with one symbol; otherwise the symbol of a filled pattern with every earlier pattern (rows, then columns, then diagonals) unfilled |
| Game.CheckWinnerFindsLines | app.py:1432-1445 | the board has no winner iff neither X nor O owns a line, and a reported winner owns one |
| Game.Play | app.py:1349-1383 | the three rejections in their order (inactive, not your turn, occupied) and success exactly when the move is playable; on success only the chosen cell changes, to X for the first member and O otherwise, the counter goes up by one, and the game ends with the line's symbol, else with a tie at nine moves, else passes the turn to the other member |
| Game.NextPlayer | app.py:1368-1371 | the next player is a member, and is the other member when the two differ |
| Game.PlayKeepsCount | app.py:1365-1366 | every accepted move keeps the move counter equal to the number of filled cells, and so never above 9 |
| Game.InactiveGameIsFrozen | app.py:1349-1351 | a game that is not active rejects every move with "Game not active" |
| Game.OnlyTheMoverCanWin | app.py:1363-1378 | on a board without a line, a move can only produce the mover's symbol as winner |
| Game.CompletingALineWins | app.py:1374-1378 | a move completing a line for the mover makes the mover the winner and stops the game |
| Game.NinthMoveTies | app.py:1379-1383 | a ninth move completing no line ends the game as a tie with every cell filled |
| Rooms.NewRoom | app.py:36-47 | a new room has its id, no members, the opening game state and both clocks at the creation time |
| Rooms.Members | app.py:67-68 | the member list holds exactly the room's members, each once |
| Rooms.IsFull | app.py:61-62 | a room is full exactly when it has two members or more |
| Rooms.IsEmpty | app.py:64-65 | a room is empty exactly when it has no members and its member list is empty |
| Rooms.AddPlayer | app.py:49-54 | the player is admitted iff the room had fewer than two members; the room never exceeds two; a newcomer is appended, a member keeps their place; the others are kept; a refused room is unchanged |
| Rooms.RemovePlayer | app.py:56-59 | the player is gone afterwards, the others are kept in order, and a non-member leaves the room unchanged |
| Rooms.AddThenRemove | app.py:49-59 | a newcomer who joins and then leaves restores the members, their order and their records |
| Rooms.StartGame | app.py:70-77 | starts iff the room has exactly two members; then the game is active, the first member is to move, and board, counter and winner are untouched |
| Rooms.ResetGame | app.py:1410-1419 | the reset game has an empty board, no moves, no winner, nobody to move and is inactive |
| Rooms.ResetThenStart | app.py:70-77 | a reset followed by a start always gives the opening position with the first member to move |
| Rooms.StartDoesNotClearBoard | app.py:70-77 | a start after a won game reactivates it with the old winner still recorded |
| Rooms.MakeMove | app.py:1346-1383 | a move on a room succeeds exactly when the game is running, it is the mover's turn and the cell is free; the room's game then becomes the rules' result for its member order and its activity time the clock, with members, id and creation time unchanged; a refused move gives the rules' refusal |
| Dicts.Len | app.py:61-65 | the length of a dict is the number of its keys |
| Dicts.Put | app.py:49-54 | assignment maps the key to the value and keeps every other entry; a new key goes last, an existing key keeps its place |
| Dicts.Remove | app.py:56-59 | deletion removes only the key and shortens the dict by one, and the remaining keys close the gap in their old order; deleting an absent key changes nothing |
| Dicts.WithoutDeletesInPlace | app.py:56-59 | deleting a key from the key order closes the gap and keeps the other keys in order |
| Dicts.PutThenRemove | app.py:49-59 | inserting a new key and deleting it again gives back the same dict, order included |
| Dicts.Filter | app.py:1493-1505 | exactly the entries passing the test remain, with their values and in their old relative order |
| Dicts.FilterKeysKeepsOrder | app.py:1493-1505 | the surviving keys appear in the same relative order as in the original key list |
| Dicts.FilterTwice | app.py:1493-1505 | filtering twice with the same test equals filtering once |
| Dicts.CountIsCardinality | app.py:1485 | counting along the key order counts each passing entry exactly once |
| Server.Startup | app.py:30-33 | the server starts with no rooms and no players |
| Server.StatsCountRoomsAndPlayers | app.py:1483-1491 | the stats report the number of rooms whose game is active, the number of registered players, and an empty waiting list |
| Server.Announce | app.py:1214-1226 | the `game_started` loop sends member j, over its own connection, X with the turn and the host role if j is 0 and O with neither otherwise, and stops exactly at the first member who is no longer registered |
| Server.HandleConnect | app.py:1073-1077 | a connection is acknowledged with its own sid and changes nothing |
| Server.HandleRegisterPlayer | app.py:1112-1125 | registration upserts the player with the connection's sid and the clock: a new player goes last, a known one keeps its place; everybody else is kept, the rooms are left alone, and the answer is followed by the stats |
| Server.HandleCreateRoom | app.py:1127-1157 | an unregistered creator is refused; otherwise a new room is appended holding only its creator with the opening game, and nothing else changes |
| Server.Admit | app.py:1179-1213 | the joiner is seated with its registry record, the others keep theirs, the room keeps its id and is stamped with the clock, never exceeds two seats, and once it is full the game is active with the first member to move on the untouched board |
| Server.HandleJoinRoom | app.py:1159-1232 | refusals in order (not registered, room not found, room full) and success exactly otherwise; the joiner is then a member holding its current registry record, the other members keep theirs, other rooms and players are untouched, a room that became full has started with its first member to move, and the events are the join notices carrying the room's roster followed by either the stats or the start announcements |
| Server.FirstOpen | app.py:1242-1247 | the search returns the first room in directory order that is not full, or the end when every room is full |
| Server.HandleJoinRandomRoom | app.py:1234-1255 | an unregistered player is refused; otherwise the player joins the first room that is not full, or opens a room named after themself when there is none |
| Server.Vacate | app.py:1265-1277 | the room is deleted exactly when the leaver was all it held, and the other rooms then close the gap in their old order; otherwise it loses the leaver and keeps its place; other rooms are untouched |
| Server.HandleLeaveRoom | app.py:1257-1281 | an unknown room is ignored with no events; otherwise the room is deleted exactly when nobody else was in it, and a surviving room keeps its place, id, game and other members in order with only the leaver gone; a non-member changes nothing; other rooms and the players are untouched; the notices go to the room, the sender and everybody |
| Server.HandleStartGame | app.py:1283-1320 | refusals (room not found, fewer than two members, game in progress) and success exactly otherwise; only that room changes, to the started room, and a room of two then announces X, turn and host to its first member and O to the second, followed by the stats |
| Server.HandleGetRooms | app.py:1322-1334 | one summary per room in directory order, with id, name, player count, fullness and game activity, sent only to the sender and changing nothing |
| Server.HandleMakeMove | app.py:1336-1399 | an unknown room is refused first, then the rules' refusals; success exactly when the move is playable, in which case only that room's game changes, to the rules' result, the room keeping its id, members and place, and the move and the stats are broadcast |
| Server.HandleResetGame | app.py:1401-1429 | an unknown room is refused; otherwise that room's game is back to the opening state, the room keeping its id, members and place, and the reset and stats are broadcast |
| Server.FindBySid | app.py:1083-1088 | the search returns the first registered player on the connection, or the end when there is none |
| Server.FirstRoomWith | app.py:1095-1104 | the search returns the first room in directory order listing the player, or the end when there is none |
| Server.HandleDisconnect | app.py:1079-1110 | with no (or an empty) player id on the connection only stats are sent; otherwise the player is unregistered and removed from the first room listing them, which is deleted if that empties it |
| Server.DisconnectIsLeaveThenUnregister | app.py:1079-1110 | a disconnect equals leaving the first room that lists the player, without the `room_left` notice, and then unregistering; a later room listing the player still lists them |
| Server.CleanupOldRooms | app.py:1493-1505 | exactly the rooms idle for more than 1800 seconds are deleted; the others stay unchanged and in their old order, and the players are untouched |
| Server.RegisterThenDisconnect | app.py:1079-1125 | registering on a connection no other player uses and disconnecting before joining a room restores the registries exactly, order included |
| Server.CleanupIsIdempotent | app.py:1493-1505 | a second sweep at the same moment changes nothing |
| Dispatch.Reply | app.py:1164-1176 | a rejection sends exactly one `error` event with the rejection's message, to the sender only, and changes nothing |
| Dispatch.Handle | app.py:1074-1429 | each inbound event runs its own handler: connect, disconnect, register_player, leave_room and get_rooms directly, and create_room, join_room, join_random_room, start_game, reset_game and make_move through `Reply`, so that a refusal becomes one `error` event; a sweep only applies the cleanup; connect and get_rooms change nothing |
| Invariants.CreateKeepsInv | app.py:1127-1157 | creating a room keeps every room well formed |
| Invariants.JoinKeepsInv | app.py:1159-1232 | joining keeps every room at one or two members, with a counted board and, in a running full game, a member to move |
| Invariants.JoinRandomKeepsInv | app.py:1234-1255 | a random join keeps every room well formed |
| Invariants.VacateKeepsInv | app.py:1265-1277 | removing a member, and deleting the room if it empties, keeps every remaining room non-empty and well formed |
| Invariants.LeaveKeepsInv | app.py:1257-1281 | leaving keeps every room well formed |
| Invariants.DisconnectKeepsInv | app.py:1079-1110 | a disconnect keeps every room well formed |
| Invariants.StartKeepsInv | app.py:1283-1320 | a manual start keeps every room well formed and puts a member on the move |
| Invariants.MoveKeepsInv | app.py:1336-1399 | a move keeps the counter equal to the filled cells and the player to move a member |
| Invariants.ResetKeepsInv | app.py:1401-1429 | a reset keeps every room well formed |
| Invariants.CleanupKeepsInv | app.py:1493-1505 | the sweep keeps every remaining room well formed |
| Invariants.HandlePreservesInv | app.py:1079-1429 | every step of the server keeps every room filed under its own id, with one or two members, a move counter equal to its filled cells, and, in a running game, somebody to move who is a member while both members remain |
| Invariants.FullRoomMovesAreAdmissible | app.py:1361-1371 | in a well-formed directory, a move in a room that still has two members never reaches the crash in the turn switch |
| Matchmaking.AutoStartAnnouncesRoles | app.py:1209-1232 | the second player into a room starts the game: the joiner gets `room_joined`, the first member `player_joined`, then the first member is X with the turn and the host role, the joiner O with neither, and the stats go last |
| Matchmaking.AutoStartStopsAtUnregisteredHost | app.py:1216-1226 | when the first member is no longer registered the game still starts but only the two join notices go out |
| Matchmaking.JoinRandomTakesFirstOpenRoom | app.py:1242-1251 | when some room is open, a random join is a join of the first open room in directory order, every earlier room being full |
| Matchmaking.JoinRandomOpensRoomWhenAllFull | app.py:1249-1255 | when every room is full, a random join creates a room named "<name>'s Room" |
| Scenario.ColumnWin | app.py:1361-1383 | X at 4, O at 0, X at 1, O at 3, X at 7 alternates the turn and ends with board O X _ / O X _ / _ X _, X the winner and the game stopped |
| Scenario.SessionOpening | app.py:1159-1232 | after two registrations and a room creation, the second player's join starts the game with the creator as X, host and first to move |
| Scenario.SessionColumnWin | app.py:1336-1399 | the same five moves played through the server leave the room's game won by X on the middle column and stopped |

## Left out

- The HTML page, the Flask routes (`/`, `/status`, `/health`), CORS and the Socket.IO
  transport are not modelled. A Socket.IO room is modelled only as the target
  of an event.
- The WebRTC relay handlers (`webrtc_offer`, `webrtc_answer`,
  `webrtc_candidate`) are not modelled. They forward opaque payloads and
  touch no state.
- The cleanup thread's schedule, logging and server start-up are not
  modelled. One pass of the sweep is a step of its own (`Dispatch.Request.Cleanup`).
- The interleaving of the cleanup thread with the handlers is not modelled.
  Every handler is one atomic step.
- `uuid4`, `time.time()` and `datetime.now()` become parameters:
  - the new room id is required not to be in use already, because the source
    does not handle a collision;
  - one clock value serves a whole step;
  - times are exact `real` numbers rather than floats, so the idle test
    `now - last_activity > 1800` is exact where the source rounds.
- `waiting_players` is not modelled. Nothing ever adds to it, so the stats
  always report 0 waiting players.
- Requests missing a payload field, which raise `KeyError` before any change,
  are not modelled. Every request carries its fields.
- Server.HandleMakeMove: requires `index < 9`. The source does not range-check
  `data["index"]`. Python also accepts -9..-1 as board positions, and a JSON
  boolean as 0 or 1. Any other value raises only once the move has passed
  the active and turn checks (app.py:1348-1356); before that, the source
  answers with the usual "Game not active" or "Not your turn" error. The
  requirement leaves out those requests as well, including the negative and
  boolean indices.
- Server.HandleMakeMove: requires that a move passing validation is made in a
  room of exactly two members that includes the mover. In a room that lost a
  member mid-game, the source writes the cell and bumps the counter, then
  raises in the turn switch: `ValueError` when the mover has left but is still
  to move (app.py:1369), `IndexError` when the remaining member moves
  (app.py:1371). That partial update is not modelled.
  `Invariants.FullRoomMovesAreAdmissible` shows the requirement always holds
  while both members are present.
- Game.Play: carries the same two requirements, for the same reason.
- Rooms.MakeMove: carries the same two requirements, for the same reason.
