# caro-online server core in Dafny

This project models the game core of caro-online, a client/server
five-in-a-row (caro, gomoku) game, and proves properties of the model.

- **Board** (`board.dfy`, specified by `rules.dfy`): `CaroBoard` is a class
  over a `size × size` array.
  - `make_move` validates a move: the game is not over, the cell is on the
    board and empty, and the player is the one to move.
  - It then writes the stone, records `(x, y, player)`, and scans the four
    axes at most four cells each way for five in a row.
  - It declares a draw on a full board, and otherwise passes the turn to
    `3 - player`.
  - Every method is proved against the value-level `Rules.MakeMove`,
    `Rules.CheckWin`, `Rules.IsFull` and `Rules.LegalMoves`. The
    properties the game promises are lemmas about those functions.
- **Game** (`game.dfy`): `CaroGame` maps two external player ids onto board
  players 1 and 2 and keeps start and end markers.
- **Protocol and database** (`protocol.dfy`, `store.dfy`):
  - `Outbox` stands for `server.send_to_client`: every message sent is
    appended to a list of events.
  - `ProfileStore` stands for the database. It is an oracle: its answers
    are arbitrary functions of the calls made so far, so every proof holds
    for any database behaviour. The calls that may change it are logged.
- **Users** (`users.dfy`): the client table kept by `UserManager`. It
  covers:
  - adding and removing clients;
  - login, which authenticates and otherwise registers;
  - the profile-edit checks;
  - the online-players list and its broadcast.
- **Rooms** (`roomtable.dfy`, `rooms.dfy`): `RoomManager` files rooms under
  `room_<counter>`, with one or two players, a status, an owner and a board
  each.
  - It creates, joins, leaves and deletes on empty.
  - It sends the room list with its `match_text` summary and answers
    match views.
- **Gameplay** (`gamelogic.dfy`): the handlers for move, surrender,
  play-again and game-over.
  - They act on the room the sender's entry points to.
  - Scores are settled through the database: +10 to the winner, -5 to the
    other player.
- **Avatar** (`avatar.dfy`): `get_avatar_path` wraps an id around the
  fixed list of 47 avatar files.

Handlers are methods over the room manager, the user manager (with its
database) and the outbox.
- Each one is proved equal to a function of the state before it, such as
  `Rules.MakeMove`, `Users.Login`, `Rooms.RoomsChanged`,
  `GameLogic.GameOverClosing` or `GameLogic.Response`.
- The lemmas beside those functions state what the game promises.
- A Python exception that escapes a handler is modelled as a `Raised`
  completion. The effects made before it are kept.

## Model

| member | source | states |
|---|---|---|
| Common.IntToString | server/user_manager.py:57 | `str(n)`: non-empty, with a leading '-' exactly for negative n |
| Common.NatToStringInjective | server/room_manager.py:33 | different counters print differently, so room ids built from them differ |
| Common.RemoveFirst | server/room_manager.py:146 | `list.remove(x)` drops one element when x is present and nothing otherwise |
| Common.RemoveFirstMultiset | server/room_manager.py:146 | `list.remove(x)` takes out exactly one occurrence of x and keeps every other element |
| Common.RemoveFirstDistinct | server/room_manager.py:166-168 | removing a room id from a duplicate-free order leaves exactly the other ids, still without duplicates |
| Common.IndexOf | server/game_logic.py:32 | `list.index(x)` is the first position holding x |
| Common.Reverse | server/game_logic.py:94 | `list.reverse()` puts element i at position len-1-i |
| Common.StripEmptyIffBlank | server/user_manager.py:93-97 | a stripped field is empty exactly when it was all whitespace |
| Common.StripIdempotent | server/user_manager.py:93-95 | stripping a stripped field changes nothing |
| Rules.NewBoard | shared/board.py:3-9 | a new board is size × size, all cells 0, player 1 to move, no history, no winner, not over |
| Rules.NewBoardWellFormed | shared/board.py:3-9 | a new board satisfies the board invariant and holds no stone |
| Rules.MakeMove | shared/board.py:11-57 | rejected exactly when the move is invalid (over, off the board, occupied, wrong player), and then nothing changes; an accepted move writes only (x, y), appends (x, y, player), and on win sets winner and game over keeping the turn, on draw sets game over, otherwise passes the turn to 3 - player |
| Rules.MakeMovePreservesWellFormed | shared/board.py:11-37 | every move keeps the board invariant: cells 0..2, the turn is 1 or 2, each recorded move's stone on its cell, no cell played twice, a winner ends the game |
| Rules.PlacingKeepsStonesMatched | shared/board.py:21-22 | writing a valid stone and recording it keeps grid and history in step |
| Rules.MoveAddsOneStone | shared/board.py:21-22 | an accepted move adds exactly one stone and one history entry, a rejected one neither |
| Rules.AcceptedMoveOutcome | shared/board.py:24-37 | an accepted move is "win" exactly when it completes five in a row through (x, y), "draw" exactly when it does not and the board is full, "continue" otherwise |
| Rules.Reach | shared/board.py:68-81 | one side of an axis counts at most 4 stones |
| Rules.ReachStep | shared/board.py:68-73 | the scan counts the next cell exactly when it holds the player's stone, and stops otherwise |
| Rules.ReachCovers | shared/board.py:68-81 | a side counts past step m exactly when every cell up to m holds the player's stone |
| Rules.EveryDirectionScanned | shared/board.py:62 | all four axes are scanned |
| Rules.RunIffFive | shared/board.py:64-85 | an axis counts 5 or more exactly when it holds five contiguous stones through the placed one |
| Rules.WinIffFiveInARow | shared/board.py:59-87 | `check_win` holds exactly when five in a row pass through the placed stone on some axis |
| Rules.LegalInRowExact | shared/board.py:105-107 | one row contributes exactly its empty cells, in increasing x |
| Rules.LegalFromRowExact | shared/board.py:104-107 | the rows from y on contribute exactly their empty cells, in row-major order |
| Rules.LegalMovesAreEmptyCells | shared/board.py:101-108 | `get_legal_moves` lists exactly the empty cells, in row-major order |
| Board.CaroBoard.constructor | shared/board.py:3-9 | the new board's state is `NewBoard(size)` and it is well formed |
| Board.CaroBoard.IsValidMove | shared/board.py:39-57 | the loop-free check agrees with `Rules.IsValidMove` |
| Board.CaroBoard.CountSteps | shared/board.py:68-81 | the counting loop returns `Rules.Reach` of one side |
| Board.CaroBoard.CheckWin | shared/board.py:59-87 | the nested loops return `Rules.CheckWin` |
| Board.CaroBoard.IsFull | shared/board.py:89-95 | the nested loops return whether no cell is 0 |
| Board.CaroBoard.GetBoard | shared/board.py:97-99 | the copy equals the grid row by row |
| Board.CaroBoard.GetLegalMoves | shared/board.py:101-108 | the nested loops build `Rules.LegalMoves` |
| Board.CaroBoard.PutStone | shared/board.py:21-22 | writes the stone in place and records the move, as `Rules.Placed` |
| Board.CaroBoard.Conclude | shared/board.py:24-37 | win, draw or pass the turn, as `Rules.Settle` |
| Board.CaroBoard.MakeMove | shared/board.py:11-37 | the new state and the returned pair are those of `Rules.MakeMove`; the board invariant is kept |
| Board.CaroBoard.Reset | shared/board.py:110-116 | a fresh empty grid of the same size and the initial state |
| Game.PlayerNumber | shared/game.py:18-23 | player1's id plays 1 (checked first), player2's id plays 2, any other id is refused |
| Game.CaroGame.constructor | shared/game.py:6-11 | both ids kept, a new default-size board, no start or end marker |
| Game.CaroGame.Start | shared/game.py:12-14 | sets the start marker only |
| Game.CaroGame.MakeMove | shared/game.py:15-27 | an unknown id returns (False, "Not a player in this game") with the board untouched; otherwise the board moves as that player; the end marker is set exactly when an accepted move wins or draws |
| Game.CaroGame.GetGameState | shared/game.py:28-37 | the snapshot holds the grid, the turn, `moves == len(history)`, winner, game over and whose turn |
| Game.TurnNamesCurrentPlayer | shared/game.py:38-43 | `get_player_turn` names the id that plays the board's current player |
| Protocol.Outbox.constructor | server/main.py:165-173 | nothing sent yet |
| Protocol.Outbox.Send | server/main.py:165-173 | one event appended |
| Protocol.Outbox.SendError | server/main.py:175-180 | one ERROR event appended |
| Store.ProfileStore.constructor | database/database.py:8-12 | an empty call log |
| Store.ProfileStore.Authenticate | database/database.py:179-210 | logs the call; answers the user row or None |
| Store.ProfileStore.Register | database/database.py:152-177 | logs the call; answers the new user id or None |
| Store.ProfileStore.UpdateProfile | database/database.py:232-268 | logs the call; answers success |
| Store.ProfileStore.UpdateScore | database/database.py:270-286 | logs the call; answers success |
| RoomTable.RoomName | server/room_manager.py:33 | room ids start with "room_" |
| RoomTable.RoomNameInjective | server/room_manager.py:33-34 | different counter values give different ids |
| RoomTable.IssueName | server/room_manager.py:33-34 | issuing the counter's id and moving the counter on keeps every issued id below the counter |
| RoomTable.PlayerNames | server/room_manager.py:98 | the players' usernames in seat order, or KeyError exactly when some player has no entry |
| RoomTable.MatchText | server/room_manager.py:101-103 | "Chờ đối thủ..." for no players, "A vs ..." for one, "A vs B" for two, TypeError exactly when some name is None |
| RoomTable.Summary | server/room_manager.py:98-111 | a row has the room's id, `count == len(players)`, its status, its names and its match text |
| RoomTable.SummaryOkIff | server/room_manager.py:98-111 | a row is built exactly when every player has an entry and, for a non-empty room, a username |
| RoomTable.Listing | server/room_manager.py:96-111 | a successful listing has one row per room |
| RoomTable.ListingRowByRow | server/room_manager.py:96-111 | the listing is built exactly when every room's row is, and its rows are those rows in insertion order |
| RoomTable.ListingFailsOnce | server/room_manager.py:97-98 | the first room that raises decides the error of the whole listing |
| RoomTable.SendRoomList | server/room_manager.py:95-116 | one ROOM_LIST with `Listing`, or the error and nothing sent |
| Users.WithRoom | server/room_manager.py:69-71 | only the client's `room_id` changes, and only when it has an entry |
| Users.Usernames | server/room_manager.py:98 | each entry's username, for exactly the entries |
| Users.LoggedInMembers | server/user_manager.py:156-157 | the broadcast goes to exactly the table's clients with a non-empty username |
| Users.LoggedInSnoc | server/user_manager.py:156-157 | one more client in the table joins the recipients exactly when logged in |
| Users.LoggedInDistinct | server/user_manager.py:156-161 | each logged-in client is sent to once |
| Users.FanoutStep | server/user_manager.py:156-161 | one more client in the table adds its event exactly when it is logged in |
| Users.FanoutSnoc | server/user_manager.py:158-161 | one more recipient appends one event |
| Users.OnlineEntry | server/user_manager.py:142-149 | the row's display name is the stored one when the database has the user, else the username |
| Users.OnlineRowsFollowLoggedIn | server/user_manager.py:137-150 | one row per logged-in client, in table order, built from that client's entry |
| Users.Decide | server/user_manager.py:46-68 | welcome exactly when authentication answers a user; registration is tried only after that fails; refusal exactly when both fail |
| Users.EditPrecheck | server/user_manager.py:97-105 | empty name is refused first; a new password without the old one is refused; nothing else is refused before the database |
| Users.LoginRefusalChangesNothing | server/user_manager.py:45-84 | registration is tried exactly when authentication failed; a login is refused (both calls fail) exactly when its only message is "Login Failed...", and a refused login leaves the table unchanged |
| Users.LoginCachesAccount | server/user_manager.py:46-83 | an accepted login changes only the client's username and user id: the account's username and id after authentication, the message's username and the new id after registration; when that username is non-empty the client is among the broadcast's recipients |
| Users.EditRefusesEmptyName | server/user_manager.py:93-99 | a blank display name is refused before any database call |
| Users.EditChecksOldPassword | server/user_manager.py:101-118 | the profile is updated at most once, last; a new password only after the old one was accepted; none passes `new_password=None` with no password check |
| Users.UserManager.constructor | server/user_manager.py:5-7 | no clients |
| Users.UserManager.AddClient | server/user_manager.py:9-15 | a fresh entry with username, user id and room all None; a known id keeps its place |
| Users.UserManager.GetClient | server/user_manager.py:17-18 | the entry exactly when there is one |
| Users.UserManager.RemoveClient | server/user_manager.py:20-26 | the entry is deleted when present, otherwise nothing changes |
| Users.UserManager.SetRoom | server/room_manager.py:45-47 | sets the entry's room id when there is an entry |
| Users.UserManager.GetOnlinePlayers | server/user_manager.py:137-150 | the loop builds `OnlineRows` |
| Users.UserManager.SendOnlinePlayers | server/user_manager.py:130-135 | one ONLINE_PLAYERS to the asker |
| Users.UserManager.BroadcastOnlinePlayers | server/user_manager.py:152-161 | the same ONLINE_PLAYERS to every logged-in client, in table order |
| Users.UserManager.AnnounceLogin | server/user_manager.py:61-65 | the room list to the client, then the online broadcast, as `AfterLogin` |
| Users.UserManager.SignIn | server/user_manager.py:46-85 | the database calls, the cached account and the first reply, as `Admit` |
| Users.UserManager.HandleLogin | server/user_manager.py:41-85 | the whole login, as `Login` |
| Users.UserManager.HandleEditProfile | server/user_manager.py:87-128 | ignored for an unknown client, otherwise as `Edit` |
| Rooms.Owners | server/room_manager.py:42 | `room_owners` maps exactly the rooms to their creators |
| Rooms.IssueKeepsTable | server/room_manager.py:33-42 | the next id is unused and filing the new room there keeps the table invariant |
| Rooms.ReviseKeepsTable | server/room_manager.py:68-73 | revising a room's players and status keeps the invariant and the owners |
| Rooms.DropKeepsTable | server/room_manager.py:165-168 | deleting a room from the rooms and `room_owners` keeps the invariant |
| Rooms.BroadcastListing | server/room_manager.py:133-138 | the same room list to every logged-in client, or the error at the first of them |
| Rooms.Announce | server/room_manager.py:53-56 | the room list broadcast, then the online broadcast, as `RoomsChanged` |
| Rooms.EmptyBoard | server/room_manager.py:38 | a fresh board in the initial state |
| Rooms.RoomManager.constructor | server/room_manager.py:6-9 | no rooms, counter 1 |
| Rooms.RoomManager.NextIdIsFresh | server/room_manager.py:33-34 | no id from the counter on is in use, so ids are never reused |
| Rooms.RoomManager.SendRoomList | server/room_manager.py:95-116 | one ROOM_LIST of the table, or the error |
| Rooms.RoomManager.BroadcastRoomList | server/room_manager.py:133-138 | see `BroadcastListing` |
| Rooms.RoomManager.AddRoom | server/room_manager.py:33-42 | a new waiting room `room_<counter>` with players [creator], owner creator and an empty board; the counter moves on; nothing else changes |
| Rooms.RoomManager.CreateRoom | server/room_manager.py:32-56 | the room is filed, the creator's entry points to it, ROOM_CREATED with X goes to the creator, then the broadcasts |
| Rooms.RoomManager.Seat | server/room_manager.py:68-73 | the joiner is appended and the room is playing |
| Rooms.RoomManager.JoinRoom | server/room_manager.py:58-93 | "Room not found" or "Room is full" with no change; otherwise the joiner takes the second seat, the room plays, X goes to players[0] and O to players[1], then the broadcasts |
| Rooms.RoomManager.Enter | server/room_manager.py:68-93 | the successful join, as in `JoinRoom` |
| Rooms.RoomManager.Unseat | server/room_manager.py:144-168 | one seat of the leaver is removed; a room left with a player waits; an empty room is deleted with its board and owner |
| Rooms.RoomManager.LeaveRoom | server/room_manager.py:140-172 | nothing for an unknown room or an unseated client; otherwise see `Depart` |
| Rooms.RoomManager.Depart | server/room_manager.py:145-172 | the seat is freed, the leaver's entry is cleared, OPPONENT_LEFT goes to whoever remains, then the broadcasts |
| Rooms.RoomManager.ViewMatch | server/room_manager.py:118-131 | the error for an unknown room; otherwise the names and status, or the KeyError |
| Rooms.AnnounceCreated | server/room_manager.py:44-56 | the creator's entry, ROOM_CREATED, then the broadcasts |
| Rooms.JoinNotices | server/room_manager.py:75-89 | ROOM_JOINED with X to the first player and O to the second, or TypeError exactly when one has no entry |
| Rooms.AnnounceJoin | server/room_manager.py:69-93 | the joiner's entry, the ROOM_JOINED pair, then the broadcasts |
| Rooms.VacateSeats | server/room_manager.py:146-168 | leaving removes exactly one seat of the leaver and keeps the others in order; the room survives exactly when someone is still seated, with its id and owner |
| Rooms.LeftNotice | server/room_manager.py:155-161 | OPPONENT_LEFT to the first remaining player exactly when the room survives |
| Rooms.AnnounceLeave | server/room_manager.py:148-172 | the leaver's entry, OPPONENT_LEFT, then the broadcasts |
| GameLogic.RoomOf | server/game_logic.py:20-26 | a handler acts only for a client with an entry whose room id is set and names a room |
| GameLogic.FirstOtherFinds | server/game_logic.py:66-70 | the first other player is a player other than the client; there is none exactly when every player is the client; in a room of two, each player's other is the other seat |
| GameLogic.GameOverNotice | server/game_logic.py:109-132 | GAME_OVER carries the winner's username, or "Draw" when there is no winner |
| GameLogic.GameOverScores | server/game_logic.py:107-124 | no score change on a draw; KeyError and no change for a winner without an entry; +10 to the winner and -5 to the other player in a room of two |
| GameLogic.GameOverToEachPlayer | server/game_logic.py:127-132 | every player gets exactly one GAME_OVER, in seat order |
| GameLogic.SendAll | server/game_logic.py:98-103 | one event per recipient, in order |
| GameLogic.FindOther | server/game_logic.py:66-70 | the loop with `break` finds the first other player |
| GameLogic.MarkFinished | server/game_logic.py:108 | only the room's status changes, to finished |
| GameLogic.CloseGame | server/game_logic.py:109-135 | the scores, the GAME_OVER messages and the online broadcast, as `GameOverClosing` |
| GameLogic.SettleScores | server/game_logic.py:112-124 | +10 for the winner, then -5 for the first other player when it has an entry |
| GameLogic.NotifyGameOver | server/game_logic.py:126-135 | GAME_OVER to each player, then the online list read after the score updates |
| GameLogic.HandleGameOver | server/game_logic.py:107-135 | the room is finished, even when the winner's lookup raises; the rest is `GameOverClosing` |
| GameLogic.HandleMove | server/game_logic.py:19-51 | no effect for a client without a room or a seat; otherwise the room's board moves as player index + 1, as `Rules.MakeMove`, and the rooms, log, sends and completion follow `RoomsAfterMove` and `Response` |
| GameLogic.RoomsAfterMove | server/game_logic.py:40-51 | only the moved-in room can change, and only to finished, exactly when the move ends the game and the other seat exists |
| GameLogic.MoveResponse | server/game_logic.py:38-51 | in a room of two, a rejected move does nothing; an accepted one tells the opponent first; a win scores +10/-5 and a draw nothing; the room finishes exactly when the game ends |
| GameLogic.Play | server/game_logic.py:28-51 | a seated mover's move, as in `HandleMove` |
| GameLogic.Advance | server/game_logic.py:38-51 | the board's `make_move`, then the room finished when the game ends |
| GameLogic.MoveOnBoard | server/game_logic.py:38 | the room's board moves as `Rules.MakeMove` and every board keeps its shape |
| GameLogic.Respond | server/game_logic.py:40-51 | the sends and scores of a move, as `Response` |
| GameLogic.HandleSurrender | server/game_logic.py:54-74 | no effect without a room or another player; otherwise the first other player wins through game-over |
| GameLogic.Restart | server/game_logic.py:88-94 | a fresh empty board, status playing, players reversed; nothing else changes |
| GameLogic.HandlePlayAgain | server/game_logic.py:77-104 | no effect without a room; otherwise the restart, then ROOM_JOINED with the new names to every player, or KeyError after the restart and before any send |
| GameLogic.PlayAgain | server/game_logic.py:88-103 | the restart and its announcement |
| GameLogic.AnnounceRestart | server/game_logic.py:97-103 | ROOM_JOINED to every player, or the KeyError and nothing sent |
| GameLogic.PlayAgainSwapsSeats | server/game_logic.py:93-94 | in a room of two the seats swap, so the other player is X; two restarts give the original order |
| GameLogic.HandleMessage | server/game_logic.py:6-16 | dispatch on the type; any other type changes nothing |
| Avatar.AvatarPath | client/avatar_config.py:55-70 | "" exactly for an empty list; otherwise "assets/avatar/" followed by a name from the list |
| Avatar.GetAvatarPath | client/avatar_config.py:55-67 | always "assets/avatar/" followed by one of the avatar files |
| Avatar.AvatarCount | client/avatar_config.py:5-53 | the list has 47 files |
| Avatar.InRangeIndexIsKept | client/avatar_config.py:64-67 | an index inside the list picks that position |
| Avatar.IndexWrapsAround | client/avatar_config.py:65 | indices that differ by a multiple of the length pick the same avatar |
| Avatar.NegativeIndexFromEnd | client/avatar_config.py:65 | -j picks position len - j, a valid position |
| Avatar.UnreadableIdIsFirst | client/avatar_config.py:58-61 | None and a string that is not an integer pick the first avatar |
| Avatar.TextIdRoundTrip | client/avatar_config.py:58-59 | `int(str(n)) == n`, so an id given as text picks the same avatar |
| Avatar.DigitsValueOfNatToString | client/avatar_config.py:59 | decimal digits read back as the number |
| Avatar.StripIntToString | client/avatar_config.py:59 | `str(n)` has no surrounding whitespace |
| Avatar.ParseIntOfIntToString | client/avatar_config.py:59 | `int(str(n)) == n` for every integer |
| Avatar.ReadIntOfIntToString | client/avatar_config.py:59 | the sign and digits of `str(n)` read back as n |

## Left out

- Sockets, JSON encoding, threads, `print` and `server/main.py`'s own loops are not modelled. A send is an event appended to the outbox, whether or not the client is still connected.
- `database/database.py` is not part of this model. SQL, password hashing, score clamping and win rates are an oracle that answers as an arbitrary function of the calls made so far.
- `time.time()` is a parameter: `CaroGame.Start` and `CaroGame.MakeMove` take the clock value.
- Message fields are taken with the types the handlers expect. `x` and `y` of a MOVE are integers; with a missing or non-integer coordinate the source would raise inside `is_valid_move`.
- `RoomManager.handle_message` and `UserManager.handle_message` are not modelled: they only dispatch on the message type to the modelled handlers.
- `handle_client_disconnect` and `UserManager.send_to_client` are not modelled: the first is `leave_room`, the second is socket I/O.
- `print_board` is not modelled: it is console output.
- Python dicts appear as a map plus an insertion-order sequence. The room dict's `board` entry is kept in a second map with the same keys.
- A handler updates the room table before it sends, where the source interleaves them. The two are separate objects, so the end state is the same.
- `room_owners` is kept equal to each room's `owner` as part of the table invariant.
- Rooms.RoomManager.Valid: states only that each room's board is size × size. It does not state that the boards are well formed or that distinct rooms own distinct board objects. Aliasing between rooms' boards is not proved absent.
- GameLogic.HandleMessage: states only that an unknown type changes nothing. The other three cases are the contracts of the handlers it calls.
- GameLogic.HandlePlayAgain: ROOM_JOINED after play-again carries no `player_symbol`; it is modelled as None.
- Rooms.RoomManager.CreateRoom: its ensures do not restate the new room's empty board; `AddRoom` states it.
- Avatar.ParseInt: accepts an optional sign and ASCII digits after stripping whitespace. Python's `int` also accepts underscores between digits and non-ASCII decimal digits.
- Avatar.ToIndex: an int, a string or None only. A float id, which Python's `int` truncates, is not modelled.
- Avatar.AvatarPath: joins with the POSIX separator "/". `os.path.join` uses the platform's separator, so on Windows, where the client also runs (it plays sounds through `winsound`), the path reads `assets\avatar\<name>`. `os.path.join`'s rule for an absolute file name does not arise, because no listed name starts with "/".
