/**
 * `GameLogic`: the gameplay handlers that act on the room a client is in.
 * A move is passed to that room's board, surrender and a finished game
 * settle scores through the database, and play-again installs a new board
 * and swaps the seats. The `server` object is split into its parts: the room
 * manager, the user manager (whose database takes the score updates) and the
 * outbox.
 */
module GameLogic {
  import opened Common
  import opened Rules
  import opened Board
  import opened Protocol
  import opened Store
  import opened RoomTable
  import opened Users
  import opened Rooms

  /** A request `handle_message` dispatches on its `type`; x and y are taken to be integers. */
  datatype Request = MoveRequest(x: int, y: int) | SurrenderRequest | PlayAgainRequest | OtherRequest

  // ---------------------------------------------------------------------------
  // Values the handlers are specified by

  /**
   * The room a handler acts on: the sender's `room_id`, when the sender has
   * an entry, the id is neither None nor empty, and the room exists.
   */
  function RoomOf(clients: map<ClientId, Client>, rooms: map<RoomId, Room>, c: ClientId): (g: Option<RoomId>)
    ensures g.Some? ==> c in clients && g == clients[c].roomId && g.value in rooms
  {
    if c in clients && Truthy(clients[c].roomId) && clients[c].roomId.value in rooms then clients[c].roomId else None
  }

  /** The first player in the list other than c, as the `for pid in players` loops with `break` find it. */
  function FirstOther(players: seq<ClientId>, c: ClientId): Option<ClientId>
  {
    if players == [] then None
    else if players[0] != c then Some(players[0])
    else FirstOther(players[1..], c)
  }

  /**
   * The other player is a seated player different from c, every player
   * before it is c, and there is none exactly when every player is c; so in
   * a room of two different players each one's other is the other one.
   */
  lemma {:induction false} FirstOtherFinds(players: seq<ClientId>, c: ClientId)
    ensures var o := FirstOther(players, c);
      && (o.None? <==> forall p :: p in players ==> p == c)
      && (o.Some? ==> o.value in players && o.value != c)
    ensures |players| == 2 && players[0] != players[1] && c == players[0] ==> FirstOther(players, c) == Some(players[1])
    ensures |players| == 2 && players[0] != players[1] && c == players[1] ==> FirstOther(players, c) == Some(players[0])
  {
    if players != [] && players[0] == c {
      FirstOtherFinds(players[1..], c);
      assert forall p :: p in players ==> p == c || p in players[1..];
      assert forall p :: p in players[1..] ==> p in players;
    } else if players != [] {
      assert players[0] in players;
    }
  }

  /** The database calls a win settles: +10 to the winner's user id, then -5 to the first other player's, when that player has an entry. */
  function ScoreUpdates(players: seq<ClientId>, clients: map<ClientId, Client>, w: ClientId): seq<StoreCall>
    requires w in clients
  {
    var loser := FirstOther(players, w);
    [UpdateScore(clients[w].userId, 10)]
      + (if loser.Some? && loser.value in clients then [UpdateScore(clients[loser.value].userId, -5)] else [])
  }

  /** The GAME_OVER message: the winner's username (as an f-string prints it) or "Draw". */
  function GameOverNotice(clients: map<ClientId, Client>, winner: Option<ClientId>): (m: Message)
    requires winner.Some? ==> winner.value in clients
    ensures m.GameOver?
    ensures winner.None? ==> m.winner == Some("Draw") && m.text == "GAME OVER! Winner: Draw"
    ensures winner.Some? ==>
      && m.winner == clients[winner.value].username
      && m.text == "GAME OVER! Winner: " + Show(clients[winner.value].username)
  {
    if winner.None? then GameOver("GAME OVER! Winner: Draw", Some("Draw"))
    else
      var name := clients[winner.value].username;
      GameOver("GAME OVER! Winner: " + Show(name), name)
  }

  /** What `handle_game_over` does besides marking the room finished: the database log after it, what it sent, how it ended. */
  datatype Closing = Closing(calls: seq<StoreCall>, sent: seq<Event>, completion: Completion)

  /**
   * `handle_game_over` for a room whose players are `players`: a winner with
   * no client entry raises KeyError before any score or message; otherwise a
   * win settles the scores, every player gets GAME_OVER, and the logged-in
   * clients get the online-players list read after the score updates.
   */
  function GameOverClosing(players: seq<ClientId>, clients: map<ClientId, Client>, order: seq<ClientId>,
                           answers: Oracle, log: seq<StoreCall>, winner: Option<ClientId>): Closing
    requires forall c :: c in order ==> c in clients
  {
    if winner.Some? && winner.value !in clients then Closing(log, [], Raised(KeyError))
    else
      var calls := log + (if winner.Some? then ScoreUpdates(players, clients, winner.value) else []);
      var online := OnlinePlayers(OnlineRows(order, clients, answers, calls));
      Closing(calls, Fanout(players, GameOverNotice(clients, winner)) + Fanout(LoggedIn(order, clients), online), Returned)
  }

  /**
   * The scores a game-over settles: none on a draw; on a win between two
   * different players who both have entries, +10 to the winner's user and
   * -5 to the other's, in that order; a winner with no entry changes none.
   */
  lemma GameOverScores(players: seq<ClientId>, clients: map<ClientId, Client>, order: seq<ClientId>,
                       answers: Oracle, log: seq<StoreCall>, winner: Option<ClientId>)
    requires forall c :: c in order ==> c in clients
    ensures var s := GameOverClosing(players, clients, order, answers, log, winner);
      && (winner.None? ==> s.calls == log && s.completion == Returned)
      && (winner.Some? && winner.value !in clients ==> s.calls == log && s.sent == [] && s.completion == Raised(KeyError))
      && (winner.Some? && |players| == 2 && players[0] != players[1] && winner.value in players
          && players[0] in clients && players[1] in clients ==>
            var loser := if winner.value == players[0] then players[1] else players[0];
            s.calls == log + [UpdateScore(clients[winner.value].userId, 10), UpdateScore(clients[loser].userId, -5)])
  {
    if winner.Some? && winner.value in players {
      FirstOtherFinds(players, winner.value);
    }
  }

  /** Every player of the room gets exactly one GAME_OVER, in seat order, before the online-players broadcast. */
  lemma {:induction false} GameOverToEachPlayer(players: seq<ClientId>, msg: Message)
    ensures |Fanout(players, msg)| == |players|
    ensures forall i :: 0 <= i < |players| ==> Fanout(players, msg)[i] == Event(players[i], msg)
  {
    if players != [] {
      GameOverToEachPlayer(players[1..], msg);
    }
  }

  // ---------------------------------------------------------------------------
  // Steps shared by the handlers

  /** `for pid in to: send_to_client(pid, msg)`. */
  method SendAll(to: seq<ClientId>, msg: Message, out: Outbox)
    modifies out
    ensures out.events == old(out.events) + Fanout(to, msg)
  {
    var i := 0;
    while i < |to|
      invariant 0 <= i <= |to|
      invariant out.events == old(out.events) + Fanout(to[..i], msg)
    {
      FanoutSnoc(to[..i], to[i], msg);
      assert to[..i + 1] == to[..i] + [to[i]];
      out.Send(to[i], msg);
      i := i + 1;
    }
    assert to[..i] == to;
  }

  /** The loop that looks for the first player other than c. */
  method FindOther(players: seq<ClientId>, c: ClientId) returns (o: Option<ClientId>)
    ensures o == FirstOther(players, c)
  {
    var i := 0;
    while i < |players|
      invariant 0 <= i <= |players|
      invariant forall j :: 0 <= j < i ==> players[j] == c
      invariant FirstOther(players, c) == FirstOther(players[i..], c)
    {
      assert players[i..][1..] == players[i + 1..];
      if players[i] != c {
        return Some(players[i]);
      }
      i := i + 1;
    }
    return None;
  }

  /** `room['status'] = 'finished'`. */
  method MarkFinished(rm: RoomManager, id: RoomId)
    requires rm.Valid() && id in rm.rooms
    modifies rm
    ensures rm.Valid()
    ensures rm.rooms == old(rm.rooms)[id := old(rm.rooms)[id].(status := Finished)]
    ensures rm.boards == old(rm.boards) && rm.order == old(rm.order) && rm.roomOwners == old(rm.roomOwners)
    ensures rm.roomCounter == old(rm.roomCounter)
  {
    var r := rm.rooms[id].(status := Finished);
    ReviseKeepsTable(rm.rooms, rm.order, rm.roomCounter, id, r);
    assert rm.rooms[id := r].Keys == rm.rooms.Keys;
    rm.Store(rm.rooms[id := r], rm.boards, rm.order, rm.roomOwners, rm.roomCounter);
  }

  /** The part of `handle_game_over` after the status change: scores, GAME_OVER to each player, online players. */
  method CloseGame(players: seq<ClientId>, winner: Option<ClientId>, um: UserManager, out: Outbox) returns (c: Completion)
    requires um.Valid()
    modifies um.db, out
    ensures var s := GameOverClosing(players, um.clients, um.order, um.db.answers, old(um.db.calls), winner);
      um.db.calls == s.calls && out.events == old(out.events) + s.sent && c == s.completion
  {
    if winner.Some? && winner.value !in um.clients {
      return Raised(KeyError);
    }
    if winner.Some? {
      SettleScores(players, winner.value, um);
    }
    NotifyGameOver(players, winner, um, out);
    return Returned;
  }

  /** The two `update_user_score` calls of a win: the winner's, then the first other player's when it has an entry. */
  method SettleScores(players: seq<ClientId>, w: ClientId, um: UserManager)
    requires w in um.clients
    modifies um.db
    ensures um.db.calls == old(um.db.calls) + ScoreUpdates(players, um.clients, w)
  {
    var _ := um.db.UpdateScore(um.clients[w].userId, 10);
    var loser := FindOther(players, w);
    if loser.Some? && loser.value in um.clients {
      var _ := um.db.UpdateScore(um.clients[loser.value].userId, -5);
    }
  }

  /** GAME_OVER to each player, then the online players to every logged-in client. */
  method NotifyGameOver(players: seq<ClientId>, winner: Option<ClientId>, um: UserManager, out: Outbox)
    requires um.Valid() && (winner.Some? ==> winner.value in um.clients)
    modifies out
    ensures out.events == old(out.events) + (Fanout(players, GameOverNotice(um.clients, winner))
      + Fanout(LoggedIn(um.order, um.clients), OnlinePlayers(OnlineRows(um.order, um.clients, um.db.answers, um.db.calls))))
  {
    ghost var e0 := out.events;
    ghost var notices := Fanout(players, GameOverNotice(um.clients, winner));
    SendAll(players, GameOverNotice(um.clients, winner), out);
    um.BroadcastOnlinePlayers(out);
    assert e0 + notices + Fanout(LoggedIn(um.order, um.clients), OnlinePlayers(OnlineRows(um.order, um.clients, um.db.answers, um.db.calls)))
      == e0 + (notices + Fanout(LoggedIn(um.order, um.clients), OnlinePlayers(OnlineRows(um.order, um.clients, um.db.answers, um.db.calls))));
  }

  /**
   * `handle_game_over(room, winner_id)`: the room is marked finished first,
   * so it stays finished even when the winner's lookup raises; then see
   * `GameOverClosing`.
   */
  method HandleGameOver(id: RoomId, winner: Option<ClientId>, rm: RoomManager, um: UserManager, out: Outbox) returns (c: Completion)
    requires rm.Valid() && um.Valid() && id in rm.rooms
    modifies rm, um.db, out
    ensures rm.Valid()
    ensures rm.rooms == old(rm.rooms)[id := old(rm.rooms)[id].(status := Finished)]
    ensures rm.boards == old(rm.boards) && rm.order == old(rm.order) && rm.roomOwners == old(rm.roomOwners)
    ensures rm.roomCounter == old(rm.roomCounter)
    ensures var s := GameOverClosing(old(rm.rooms)[id].players, um.clients, um.order, um.db.answers, old(um.db.calls), winner);
      um.db.calls == s.calls && out.events == old(out.events) + s.sent && c == s.completion
  {
    var players := rm.rooms[id].players;
    MarkFinished(rm, id);
    c := CloseGame(players, winner, um, out);
  }

  // ---------------------------------------------------------------------------
  // The handlers

  /** The state of room id's board. */
  ghost function BoardOf(rm: RoomManager, id: RoomId): (s: BoardState)
    requires rm.Valid() && id in rm.rooms
    reads rm, rm.boards.Values, rm.boards[id].board
    ensures IsSquare(s.grid, s.size)
  {
    assert rm.boards[id] in rm.boards.Values;
    rm.boards[id].State()
  }

  /** The board a move by c may write: the one of c's room, when c is seated there. */
  function MoverBoard(rm: RoomManager, um: UserManager, c: ClientId): set<object>
    reads rm, um, rm.boards.Values
  {
    var g := RoomOf(um.clients, rm.rooms, c);
    if g.Some? && c in rm.rooms[g.value].players && g.value in rm.boards
    then {rm.boards[g.value], rm.boards[g.value].board}
    else {}
  }

  /**
   * `handle_move(client_id, message)`: nothing for a client with no entry, no
   * room or no seat in its room; otherwise see `Play`.
   */
  method HandleMove(clientId: ClientId, x: int, y: int, rm: RoomManager, um: UserManager, out: Outbox) returns (c: Completion)
    requires rm.Valid() && um.Valid()
    modifies rm, um.db, out, MoverBoard(rm, um, clientId)
    ensures rm.Valid() && rm.boards == old(rm.boards) && rm.order == old(rm.order) && rm.roomOwners == old(rm.roomOwners)
    ensures rm.roomCounter == old(rm.roomCounter)
    ensures var g := RoomOf(um.clients, old(rm.rooms), clientId);
      g.None? || clientId !in old(rm.rooms)[g.value].players ==>
        && rm.rooms == old(rm.rooms) && um.db.calls == old(um.db.calls) && out.events == old(out.events) && c == Returned
    ensures var g := RoomOf(um.clients, old(rm.rooms), clientId);
      g.Some? && clientId in old(rm.rooms)[g.value].players ==>
        var id := g.value;
        var idx := IndexOf(old(rm.rooms)[id].players, clientId);
        var m := Rules.MakeMove(old(BoardOf(rm, id)), x, y, Some(idx + 1));
        var r := Response(old(rm.rooms)[id].players, idx, um.clients, um.order, um.db.answers, old(um.db.calls), clientId, m.1, x, y);
        && rm.boards[id].State() == m.0 && rm.rooms == RoomsAfterMove(old(rm.rooms), id, idx, m.1)
        && um.db.calls == r.calls && out.events == old(out.events) + r.sent && c == r.completion
  {
    var client := um.GetClient(clientId);
    if client.None? {
      return Returned;
    }
    var roomId := client.value.roomId;
    if !Truthy(roomId) || roomId.value !in rm.rooms {
      return Returned;
    }
    var id := roomId.value;
    if clientId !in rm.rooms[id].players {
      return Returned;
    }
    c := Play(id, clientId, x, y, rm, um, out, BoardOf(rm, id));
  }

  /**
   * The rooms after the board of room id has answered o to the player in
   * seat idx: the room is marked finished when the move ends the game and
   * the other seat exists, and nothing changes otherwise.
   */
  function RoomsAfterMove(rooms: map<RoomId, Room>, id: RoomId, idx: nat, o: MoveOutcome): (r: map<RoomId, Room>)
    requires id in rooms
    ensures r.Keys == rooms.Keys
    ensures forall k :: k in rooms && k != id ==> r[k] == rooms[k]
    ensures r[id].players == rooms[id].players
    ensures r[id].status == (if o.Ends() && 1 - idx < |rooms[id].players| then Finished else rooms[id].status)
  {
    if o.Ends() && 1 - idx < |rooms[id].players| then rooms[id := rooms[id].(status := Finished)] else rooms
  }

  /**
   * The database log, the sends and the completion of a move by the player
   * in seat idx once the board has answered o. A rejected move changes
   * nothing. An accepted move raises IndexError when there is no seat
   * 1 - idx (the mover sits alone in seat 0); otherwise the player in that
   * seat gets OPPONENT_MOVE with the mover's username, and a win settles the
   * game with the mover as winner, a draw with none.
   */
  function Response(players: seq<ClientId>, idx: nat, clients: map<ClientId, Client>, order: seq<ClientId>,
                    answers: Oracle, log: seq<StoreCall>, mover: ClientId, o: MoveOutcome, x: int, y: int): Closing
    requires idx < |players| <= 2 && mover in clients
    requires forall c :: c in order ==> c in clients
  {
    if o.Rejected? then Closing(log, [], Returned)
    else if 1 - idx >= |players| then Closing(log, [], Raised(IndexError))
    else
      var told := [Event(players[1 - idx], OpponentMove(x, y, clients[mover].username))];
      if !o.Ends() then Closing(log, told, Returned)
      else
        var s := GameOverClosing(players, clients, order, answers, log, if o.Win? then Some(mover) else None);
        Closing(s.calls, told + s.sent, s.completion)
  }

  /**
   * A move in a room of two different players who both have entries: a
   * rejected move changes nothing and sends nothing; an accepted one tells
   * the other player first; play goes on with nothing else, a draw touches
   * no score, and a win gives +10 to the mover's user and -5 to the other's.
   * The room is finished exactly when the move ends the game.
   */
  lemma MoveResponse(rooms: map<RoomId, Room>, id: RoomId, clients: map<ClientId, Client>, order: seq<ClientId>,
                     answers: Oracle, log: seq<StoreCall>, idx: nat, o: MoveOutcome, x: int, y: int)
    requires forall c :: c in order ==> c in clients
    requires id in rooms && |rooms[id].players| == 2 && idx < 2
    requires rooms[id].players[0] != rooms[id].players[1]
    requires rooms[id].players[0] in clients && rooms[id].players[1] in clients
    ensures var players := rooms[id].players;
      var mover, other := players[idx], players[1 - idx];
      var r := Response(players, idx, clients, order, answers, log, mover, o, x, y);
      && (o.Rejected? ==> r == Closing(log, [], Returned) && RoomsAfterMove(rooms, id, idx, o) == rooms)
      && (!o.Rejected? ==> r.completion == Returned && r.sent[0] == Event(other, OpponentMove(x, y, clients[mover].username)))
      && (o.Continue? ==> r.sent == [Event(other, OpponentMove(x, y, clients[mover].username))] && r.calls == log)
      && (o.Draw? ==> r.calls == log)
      && (o.Win? ==> r.calls == log + [UpdateScore(clients[mover].userId, 10), UpdateScore(clients[other].userId, -5)])
      && (RoomsAfterMove(rooms, id, idx, o)[id].status == Finished <==> o.Ends() || rooms[id].status == Finished)
  {
    var players := rooms[id].players;
    if o.Win? {
      GameOverScores(players, clients, order, answers, log, Some(players[idx]));
    }
  }

  /**
   * A move by a client seated in room id: the client plays as board player
   * `index + 1`, the room's board decides the move as `make_move` does, the
   * rooms change as `RoomsAfterMove` says and the rest is `Response`.
   */
  method Play(id: RoomId, clientId: ClientId, x: int, y: int, rm: RoomManager, um: UserManager, out: Outbox, ghost s0: BoardState)
    returns (c: Completion)
    requires rm.Valid() && um.Valid() && id in rm.rooms && clientId in rm.rooms[id].players && clientId in um.clients
    requires s0 == BoardOf(rm, id)
    modifies rm, um.db, out, rm.boards[id], rm.boards[id].board
    ensures rm.Valid() && rm.boards == old(rm.boards) && rm.order == old(rm.order) && rm.roomOwners == old(rm.roomOwners)
    ensures rm.roomCounter == old(rm.roomCounter)
    ensures var idx := IndexOf(old(rm.rooms)[id].players, clientId);
      var m := Rules.MakeMove(s0, x, y, Some(idx + 1));
      var r := Response(old(rm.rooms)[id].players, idx, um.clients, um.order, um.db.answers, old(um.db.calls), clientId, m.1, x, y);
      && rm.boards[id].State() == m.0 && rm.rooms == RoomsAfterMove(old(rm.rooms), id, idx, m.1)
      && um.db.calls == r.calls && out.events == old(out.events) + r.sent && c == r.completion
  {
    var players := rm.rooms[id].players;
    var idx := IndexOf(players, clientId);
    var o := Advance(rm, id, x, y, idx, s0);
    c := Respond(players, idx, clientId, o, x, y, um, out);
  }

  /**
   * The table part of a move by the player in seat idx: the board's
   * `make_move` as board player idx + 1, then the rooms as `RoomsAfterMove`
   * says.
   */
  method Advance(rm: RoomManager, id: RoomId, x: int, y: int, idx: nat, ghost s0: BoardState) returns (o: MoveOutcome)
    requires rm.Valid() && id in rm.rooms && idx < |rm.rooms[id].players|
    requires s0 == BoardOf(rm, id)
    modifies rm, rm.boards[id], rm.boards[id].board
    ensures rm.Valid() && rm.boards == old(rm.boards) && rm.order == old(rm.order) && rm.roomOwners == old(rm.roomOwners)
    ensures rm.roomCounter == old(rm.roomCounter)
    ensures (rm.boards[id].State(), o) == Rules.MakeMove(s0, x, y, Some(idx + 1))
    ensures rm.rooms == RoomsAfterMove(old(rm.rooms), id, idx, o)
  {
    o := MoveOnBoard(rm, id, x, y, idx + 1);
    if o.Ends() && 1 - idx < |rm.rooms[id].players| {
      MarkFinished(rm, id);
    }
  }

  /** `board.make_move(x, y, player_num)` on room id's board, its answer read back as an outcome. */
  method MoveOnBoard(rm: RoomManager, id: RoomId, x: int, y: int, p: int) returns (o: MoveOutcome)
    requires rm.Valid() && id in rm.rooms
    modifies rm.boards[id], rm.boards[id].board
    ensures rm.Valid()
    ensures (rm.boards[id].State(), o) == Rules.MakeMove(old(BoardOf(rm, id)), x, y, Some(p))
  {
    var b := rm.boards[id];
    var success, result := b.MakeMove(x, y, Some(p));
    assert BoardsShaped(rm.boards) by {
      forall o | o in rm.boards.Values
        ensures o.Shaped()
      {
        assert old(o.Shaped());
      }
    }
    o := if !success then Rejected else if result == "win" then Win else if result == "draw" then Draw else Continue;
  }

  /** The database and outbox part of a move: see `Response`. The rooms are changed by `Advance`. */
  method Respond(players: seq<ClientId>, idx: nat, clientId: ClientId, o: MoveOutcome, x: int, y: int, um: UserManager, out: Outbox)
    returns (c: Completion)
    requires um.Valid() && idx < |players| <= 2 && clientId in um.clients
    modifies um.db, out
    ensures var r := Response(players, idx, um.clients, um.order, um.db.answers, old(um.db.calls), clientId, o, x, y);
      um.db.calls == r.calls && out.events == old(out.events) + r.sent && c == r.completion
  {
    if o.Rejected? {
      return Returned;
    }
    if 1 - idx >= |players| {
      return Raised(IndexError);
    }
    var told := Event(players[1 - idx], OpponentMove(x, y, um.clients[clientId].username));
    out.Send(told.to, told.msg);
    if !o.Ends() {
      return Returned;
    }
    ghost var e0 := old(out.events);
    ghost var log := um.db.calls;
    var winner := if o.Win? then Some(clientId) else None;
    c := CloseGame(players, winner, um, out);
    ghost var s := GameOverClosing(players, um.clients, um.order, um.db.answers, log, winner);
    assert out.events == e0 + ([told] + s.sent);
  }

  /**
   * `handle_surrender(client_id)`: nothing for a client with no entry or no
   * room, or when every player of the room is the client itself; otherwise
   * the game is settled with the first other player as winner.
   */
  method HandleSurrender(clientId: ClientId, rm: RoomManager, um: UserManager, out: Outbox) returns (c: Completion)
    requires rm.Valid() && um.Valid()
    modifies rm, um.db, out
    ensures rm.Valid() && rm.boards == old(rm.boards) && rm.order == old(rm.order) && rm.roomOwners == old(rm.roomOwners)
    ensures rm.roomCounter == old(rm.roomCounter)
    ensures var g := RoomOf(um.clients, old(rm.rooms), clientId);
      g.None? || FirstOther(old(rm.rooms)[g.value].players, clientId).None? ==>
        && rm.rooms == old(rm.rooms) && um.db.calls == old(um.db.calls) && out.events == old(out.events) && c == Returned
    ensures var g := RoomOf(um.clients, old(rm.rooms), clientId);
      g.Some? && FirstOther(old(rm.rooms)[g.value].players, clientId).Some? ==>
        var players := old(rm.rooms)[g.value].players;
        var s := GameOverClosing(players, um.clients, um.order, um.db.answers, old(um.db.calls), FirstOther(players, clientId));
        && rm.rooms == old(rm.rooms)[g.value := old(rm.rooms)[g.value].(status := Finished)]
        && um.db.calls == s.calls && out.events == old(out.events) + s.sent && c == s.completion
  {
    var client := um.GetClient(clientId);
    if client.None? {
      return Returned;
    }
    var roomId := client.value.roomId;
    if !Truthy(roomId) || roomId.value !in rm.rooms {
      return Returned;
    }
    var id := roomId.value;
    var opponent := FindOther(rm.rooms[id].players, clientId);
    if opponent.None? {
      return Returned;
    }
    c := HandleGameOver(id, opponent, rm, um, out);
  }

  /** The table part of `handle_play_again`: a new board, status playing, the players reversed. */
  method Restart(rm: RoomManager, id: RoomId)
    requires rm.Valid() && id in rm.rooms
    modifies rm
    ensures rm.Valid()
    ensures rm.rooms == old(rm.rooms)[id := old(rm.rooms)[id].(players := Reverse(old(rm.rooms)[id].players), status := Playing)]
    ensures rm.boards == old(rm.boards)[id := rm.boards[id]] && fresh(rm.boards[id])
    ensures rm.boards[id].size == DefaultSize && rm.boards[id].State() == NewBoard(DefaultSize)
    ensures rm.order == old(rm.order) && rm.roomOwners == old(rm.roomOwners) && rm.roomCounter == old(rm.roomCounter)
  {
    var board := EmptyBoard();
    var r := rm.rooms[id].(players := Reverse(rm.rooms[id].players), status := Playing);
    ReviseKeepsTable(rm.rooms, rm.order, rm.roomCounter, id, r);
    FileBoardKeepsShape(rm.boards, id, board);
    assert rm.rooms[id := r].Keys == rm.rooms.Keys;
    assert rm.boards[id := board].Keys == rm.rooms.Keys;
    rm.Store(rm.rooms[id := r], rm.boards[id := board], rm.order, rm.roomOwners, rm.roomCounter);
  }

  /**
   * `handle_play_again(client_id)`: nothing for a client with no entry or no
   * room; otherwise the room gets a new empty board, is playing again and
   * its players are reversed, so the other player now moves first as X;
   * then every player gets ROOM_JOINED with the names in the new order (no
   * symbol), unless a player has no entry, which raises KeyError after the
   * reset and before any send. Seating is not checked.
   */
  method HandlePlayAgain(clientId: ClientId, rm: RoomManager, um: UserManager, out: Outbox) returns (c: Completion)
    requires rm.Valid() && um.Valid()
    modifies rm, out
    ensures rm.Valid() && rm.order == old(rm.order) && rm.roomOwners == old(rm.roomOwners) && rm.roomCounter == old(rm.roomCounter)
    ensures var g := RoomOf(um.clients, old(rm.rooms), clientId);
      g.None? ==> rm.rooms == old(rm.rooms) && rm.boards == old(rm.boards) && out.events == old(out.events) && c == Returned
    ensures var g := RoomOf(um.clients, old(rm.rooms), clientId);
      g.Some? ==>
        var id := g.value;
        var players := Reverse(old(rm.rooms)[id].players);
        var names := PlayerNames(players, Usernames(um.clients));
        && rm.rooms == old(rm.rooms)[id := old(rm.rooms)[id].(players := players, status := Playing)]
        && rm.boards == old(rm.boards)[id := rm.boards[id]] && fresh(rm.boards[id])
        && rm.boards[id].size == DefaultSize && rm.boards[id].State() == NewBoard(DefaultSize)
        && (names.Fail? ==> c == Raised(names.error) && out.events == old(out.events))
        && (names.Ok? ==> c == Returned && out.events == old(out.events) + Fanout(players, RoomJoined(id, names.value, None)))
  {
    var client := um.GetClient(clientId);
    if client.None? {
      return Returned;
    }
    var roomId := client.value.roomId;
    if !Truthy(roomId) || roomId.value !in rm.rooms {
      return Returned;
    }
    c := PlayAgain(roomId.value, rm, um, out);
  }

  /** Play again in room id: `Restart`, then `AnnounceRestart` to the players in their new order. */
  method PlayAgain(id: RoomId, rm: RoomManager, um: UserManager, out: Outbox) returns (c: Completion)
    requires rm.Valid() && id in rm.rooms
    modifies rm, out
    ensures rm.Valid() && rm.order == old(rm.order) && rm.roomOwners == old(rm.roomOwners) && rm.roomCounter == old(rm.roomCounter)
    ensures var players := Reverse(old(rm.rooms)[id].players);
      var names := PlayerNames(players, Usernames(um.clients));
      && rm.rooms == old(rm.rooms)[id := old(rm.rooms)[id].(players := players, status := Playing)]
      && rm.boards == old(rm.boards)[id := rm.boards[id]] && fresh(rm.boards[id])
      && rm.boards[id].size == DefaultSize && rm.boards[id].State() == NewBoard(DefaultSize)
      && (names.Fail? ==> c == Raised(names.error) && out.events == old(out.events))
      && (names.Ok? ==> c == Returned && out.events == old(out.events) + Fanout(players, RoomJoined(id, names.value, None)))
  {
    Restart(rm, id);
    c := AnnounceRestart(id, rm.rooms[id].players, um, out);
  }

  /** ROOM_JOINED, with the names in seat order and no symbol, to every player of a restarted room. */
  method AnnounceRestart(id: RoomId, players: seq<ClientId>, um: UserManager, out: Outbox) returns (c: Completion)
    modifies out
    ensures var names := PlayerNames(players, Usernames(um.clients));
      && (names.Fail? ==> c == Raised(names.error) && out.events == old(out.events))
      && (names.Ok? ==> c == Returned && out.events == old(out.events) + Fanout(players, RoomJoined(id, names.value, None)))
  {
    var names := PlayerNames(players, Usernames(um.clients));
    if names.Fail? {
      return Raised(names.error);
    }
    SendAll(players, RoomJoined(id, names.value, None), out);
    return Returned;
  }

  /** Play-again swaps the two seats, so the player who was O is X and moves first; a second play-again swaps them back. */
  lemma PlayAgainSwapsSeats(players: seq<ClientId>)
    ensures |players| == 2 ==> Reverse(players) == [players[1], players[0]]
    ensures Reverse(Reverse(players)) == players
  {
    if |players| == 2 {
      assert Reverse(players)[0] == players[1];
    }
    assert Reverse(Reverse(players)) == players;
  }

  /** `handle_message(client_id, message)`: dispatch on the request type; any other type is ignored. */
  method HandleMessage(clientId: ClientId, request: Request, rm: RoomManager, um: UserManager, out: Outbox) returns (c: Completion)
    requires rm.Valid() && um.Valid()
    modifies rm, um.db, out, MoverBoard(rm, um, clientId)
    ensures rm.Valid()
    ensures request.OtherRequest? ==>
      rm.rooms == old(rm.rooms) && um.db.calls == old(um.db.calls) && out.events == old(out.events) && c == Returned
  {
    match request
    case MoveRequest(x, y) => c := HandleMove(clientId, x, y, rm, um, out);
    case SurrenderRequest => c := HandleSurrender(clientId, rm, um, out);
    case PlayAgainRequest => c := HandlePlayAgain(clientId, rm, um, out);
    case OtherRequest => c := Returned;
  }
}
