/**
 * `RoomManager`: the room table. Rooms are keyed "room_<counter>" and kept in
 * insertion order; each holds one or two players, a board of its own, a
 * status and its creator, and `room_owners` mirrors the creators. The record
 * and the board of a room are kept in two maps with the same keys. The user
 * manager is passed in where the source reaches it through `server`, and
 * sends go to the outbox.
 */
module Rooms {
  import opened Common
  import opened Rules
  import opened Board
  import opened Protocol
  import opened Store
  import opened RoomTable
  import opened Users

  /**
   * The broadcasts that follow a change to the rooms: the room list to every
   * logged-in client, then the online-players list to the same clients. A
   * room list that raises ends the handler at the first logged-in client,
   * before anything is sent.
   */
  function RoomsChanged(rooms: map<RoomId, Room>, roomOrder: seq<RoomId>, clients: map<ClientId, Client>,
                        order: seq<ClientId>, answers: Oracle, log: seq<StoreCall>): (Completion, seq<Event>)
    requires forall r :: r in roomOrder ==> r in rooms
    requires forall c :: c in order ==> c in clients
  {
    var to := LoggedIn(order, clients);
    var listing := Listing(rooms, roomOrder, Usernames(clients));
    if to != [] && listing.Fail? then (Raised(listing.error), [])
    else
      var lists := if listing.Ok? then Fanout(to, RoomList(listing.value)) else [];
      (Returned, lists + Fanout(to, OnlinePlayers(OnlineRows(order, clients, answers, log))))
  }

  /** The OPPONENT_LEFT text. */
  function LeftText(name: string): string {
    name + " đã rời phòng"
  }

  /**
   * The table invariant, on values: `order` lists the rooms once each; every
   * room is filed under its own id and holds one or two players; and every
   * id handed out so far is below the counter.
   */
  ghost predicate TableOk(rooms: map<RoomId, Room>, order: seq<RoomId>, counter: nat)
  {
    && Distinct(order) && (forall id :: id in order <==> id in rooms)
    && counter >= 1
    && (forall id :: id in rooms ==> rooms[id].id == id && 1 <= |rooms[id].players| <= 2)
    && (forall k: nat :: RoomName(k) in rooms ==> k < counter)
  }

  /** What `room_owners` holds: each room's creator. */
  function Owners(rooms: map<RoomId, Room>): (owners: map<RoomId, ClientId>)
    ensures owners.Keys == rooms.Keys
    ensures forall id :: id in rooms ==> owners[id] == rooms[id].owner
  {
    map id | id in rooms :: rooms[id].owner
  }

  /** The next id is unused, and filing a one-player room under it keeps the invariant. */
  lemma IssueKeepsTable(rooms: map<RoomId, Room>, order: seq<RoomId>, counter: nat, c: ClientId)
    requires TableOk(rooms, order, counter)
    ensures RoomName(counter) !in rooms
    ensures var id := RoomName(counter);
      && TableOk(rooms[id := Room(id, [c], Waiting, c)], order + [id], counter + 1)
      && Owners(rooms[id := Room(id, [c], Waiting, c)]) == Owners(rooms)[id := c]
  {
    var id := RoomName(counter);
    IssueName(rooms.Keys, counter);
    assert rooms[id := Room(id, [c], Waiting, c)].Keys == rooms.Keys + {id};
  }

  /** Replacing a room's record by one with the same id and owner and one or two players keeps the invariant. */
  lemma ReviseKeepsTable(rooms: map<RoomId, Room>, order: seq<RoomId>, counter: nat, id: RoomId, r: Room)
    requires TableOk(rooms, order, counter) && id in rooms
    requires r.id == id && 1 <= |r.players| <= 2 && r.owner == rooms[id].owner
    ensures TableOk(rooms[id := r], order, counter) && Owners(rooms[id := r]) == Owners(rooms)
  {
    assert rooms[id := r].Keys == rooms.Keys;
  }

  /** Deleting a room everywhere keeps the invariant. */
  lemma DropKeepsTable(rooms: map<RoomId, Room>, order: seq<RoomId>, counter: nat, id: RoomId)
    requires TableOk(rooms, order, counter) && id in rooms
    ensures TableOk(rooms - {id}, RemoveFirst(order, id), counter) && Owners(rooms - {id}) == Owners(rooms) - {id}
  {
    RemoveFirstDistinct(order, id);
  }

  /** Every board's array is size × size. */
  ghost predicate BoardsShaped(boards: map<RoomId, CaroBoard>)
    reads boards.Values
  {
    forall b :: b in boards.Values ==> b.Shaped()
  }

  /** Deleting a board keeps every other board shaped. */
  lemma DropKeepsShape(boards: map<RoomId, CaroBoard>, id: RoomId)
    requires BoardsShaped(boards)
    ensures BoardsShaped(boards - {id})
  {
    forall b | b in (boards - {id}).Values
      ensures b.Shaped()
    {
      var k :| k in boards - {id} && (boards - {id})[k] == b;
      assert boards[k] in boards.Values;
    }
  }

  /** Filing a shaped board keeps every board shaped. */
  lemma FileBoardKeepsShape(boards: map<RoomId, CaroBoard>, id: RoomId, board: CaroBoard)
    requires BoardsShaped(boards) && board.Shaped()
    ensures BoardsShaped(boards[id := board])
  {
  }

  /**
   * `broadcast_room_list()` over a room table: `send_room_list` to every logged-in client in
   * table order; all of them get the same list, and a list that raises ends
   * the loop at the first of them.
   */
  method BroadcastListing(rooms: map<RoomId, Room>, order: seq<RoomId>, um: UserManager, out: Outbox) returns (c: Completion)
    requires (forall id :: id in order ==> id in rooms) && um.Valid()
    modifies out
    ensures var to := LoggedIn(um.order, um.clients);
      var l := Listing(rooms, order, Usernames(um.clients));
      && (to != [] && l.Fail? ==> c == Raised(l.error) && out.events == old(out.events))
      && (to == [] ==> c == Returned && out.events == old(out.events))
      && (l.Ok? ==> c == Returned && out.events == old(out.events) + Fanout(to, RoomList(l.value)))
  {
    ghost var l := Listing(rooms, order, Usernames(um.clients));
    ghost var msg := if l.Ok? then RoomList(l.value) else RoomList([]);
    var i := 0;
    while i < |um.order|
      invariant 0 <= i <= |um.order|
      invariant l.Fail? ==> LoggedIn(um.order[..i], um.clients) == []
      invariant out.events == old(out.events) + (if l.Ok? then Fanout(LoggedIn(um.order[..i], um.clients), msg) else [])
    {
      FanoutStep(um.order, um.clients, i, msg);
      LoggedInSnoc(um.order, um.clients, i);
      var client := um.GetClient(um.order[i]);
      if client.Some? && Truthy(client.value.username) {
        c := RoomTable.SendRoomList(um.order[i], rooms, order, Usernames(um.clients), out);
        if c.Raised? {
          LoggedInMembers(um.order, um.clients);
          assert um.order[i] in LoggedIn(um.order, um.clients);
          return;
        }
      }
      i := i + 1;
    }
    assert um.order[..i] == um.order;
    c := Returned;
  }

  /** The two broadcasts every room change ends with: the room list, then the online players. */
  method Announce(rooms: map<RoomId, Room>, order: seq<RoomId>, um: UserManager, out: Outbox) returns (c: Completion)
    requires (forall id :: id in order ==> id in rooms) && um.Valid()
    modifies out
    ensures var r := RoomsChanged(rooms, order, um.clients, um.order, um.db.answers, um.db.calls);
      c == r.0 && out.events == old(out.events) + r.1
  {
    c := BroadcastListing(rooms, order, um, out);
    if c.Raised? {
      return;
    }
    ghost var mid := out.events;
    um.BroadcastOnlinePlayers(out);
    assert out.events == old(out.events) + (mid[|old(out.events)|..] + out.events[|mid|..]);
  }


  /** `CaroBoard()`: a new empty board of the default size. */
  method EmptyBoard() returns (b: CaroBoard)
    ensures fresh(b) && fresh(b.board) && b.Shaped() && b.size == DefaultSize && b.State() == NewBoard(b.size)
  {
    b := new CaroBoard(DefaultSize);
  }

  class RoomManager {
    var rooms: map<RoomId, Room>
    /** `room['board']` of every room. */
    var boards: map<RoomId, CaroBoard>
    var order: seq<RoomId>
    var roomOwners: map<RoomId, ClientId>
    var roomCounter: nat

    /** The table invariant, `room_owners` mirroring the creators, and a shaped board for every room. */
    ghost predicate Valid()
      reads this, boards.Values
    {
      && TableOk(rooms, order, roomCounter) && roomOwners == Owners(rooms)
      && boards.Keys == rooms.Keys && BoardsShaped(boards)
    }

    /** `RoomManager()`: no rooms, the counter at 1. */
    constructor ()
      ensures Valid() && rooms == map[] && boards == map[] && order == [] && roomOwners == map[] && roomCounter == 1
    {
      rooms := map[];
      boards := map[];
      order := [];
      roomOwners := map[];
      roomCounter := 1;
    }

    /** The id `create_room` hands out next has not been used. */
    lemma NextIdIsFresh()
      requires Valid()
      ensures forall k: nat :: k >= roomCounter ==> RoomName(k) !in rooms
    {
    }

    /**
     * `send_room_list(client_id)`: one ROOM_LIST to that client, or the error a
     * room raises. This is the manager's own entry point over its fields; the
     * list itself is built by `RoomTable.SendRoomList` over plain values, which
     * the login handler also calls, since the user table cannot refer to this
     * class.
     */
    method SendRoomList(to: ClientId, um: UserManager, out: Outbox) returns (c: Completion)
      requires TableOk(rooms, order, roomCounter)
      modifies out
      ensures var l := Listing(rooms, order, Usernames(um.clients));
        && (l.Ok? ==> c == Returned && out.events == old(out.events) + [Event(to, RoomList(l.value))])
        && (l.Fail? ==> c == Raised(l.error) && out.events == old(out.events))
    {
      c := RoomTable.SendRoomList(to, rooms, order, Usernames(um.clients), out);
    }

    /**
     * `broadcast_room_list()` as the manager's method over its own fields. The
     * loop is `BroadcastListing` over plain values, so that the handlers'
     * notification steps, which run after the table has changed and touch
     * only the outbox, need not carry this object's invariant.
     */
    method BroadcastRoomList(um: UserManager, out: Outbox) returns (c: Completion)
      requires TableOk(rooms, order, roomCounter) && um.Valid()
      modifies out
      ensures var to := LoggedIn(um.order, um.clients);
        var l := Listing(rooms, order, Usernames(um.clients));
        && (to != [] && l.Fail? ==> c == Raised(l.error) && out.events == old(out.events))
        && (to == [] ==> c == Returned && out.events == old(out.events))
        && (l.Ok? ==> c == Returned && out.events == old(out.events) + Fanout(to, RoomList(l.value)))
    {
      c := BroadcastListing(rooms, order, um, out);
    }

    /**
     * The table part of `create_room`: a new waiting room "room_<counter>"
     * with the creator as its only player, the creator as owner and a fresh
     * empty board; the counter moves on and no other room changes.
     */
    method AddRoom(clientId: ClientId) returns (id: RoomId, board: CaroBoard)
      requires Valid()
      modifies this
      ensures Valid()
      ensures id == RoomName(old(roomCounter)) && id !in old(rooms)
      ensures rooms == old(rooms)[id := Room(id, [clientId], Waiting, clientId)]
      ensures boards == old(boards)[id := board] && fresh(board) && board.size == DefaultSize && board.State() == NewBoard(board.size)
      ensures order == old(order) + [id] && roomOwners == old(roomOwners)[id := clientId] && roomCounter == old(roomCounter) + 1
    {
      id := RoomName(roomCounter);
      IssueKeepsTable(rooms, order, roomCounter, clientId);
      board := EmptyBoard();
      FileBoardKeepsShape(boards, id, board);
      assert boards[id := board].Keys == rooms.Keys + {id};
      Store(rooms[id := Room(id, [clientId], Waiting, clientId)], boards[id := board], order + [id], roomOwners[id := clientId], roomCounter + 1);
    }

    /** Replaces the whole table by one that keeps the invariant. */
    method Store(newRooms: map<RoomId, Room>, newBoards: map<RoomId, CaroBoard>, newOrder: seq<RoomId>,
                 newOwners: map<RoomId, ClientId>, newCounter: nat)
      requires TableOk(newRooms, newOrder, newCounter) && newOwners == Owners(newRooms)
      requires newBoards.Keys == newRooms.Keys && BoardsShaped(newBoards)
      modifies this
      ensures Valid()
      ensures rooms == newRooms && boards == newBoards && order == newOrder && roomOwners == newOwners && roomCounter == newCounter
    {
      rooms, boards, order, roomOwners, roomCounter := newRooms, newBoards, newOrder, newOwners, newCounter;
    }

    /**
     * `create_room(client_id)`: file the new room, record it in the creator's
     * client entry (when there is one), send ROOM_CREATED with symbol X, then
     * announce the change.
     */
    method CreateRoom(clientId: ClientId, um: UserManager, out: Outbox) returns (c: Completion)
      requires Valid() && um.Valid()
      modifies this, um, out
      ensures Valid() && um.Valid() && um.order == old(um.order)
      ensures var id := RoomName(old(roomCounter));
        && id !in old(rooms)
        && rooms == old(rooms)[id := Room(id, [clientId], Waiting, clientId)]
        && boards == old(boards)[id := boards[id]] && fresh(boards[id])
        && order == old(order) + [id] && roomOwners == old(roomOwners)[id := clientId] && roomCounter == old(roomCounter) + 1
        && um.clients == WithRoom(old(um.clients), clientId, Some(id))
      ensures var r := RoomsChanged(rooms, order, um.clients, um.order, um.db.answers, um.db.calls);
        c == r.0 && out.events == old(out.events) + [Event(clientId, RoomCreated(RoomName(old(roomCounter)), "X"))] + r.1
    {
      var id, board := AddRoom(clientId);
      c := AnnounceCreated(clientId, id, rooms, order, um, out);
    }

    /** The table part of a successful `join_room`: the joiner takes the second seat and the room is playing. */
    method Seat(id: RoomId, clientId: ClientId)
      requires Valid() && id in rooms && |rooms[id].players| < 2
      modifies this
      ensures Valid()
      ensures rooms == old(rooms)[id := old(rooms)[id].(players := old(rooms)[id].players + [clientId], status := Playing)]
      ensures boards == old(boards) && order == old(order) && roomOwners == old(roomOwners) && roomCounter == old(roomCounter)
    {
      var r := rooms[id].(players := rooms[id].players + [clientId], status := Playing);
      ReviseKeepsTable(rooms, order, roomCounter, id, r);
      assert rooms[id := r].Keys == rooms.Keys;
      Store(rooms[id := r], boards, order, roomOwners, roomCounter);
    }

    /**
     * `join_room(client_id, room_id)`: "Room not found" for a missing or
     * unknown id and "Room is full" for a room with two players, both with no
     * change; otherwise the joiner is seated, its entry records the room, the
     * room is playing, both players get ROOM_JOINED (X to the first, O to the
     * second) and the change is announced.
     */
    method JoinRoom(clientId: ClientId, roomId: Option<RoomId>, um: UserManager, out: Outbox) returns (c: Completion)
      requires Valid() && um.Valid()
      modifies this, um, out
      ensures Valid() && um.Valid() && um.order == old(um.order)
      ensures boards == old(boards) && order == old(order) && roomOwners == old(roomOwners) && roomCounter == old(roomCounter)
      ensures roomId.None? || roomId.value !in old(rooms) ==>
        && rooms == old(rooms) && um.clients == old(um.clients) && c == Returned
        && out.events == old(out.events) + [Event(clientId, Error("Room not found"))]
      ensures roomId.Some? && roomId.value in old(rooms) && |old(rooms)[roomId.value].players| >= 2 ==>
        && rooms == old(rooms) && um.clients == old(um.clients) && c == Returned
        && out.events == old(out.events) + [Event(clientId, Error("Room is full"))]
      ensures roomId.Some? && roomId.value in old(rooms) && |old(rooms)[roomId.value].players| < 2 ==>
        var id := roomId.value;
        var seated := old(rooms)[id].players + [clientId];
        && rooms == old(rooms)[id := old(rooms)[id].(players := seated, status := Playing)]
        && um.clients == WithRoom(old(um.clients), clientId, Some(id))
        && var n := JoinNotices(id, seated, um.clients);
           var r := RoomsChanged(rooms, order, um.clients, um.order, um.db.answers, um.db.calls);
           && (n.Fail? ==> c == Raised(n.error) && out.events == old(out.events))
           && (n.Ok? ==> c == r.0 && out.events == old(out.events) + n.value + r.1)
    {
      if roomId.None? || roomId.value !in rooms {
        out.SendError(clientId, "Room not found");
        return Returned;
      }
      var id := roomId.value;
      if |rooms[id].players| >= 2 {
        out.SendError(clientId, "Room is full");
        return Returned;
      }
      c := Enter(id, clientId, um, out);
    }

    /**
     * A join that is let in: the joiner is seated, its entry records the
     * room, both players get ROOM_JOINED, and the change is announced.
     */
    method Enter(id: RoomId, clientId: ClientId, um: UserManager, out: Outbox) returns (c: Completion)
      requires Valid() && um.Valid() && id in rooms && |rooms[id].players| < 2
      modifies this, um, out
      ensures Valid() && um.Valid() && um.order == old(um.order)
      ensures boards == old(boards) && order == old(order) && roomOwners == old(roomOwners) && roomCounter == old(roomCounter)
      ensures var seated := old(rooms)[id].players + [clientId];
        && rooms == old(rooms)[id := old(rooms)[id].(players := seated, status := Playing)]
        && um.clients == WithRoom(old(um.clients), clientId, Some(id))
        && var n := JoinNotices(id, seated, um.clients);
           var r := RoomsChanged(rooms, order, um.clients, um.order, um.db.answers, um.db.calls);
           && (n.Fail? ==> c == Raised(n.error) && out.events == old(out.events))
           && (n.Ok? ==> c == r.0 && out.events == old(out.events) + n.value + r.1)
    {
      Seat(id, clientId);
      c := AnnounceJoin(clientId, id, rooms[id].players, rooms, order, um, out);
    }

    /**
     * The table part of a `leave_room` by a seated player: one occurrence of
     * the player leaves the list; a room left with a player waits again, an
     * empty room is deleted with its board and its owner entry.
     */
    method Unseat(id: RoomId, clientId: ClientId) returns (rest: seq<ClientId>)
      requires Valid() && id in rooms && clientId in rooms[id].players
      modifies this
      ensures Valid() && roomCounter == old(roomCounter)
      ensures rest == RemoveFirst(old(rooms)[id].players, clientId)
      ensures (rooms, boards, order) == AfterLeave(old(rooms), old(boards), old(order), id, clientId)
    {
      rest := RemoveFirst(rooms[id].players, clientId);
      var v := Vacate(rooms[id], clientId);
      if v.Some? {
        ReviseKeepsTable(rooms, order, roomCounter, id, v.value);
        assert rooms[id := v.value].Keys == rooms.Keys;
        Store(rooms[id := v.value], boards, order, roomOwners, roomCounter);
      } else {
        DropKeepsTable(rooms, order, roomCounter, id);
        DropKeepsShape(boards, id);
        Store(rooms - {id}, boards - {id}, RemoveFirst(order, id), roomOwners - {id}, roomCounter);
      }
    }

    /**
     * `leave_room(client_id, room_id)`: nothing for a missing or unknown room
     * or a client not seated in it; otherwise see `Depart`.
     */
    method LeaveRoom(clientId: ClientId, roomId: Option<RoomId>, um: UserManager, out: Outbox) returns (c: Completion)
      requires Valid() && um.Valid()
      modifies this, um, out
      ensures Valid() && um.Valid() && um.order == old(um.order) && roomCounter == old(roomCounter)
      ensures roomId.None? || roomId.value !in old(rooms) || clientId !in old(rooms)[roomId.value].players ==>
        && rooms == old(rooms) && boards == old(boards) && order == old(order) && roomOwners == old(roomOwners)
        && um.clients == old(um.clients) && c == Returned && out.events == old(out.events)
      ensures roomId.Some? && roomId.value in old(rooms) && clientId in old(rooms)[roomId.value].players ==>
        var id := roomId.value;
        && (rooms, boards, order) == AfterLeave(old(rooms), old(boards), old(order), id, clientId)
        && um.clients == WithRoom(old(um.clients), clientId, None)
        && var r := RoomsChanged(rooms, order, um.clients, um.order, um.db.answers, um.db.calls);
           && c == r.0
           && out.events == old(out.events) + LeftNotice(Vacate(old(rooms)[id], clientId), LeaverName(old(um.clients), clientId)) + r.1
    {
      if roomId.None? || roomId.value !in rooms || clientId !in rooms[roomId.value].players {
        return Returned;
      }
      c := Depart(roomId.value, clientId, um, out);
    }

    /**
     * A seated player leaves: the player is unseated, its entry no longer
     * records the room, the remaining player (if any) gets OPPONENT_LEFT,
     * and the change is announced.
     */
    method Depart(id: RoomId, clientId: ClientId, um: UserManager, out: Outbox) returns (c: Completion)
      requires Valid() && um.Valid() && id in rooms && clientId in rooms[id].players
      modifies this, um, out
      ensures Valid() && um.Valid() && um.order == old(um.order) && roomCounter == old(roomCounter)
      ensures (rooms, boards, order) == AfterLeave(old(rooms), old(boards), old(order), id, clientId)
      ensures um.clients == WithRoom(old(um.clients), clientId, None)
      ensures var r := RoomsChanged(rooms, order, um.clients, um.order, um.db.answers, um.db.calls);
        && c == r.0
        && out.events == old(out.events) + LeftNotice(Vacate(old(rooms)[id], clientId), LeaverName(old(um.clients), clientId)) + r.1
    {
      var rest := Unseat(id, clientId);
      c := AnnounceLeave(clientId, rest, rooms, order, um, out);
    }

    /** `view_match(client_id, room_id)`: the room's players and status to the asker. */
    method ViewMatch(clientId: ClientId, roomId: Option<RoomId>, um: UserManager, out: Outbox) returns (c: Completion)
      requires TableOk(rooms, order, roomCounter)
      modifies out
      ensures roomId.None? || roomId.value !in rooms ==>
        c == Returned && out.events == old(out.events) + [Event(clientId, Error(NoRoomText))]
      ensures roomId.Some? && roomId.value in rooms ==>
        var names := PlayerNames(rooms[roomId.value].players, Usernames(um.clients));
        && (names.Fail? ==> c == Raised(names.error) && out.events == old(out.events))
        && (names.Ok? ==>
              && c == Returned
              && out.events == old(out.events) + [Event(clientId, ViewMatchInfo(roomId.value, names.value, rooms[roomId.value].status))])
    {
      if roomId.None? || roomId.value !in rooms {
        out.SendError(clientId, NoRoomText);
        return Returned;
      }
      var id := roomId.value;
      var names := PlayerNames(rooms[id].players, Usernames(um.clients));
      if names.Fail? {
        return Raised(names.error);
      }
      out.Send(clientId, ViewMatchInfo(id, names.value, rooms[id].status));
      return Returned;
    }
  }

  /** What `create_room` does once the room is filed: the creator's entry, ROOM_CREATED, then the broadcasts. */
  method AnnounceCreated(clientId: ClientId, id: RoomId, rooms: map<RoomId, Room>, order: seq<RoomId>, um: UserManager, out: Outbox)
    returns (c: Completion)
    requires (forall r :: r in order ==> r in rooms) && um.Valid()
    modifies um, out
    ensures um.Valid() && um.order == old(um.order) && um.clients == WithRoom(old(um.clients), clientId, Some(id))
    ensures var r := RoomsChanged(rooms, order, um.clients, um.order, um.db.answers, um.db.calls);
      c == r.0 && out.events == old(out.events) + [Event(clientId, RoomCreated(id, "X"))] + r.1
  {
    um.SetRoom(clientId, Some(id));
    out.Send(clientId, RoomCreated(id, "X"));
    ghost var sent := out.events;
    c := Announce(rooms, order, um, out);
    assert out.events == sent + out.events[|sent|..];
  }

  /** The VIEW_MATCH error text for an unknown room. */
  const NoRoomText: string := "Phòng không tồn tại"

  /**
   * The ROOM_JOINED pair for a room whose players are now `players`: each
   * username read through `get_client(p)['username']`, so a player with no
   * entry raises TypeError before anything is sent; X to the first player,
   * O to the second.
   */
  function JoinNotices(id: RoomId, players: seq<ClientId>, clients: map<ClientId, Client>): (r: Result<seq<Event>>)
    requires |players| == 2
    ensures r.Fail? <==> players[0] !in clients || players[1] !in clients
    ensures r.Fail? ==> r.error == TypeError
    ensures r.Ok? ==>
      var names := [clients[players[0]].username, clients[players[1]].username];
      r.value == [Event(players[0], RoomJoined(id, names, Some("X"))), Event(players[1], RoomJoined(id, names, Some("O")))]
  {
    if players[0] !in clients || players[1] !in clients then Fail(TypeError)
    else
      var names := [clients[players[0]].username, clients[players[1]].username];
      Ok([Event(players[0], RoomJoined(id, names, Some("X"))), Event(players[1], RoomJoined(id, names, Some("O")))])
  }

  /** What `join_room` does once the joiner is seated: its entry, ROOM_JOINED to both players, then the broadcasts. */
  method AnnounceJoin(clientId: ClientId, id: RoomId, players: seq<ClientId>, rooms: map<RoomId, Room>, order: seq<RoomId>,
                      um: UserManager, out: Outbox) returns (c: Completion)
    requires |players| == 2 && (forall r :: r in order ==> r in rooms) && um.Valid()
    modifies um, out
    ensures um.Valid() && um.order == old(um.order) && um.clients == WithRoom(old(um.clients), clientId, Some(id))
    ensures var n := JoinNotices(id, players, um.clients);
      var r := RoomsChanged(rooms, order, um.clients, um.order, um.db.answers, um.db.calls);
      && (n.Fail? ==> c == Raised(n.error) && out.events == old(out.events))
      && (n.Ok? ==> c == r.0 && out.events == old(out.events) + n.value + r.1)
  {
    um.SetRoom(clientId, Some(id));
    var first := um.GetClient(players[0]);
    var second := um.GetClient(players[1]);
    if first.None? || second.None? {
      return Raised(TypeError);
    }
    var names := [first.value.username, second.value.username];
    out.Send(players[0], RoomJoined(id, names, Some("X")));
    out.Send(players[1], RoomJoined(id, names, Some("O")));
    ghost var sent := out.events;
    c := Announce(rooms, order, um, out);
    assert out.events == sent + out.events[|sent|..];
  }

  /**
   * A room after one occurrence of a seated player leaves it: None when no
   * player is left (the room is deleted), otherwise the rest of the players
   * with the room waiting again.
   */
  function Vacate(room: Room, c: ClientId): (v: Option<Room>)
  {
    var rest := RemoveFirst(room.players, c);
    if rest == [] then None else Some(room.(players := rest, status := Waiting))
  }

  /**
   * Leaving takes out exactly one seat of the leaver and keeps the others in
   * order; the room survives exactly when someone else is still seated, and
   * then keeps its id and owner.
   */
  lemma VacateSeats(room: Room, c: ClientId)
    requires c in room.players
    ensures var v := Vacate(room, c);
      && (v.Some? <==> |room.players| >= 2)
      && (v.Some? ==> v.value.id == room.id && v.value.owner == room.owner && v.value.status == Waiting
                      && multiset(v.value.players) == multiset(room.players) - multiset{c})
  {
    RemoveFirstMultiset(room.players, c);
  }

  /**
   * The rooms, boards and room order after a seated player leaves room id:
   * the room is revised while someone is still seated, and deleted with its
   * board and its place in the order once nobody is.
   */
  function AfterLeave(rooms: map<RoomId, Room>, boards: map<RoomId, CaroBoard>, order: seq<RoomId>, id: RoomId, c: ClientId)
    : (map<RoomId, Room>, map<RoomId, CaroBoard>, seq<RoomId>)
    requires id in rooms
  {
    var v := Vacate(rooms[id], c);
    if v.Some? then (rooms[id := v.value], boards, order) else (rooms - {id}, boards - {id}, RemoveFirst(order, id))
  }

  /** The name OPPONENT_LEFT reports: the entry's username as Python formats it, or "Unknown" without an entry. */
  function LeaverName(clients: map<ClientId, Client>, c: ClientId): string {
    if c in clients then Show(clients[c].username) else "Unknown"
  }

  /** OPPONENT_LEFT to the first remaining player, when the room survives. */
  function LeftNotice(v: Option<Room>, name: string): (sent: seq<Event>)
    requires v.Some? ==> v.value.players != []
    ensures v.None? <==> sent == []
    ensures v.Some? ==> sent == [Event(v.value.players[0], OpponentLeft(LeftText(name)))]
  {
    if v.None? then [] else [Event(v.value.players[0], OpponentLeft(LeftText(name)))]
  }

  /** What `leave_room` does once the player is unseated: its entry, OPPONENT_LEFT to whoever is left, then the broadcasts. */
  method AnnounceLeave(clientId: ClientId, rest: seq<ClientId>, rooms: map<RoomId, Room>, order: seq<RoomId>,
                       um: UserManager, out: Outbox) returns (c: Completion)
    requires (forall r :: r in order ==> r in rooms) && um.Valid()
    modifies um, out
    ensures um.Valid() && um.order == old(um.order) && um.clients == WithRoom(old(um.clients), clientId, None)
    ensures var r := RoomsChanged(rooms, order, um.clients, um.order, um.db.answers, um.db.calls);
      var notice := if rest == [] then [] else [Event(rest[0], OpponentLeft(LeftText(LeaverName(old(um.clients), clientId))))];
      c == r.0 && out.events == old(out.events) + notice + r.1
  {
    var left := um.GetClient(clientId);
    var name := if left.Some? then Show(left.value.username) else "Unknown";
    um.SetRoom(clientId, None);
    if rest != [] {
      out.Send(rest[0], OpponentLeft(LeftText(name)));
    }
    ghost var sent := out.events;
    c := Announce(rooms, order, um, out);
    assert out.events == sent + out.events[|sent|..];
  }
}
