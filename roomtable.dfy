/**
 * The room records kept by the room manager, and the ROOM_LIST summary built
 * from them. Usernames come from the user manager's client table, passed in
 * as a map from client id to the client's `username` field; a player with no
 * entry there makes the summary raise KeyError.
 */
module RoomTable {
  import opened Common
  import opened Protocol

  /**
   * A room record: its id, its players in seat order (X first), its status
   * and its creator. The room's board object is kept by the room manager
   * beside the record.
   */
  datatype Room = Room(id: RoomId, players: seq<ClientId>, status: RoomStatus, owner: ClientId)

  /** `f"room_{n}"`. */
  function RoomName(n: nat): (id: RoomId)
    ensures |id| > 5 && id[..5] == "room_"
  {
    "room_" + NatToString(n)
  }

  /** Different counter values give different room ids. */
  lemma RoomNameInjective(a: nat, b: nat)
    requires RoomName(a) == RoomName(b)
    ensures a == b
  {
    assert NatToString(a) == RoomName(a)[5..];
    assert NatToString(b) == RoomName(b)[5..];
    NatToStringInjective(a, b);
  }

  /**
   * Handing out the counter's id and moving the counter on keeps every id
   * handed out below the counter.
   */
  lemma IssueName(ids: set<RoomId>, counter: nat)
    requires forall k: nat :: RoomName(k) in ids ==> k < counter
    ensures forall k: nat :: RoomName(k) in ids + {RoomName(counter)} ==> k < counter + 1
  {
    forall k: nat | RoomName(k) in ids + {RoomName(counter)}
      ensures k < counter + 1
    {
      if RoomName(k) == RoomName(counter) {
        RoomNameInjective(k, counter);
      }
    }
  }

  /** `[clients[p]['username'] for p in players]`: KeyError if some player has no client entry. */
  function PlayerNames(players: seq<ClientId>, usernames: map<ClientId, Option<string>>): (r: Result<seq<Option<string>>>)
    ensures r.Ok? <==> forall p :: p in players ==> p in usernames
    ensures r.Fail? ==> r.error == KeyError
    ensures r.Ok? ==> |r.value| == |players| && forall i :: 0 <= i < |players| ==> r.value[i] == usernames[players[i]]
  {
    if players == [] then Ok([])
    else if players[0] !in usernames then Fail(KeyError)
    else
      var rest := PlayerNames(players[1..], usernames);
      if rest.Fail? then rest
      else
        assert forall p :: p in players ==> p == players[0] || p in players[1..];
        Ok([usernames[players[0]]] + rest.value)
  }

  /** `sep.join(parts)`. */
  function Join(parts: seq<string>, sep: string): string {
    if parts == [] then ""
    else if |parts| == 1 then parts[0]
    else parts[0] + sep + Join(parts[1..], sep)
  }

  /** The names of a list with no None in it. */
  function Texts(names: seq<Option<string>>): (r: seq<string>)
    requires None !in names
    ensures |r| == |names| && forall i :: 0 <= i < |names| ==> Some(r[i]) == names[i]
  {
    assert forall i :: 0 <= i < |names| ==> names[i] in names && names[i] != None;
    assert forall i :: 0 <= i < |names| ==> Some(names[i].value) == names[i];
    seq(|names|, i requires 0 <= i < |names| => names[i].value)
  }

  const WaitingText: string := "Chờ đối thủ..."

  /**
   * A room's `match_text`: "Chờ đối thủ..." for no players; otherwise the
   * names joined with " vs " (a None name makes `join` raise TypeError, even
   * for a lone player), replaced by "<name> vs ..." for a lone player.
   */
  function MatchText(names: seq<Option<string>>): (r: Result<string>)
    ensures names == [] ==> r == Ok(WaitingText)
    ensures names != [] ==> (r.Fail? <==> None in names)
    ensures r.Fail? ==> r.error == TypeError
    ensures |names| == 1 && names[0].Some? ==> r == Ok(names[0].value + " vs ...")
    ensures |names| == 2 && names[0].Some? && names[1].Some? ==> r == Ok(names[0].value + " vs " + names[1].value)
  {
    if names == [] then Ok(WaitingText)
    else if None in names then Fail(TypeError)
    else if |names| == 1 then Ok(names[0].value + " vs ...")
    else
      assert |names| == 2 ==> Join(Texts(names)[1..], " vs ") == names[1].value;
      Ok(Join(Texts(names), " vs "))
  }

  /** One ROOM_LIST row: id, `count == len(players)`, status, the player names and the match text. */
  function Summary(id: RoomId, room: Room, usernames: map<ClientId, Option<string>>): (r: Result<RoomSummary>)
    ensures r.Ok? ==> r.value.id == id && r.value.count == |room.players| && r.value.status == room.status
    ensures r.Ok? ==> PlayerNames(room.players, usernames) == Ok(r.value.players) && MatchText(r.value.players) == Ok(r.value.matchText)
  {
    var names := PlayerNames(room.players, usernames);
    if names.Fail? then Fail(names.error)
    else
      var text := MatchText(names.value);
      if text.Fail? then Fail(text.error)
      else Ok(RoomSummary(id, |room.players|, room.status, names.value, text.value))
  }

  /**
   * A row is built exactly when every player has a client entry and, unless
   * the room is empty, every player's username is set.
   */
  lemma SummaryOkIff(id: RoomId, room: Room, usernames: map<ClientId, Option<string>>)
    ensures Summary(id, room, usernames).Ok? <==>
      && (forall p :: p in room.players ==> p in usernames)
      && (room.players == [] || forall p :: p in room.players ==> usernames[p].Some?)
  {
    var names := PlayerNames(room.players, usernames);
    if names.Ok? && room.players != [] {
      assert None in names.value <==> exists p :: p in room.players && usernames[p] == None by {
        forall p | p in room.players && usernames[p] == None
          ensures None in names.value
        {
          var i :| 0 <= i < |room.players| && room.players[i] == p;
          assert names.value[i] == None;
        }
      }
    }
  }

  /**
   * The ROOM_LIST rows for the rooms in insertion order, or the error the
   * first failing room raises.
   */
  function Listing(rooms: map<RoomId, Room>, order: seq<RoomId>, usernames: map<ClientId, Option<string>>): (r: Result<seq<RoomSummary>>)
    requires forall id :: id in order ==> id in rooms
    ensures r.Ok? ==> |r.value| == |order|
  {
    if order == [] then Ok([])
    else
      var last := |order| - 1;
      var front := Listing(rooms, order[..last], usernames);
      if front.Fail? then front
      else
        var row := Summary(order[last], rooms[order[last]], usernames);
        if row.Fail? then Fail(row.error) else Ok(front.value + [row.value])
  }

  /**
   * The listing is built exactly when every room's row is, and then its rows
   * are the rooms' rows in insertion order.
   */
  lemma {:induction false} ListingRowByRow(rooms: map<RoomId, Room>, order: seq<RoomId>, usernames: map<ClientId, Option<string>>)
    requires forall id :: id in order ==> id in rooms
    ensures var r := Listing(rooms, order, usernames);
      && (r.Ok? <==> forall i :: 0 <= i < |order| ==> Summary(order[i], rooms[order[i]], usernames).Ok?)
      && (r.Ok? ==> forall i :: 0 <= i < |order| ==> Summary(order[i], rooms[order[i]], usernames) == Ok(r.value[i]))
  {
    if order != [] {
      var last := |order| - 1;
      var front := order[..last];
      ListingRowByRow(rooms, front, usernames);
      assert forall i :: 0 <= i < last ==> front[i] == order[i];
    }
  }

  /**
   * `send_room_list(client_id)`: build the rows room by room, then send one
   * ROOM_LIST; a room that raises ends the handler before anything is sent.
   */
  method SendRoomList(to: ClientId, rooms: map<RoomId, Room>, order: seq<RoomId>, usernames: map<ClientId, Option<string>>, out: Outbox)
    returns (c: Completion)
    requires forall id :: id in order ==> id in rooms
    modifies out
    ensures var l := Listing(rooms, order, usernames);
      && (l.Ok? ==> c == Returned && out.events == old(out.events) + [Event(to, RoomList(l.value))])
      && (l.Fail? ==> c == Raised(l.error) && out.events == old(out.events))
  {
    var rows := [];
    var i := 0;
    while i < |order|
      invariant 0 <= i <= |order|
      invariant Listing(rooms, order[..i], usernames) == Ok(rows)
    {
      assert order[..i + 1][..i] == order[..i];
      var row := Summary(order[i], rooms[order[i]], usernames);
      if row.Fail? {
        ListingFailsOnce(rooms, order, usernames, i + 1);
        return Raised(row.error);
      }
      rows := rows + [row.value];
      i := i + 1;
    }
    assert order[..i] == order;
    out.Send(to, RoomList(rows));
    return Returned;
  }

  /** Once a prefix of the rooms fails, the whole listing fails with the same error. */
  lemma {:induction false} ListingFailsOnce(rooms: map<RoomId, Room>, order: seq<RoomId>, usernames: map<ClientId, Option<string>>, k: nat)
    requires forall id :: id in order ==> id in rooms
    requires k <= |order| && Listing(rooms, order[..k], usernames).Fail?
    ensures Listing(rooms, order, usernames) == Listing(rooms, order[..k], usernames)
    decreases |order| - k
  {
    if k < |order| {
      assert order[..k + 1][..k] == order[..k];
      ListingFailsOnce(rooms, order, usernames, k + 1);
    } else {
      assert order[..k] == order;
    }
  }
}
