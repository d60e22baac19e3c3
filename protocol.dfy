/**
 * The messages the server sends to clients, and the outbox that stands for
 * `server.send_to_client`: every send is appended, in order, as an event.
 * Delivery (sockets, JSON encoding, a send to a client that has gone) is not
 * part of the model.
 */
module Protocol {
  import opened Common

  /** One row of a ROOM_LIST message. */
  datatype RoomSummary = RoomSummary(
    id: RoomId,
    count: nat,
    status: RoomStatus,
    players: seq<Option<string>>,
    matchText: string)

  /** One row of an ONLINE_PLAYERS message. */
  datatype OnlinePlayer = OnlinePlayer(username: string, displayName: Option<string>, userId: Option<int>)

  /** The message types the core sends, with the fields each carries (None is JSON null). */
  datatype Message =
    | LoginSuccess(text: string, displayName: Option<string>)
    | Error(text: string)
    | RoomCreated(roomId: RoomId, symbol: string)
    | RoomJoined(roomId: RoomId, players: seq<Option<string>>, playerSymbol: Option<string>)
    | RoomList(rooms: seq<RoomSummary>)
    | ViewMatchInfo(roomId: RoomId, players: seq<Option<string>>, status: RoomStatus)
    | OpponentMove(x: int, y: int, player: Option<string>)
    | GameOver(text: string, winner: Option<string>)
    | OpponentLeft(text: string)
    | ProfileUpdated(text: string)
    | OnlinePlayers(online: seq<OnlinePlayer>)

  /** `send_to_client(to, msg)`. */
  datatype Event = Event(to: ClientId, msg: Message)

  /** Everything sent so far, oldest first. */
  class Outbox {
    var events: seq<Event>

    constructor ()
      ensures events == []
    {
      events := [];
    }

    /** `server.send_to_client(to, msg)`. */
    method Send(to: ClientId, msg: Message)
      modifies this
      ensures events == old(events) + [Event(to, msg)]
    {
      events := events + [Event(to, msg)];
    }

    /** `server.send_error(to, text)`: an ERROR message. */
    method SendError(to: ClientId, text: string)
      modifies this
      ensures events == old(events) + [Event(to, Error(text))]
    {
      events := events + [Event(to, Error(text))];
    }
  }
}
