/**
 * `UserManager`: the table of connected clients, kept in insertion order as
 * Python's dict keeps it, with login (authenticate, else register), profile
 * edits and the online-players list. The database is the `ProfileStore`
 * oracle; sends go to the `Outbox`. Closing a socket is not modelled.
 */
module Users {
  import opened Common
  import opened Protocol
  import opened Store
  import opened RoomTable

  /** A client entry: its socket and its `username`, `user_id` and `room_id` fields. */
  datatype Client = Client(socket: SocketId, username: Option<string>, userId: Option<int>, roomId: Option<RoomId>)

  /** The table after `client['room_id'] = room_id` on the entry of id, when there is one. */
  function WithRoom(clients: map<ClientId, Client>, id: ClientId, roomId: Option<RoomId>): (r: map<ClientId, Client>)
    ensures r.Keys == clients.Keys
    ensures id in clients ==> r[id] == clients[id].(roomId := roomId)
    ensures forall c :: c in clients && c != id ==> r[c] == clients[c]
  {
    if id in clients then clients[id := clients[id].(roomId := roomId)] else clients
  }

  /** `clients[p]['username']` for every entry. */
  function Usernames(clients: map<ClientId, Client>): (u: map<ClientId, Option<string>>)
    ensures u.Keys == clients.Keys
    ensures forall c :: c in u ==> u[c] == clients[c].username
  {
    map c | c in clients :: clients[c].username
  }

  /** The ids, in table order, whose entry has a non-empty username: the logged-in clients. */
  function LoggedIn(order: seq<ClientId>, clients: map<ClientId, Client>): (r: seq<ClientId>)
    requires forall c :: c in order ==> c in clients
  {
    if order == [] then []
    else
      var last := |order| - 1;
      var front := LoggedIn(order[..last], clients);
      if Truthy(clients[order[last]].username) then front + [order[last]] else front
  }

  /** The logged-in list holds exactly the ids in the table order whose username is non-empty. */
  lemma {:induction false} LoggedInMembers(order: seq<ClientId>, clients: map<ClientId, Client>)
    requires forall c :: c in order ==> c in clients
    ensures forall c :: c in LoggedIn(order, clients) <==> c in order && Truthy(clients[c].username)
  {
    if order != [] {
      var last := |order| - 1;
      LoggedInMembers(order[..last], clients);
      assert forall c :: c in order <==> c in order[..last] || c == order[last];
    }
  }

  /** Extending the table by one id extends the logged-in list by that id exactly when it is logged in. */
  lemma LoggedInSnoc(order: seq<ClientId>, clients: map<ClientId, Client>, i: nat)
    requires forall c :: c in order ==> c in clients
    requires i < |order|
    ensures Truthy(clients[order[i]].username) ==> LoggedIn(order[..i + 1], clients) == LoggedIn(order[..i], clients) + [order[i]]
    ensures !Truthy(clients[order[i]].username) ==> LoggedIn(order[..i + 1], clients) == LoggedIn(order[..i], clients)
  {
    assert order[..i + 1][..i] == order[..i];
  }

  /** One more client in the table adds its event to a fan-out exactly when it is logged in. */
  lemma FanoutStep(order: seq<ClientId>, clients: map<ClientId, Client>, i: nat, msg: Message)
    requires forall c :: c in order ==> c in clients
    requires i < |order|
    ensures Fanout(LoggedIn(order[..i + 1], clients), msg) ==
      Fanout(LoggedIn(order[..i], clients), msg) + (if Truthy(clients[order[i]].username) then [Event(order[i], msg)] else [])
  {
    LoggedInSnoc(order, clients, i);
    FanoutSnoc(LoggedIn(order[..i], clients), order[i], msg);
  }

  /** A duplicate-free table order gives each logged-in client one place in the list. */
  lemma {:induction false} LoggedInDistinct(order: seq<ClientId>, clients: map<ClientId, Client>)
    requires forall c :: c in order ==> c in clients
    requires Distinct(order)
    ensures Distinct(LoggedIn(order, clients))
  {
    if order != [] {
      var last := |order| - 1;
      LoggedInDistinct(order[..last], clients);
      LoggedInMembers(order[..last], clients);
      assert order[last] !in order[..last];
    }
  }

  /** One event per recipient, in order, each carrying msg. */
  function Fanout(to: seq<ClientId>, msg: Message): seq<Event> {
    if to == [] then [] else [Event(to[0], msg)] + Fanout(to[1..], msg)
  }

  /** Sending to one more recipient appends one event. */
  lemma {:induction false} FanoutSnoc(to: seq<ClientId>, x: ClientId, msg: Message)
    ensures Fanout(to + [x], msg) == Fanout(to, msg) + [Event(x, msg)]
  {
    if to != [] {
      assert (to + [x])[1..] == to[1..] + [x];
      FanoutSnoc(to[1..], x, msg);
    }
  }

  /**
   * A logged-in client's ONLINE_PLAYERS row: the display name is the stored
   * one when the database has a row for the user id, else the username.
   */
  function OnlineEntry(c: Client, info: Option<UserInfo>): (p: OnlinePlayer)
    requires c.username.Some?
    ensures p.username == c.username.value && p.userId == c.userId
    ensures info.None? ==> p.displayName == c.username
    ensures info.Some? ==> p.displayName == info.value.displayName
  {
    OnlinePlayer(c.username.value, if info.Some? then info.value.displayName else c.username, c.userId)
  }

  /** `get_online_players()` over the entries in `order`, asking the database as its log stands. */
  function OnlineRows(order: seq<ClientId>, clients: map<ClientId, Client>, answers: Oracle, log: seq<StoreCall>): (rows: seq<OnlinePlayer>)
    requires forall c :: c in order ==> c in clients
  {
    if order == [] then []
    else
      var last := |order| - 1;
      var front := OnlineRows(order[..last], clients, answers, log);
      var c := clients[order[last]];
      if Truthy(c.username) then front + [OnlineEntry(c, answers.userInfo(log, c.userId))] else front
  }

  /**
   * The online list has one row per logged-in client, in table order, built
   * from that client's entry.
   */
  lemma {:induction false} OnlineRowsFollowLoggedIn(order: seq<ClientId>, clients: map<ClientId, Client>, answers: Oracle, log: seq<StoreCall>)
    requires forall c :: c in order ==> c in clients
    ensures var ids := LoggedIn(order, clients); var rows := OnlineRows(order, clients, answers, log);
      && |rows| == |ids|
      && forall i :: 0 <= i < |ids| ==>
           && ids[i] in clients && clients[ids[i]].username.Some?
           && rows[i] == OnlineEntry(clients[ids[i]], answers.userInfo(log, clients[ids[i]].userId))
  {
    if order != [] {
      OnlineRowsFollowLoggedIn(order[..|order| - 1], clients, answers, log);
    }
  }

  /** What the database decided about a login. */
  datatype LoginDecision =
    | Welcome(account: UserRecord)  // authenticate_user accepted the password
    | Created(userId: int)          // authentication failed, register_user created the account
    | Refused                       // both failed

  /** `handle_login`'s two database calls: authenticate first, register only if that fails. */
  function Decide(answers: Oracle, log: seq<StoreCall>, username: Option<string>, password: Option<string>): (d: LoginDecision)
    ensures d.Welcome? <==> answers.authenticate(log, username, password).Some?
    ensures d.Welcome? ==> d.account == answers.authenticate(log, username, password).value
    ensures d.Created? ==> Some(d.userId) == answers.register(log + [StoreCall.Authenticate(username, password)], username, password)
    ensures d.Refused? <==> !d.Welcome? && answers.register(log + [StoreCall.Authenticate(username, password)], username, password).None?
  {
    var auth := answers.authenticate(log, username, password);
    if auth.Some? then Welcome(auth.value)
    else
      var reg := answers.register(log + [StoreCall.Authenticate(username, password)], username, password);
      if reg.Some? then Created(reg.value) else Refused
  }

  /** The calls a login logs: register is tried only after a failed authentication. */
  function LoginCalls(d: LoginDecision, username: Option<string>, password: Option<string>): seq<StoreCall> {
    if d.Welcome? then [StoreCall.Authenticate(username, password)]
    else [StoreCall.Authenticate(username, password), StoreCall.Register(username, password)]
  }

  /** The LOGIN_SUCCESS text for a returning user. */
  function WelcomeText(account: UserRecord): string {
    "Welcome back, " + account.username + "! (Score: " + IntToString(account.score) + ")"
  }

  /**
   * What follows LOGIN_SUCCESS: the room list to the new user, then the
   * online-players list to every logged-in client; a room list that raises
   * stops the handler before the broadcast.
   */
  function AfterLogin(id: ClientId, rooms: map<RoomId, Room>, roomOrder: seq<RoomId>, clients: map<ClientId, Client>,
                      order: seq<ClientId>, answers: Oracle, log: seq<StoreCall>): (Completion, seq<Event>)
    requires forall r :: r in roomOrder ==> r in rooms
    requires forall c :: c in order ==> c in clients
  {
    var listing := Listing(rooms, roomOrder, Usernames(clients));
    if listing.Fail? then (Raised(listing.error), [])
    else (Returned, [Event(id, RoomList(listing.value))]
                    + Fanout(LoggedIn(order, clients), OnlinePlayers(OnlineRows(order, clients, answers, log))))
  }

  const LoginFailedText: string := "Login Failed: Wrong password or Username taken."

  /** What a login does to the client table, the database log and the outbox, and how it ends. */
  datatype LoginEffect = LoginEffect(clients: map<ClientId, Client>, calls: seq<StoreCall>, sent: seq<Event>, completion: Completion)

  /**
   * The first part of `handle_login`: the database decides; a refusal sends
   * one ERROR; otherwise the entry caches the username (the account's on
   * authentication, the message's on registration) and the user id, and
   * LOGIN_SUCCESS goes out, with the stored display name when the returning
   * user has one. With no entry for the client the success path raises
   * TypeError after the database calls.
   */
  function Admit(answers: Oracle, log: seq<StoreCall>, clients: map<ClientId, Client>,
                 id: ClientId, username: Option<string>, password: Option<string>): LoginEffect
  {
    var d := Decide(answers, log, username, password);
    var calls := log + LoginCalls(d, username, password);
    if d.Refused? then LoginEffect(clients, calls, [Event(id, Error(LoginFailedText))], Returned)
    else if id !in clients then LoginEffect(clients, calls, [], Raised(TypeError))
    else
      var name := if d.Welcome? then Some(d.account.username) else username;
      var uid := if d.Welcome? then d.account.id else d.userId;
      var greeting :=
        if d.Welcome? then
          var info := answers.userInfo(calls, Some(uid));
          LoginSuccess(WelcomeText(d.account), if info.Some? then info.value.displayName else name)
        else LoginSuccess("Account created & Logged in!", username);
      LoginEffect(clients[id := clients[id].(username := name, userId := Some(uid))], calls, [Event(id, greeting)], Returned)
  }

  /** `handle_login` as a function of the state before it: `Admit`, then, for an admitted client, `AfterLogin`. */
  function Login(answers: Oracle, log: seq<StoreCall>, clients: map<ClientId, Client>, order: seq<ClientId>,
                 rooms: map<RoomId, Room>, roomOrder: seq<RoomId>,
                 id: ClientId, username: Option<string>, password: Option<string>): LoginEffect
    requires forall r :: r in roomOrder ==> r in rooms
    requires forall c :: c in order ==> c in clients
  {
    var a := Admit(answers, log, clients, id, username, password);
    if Decide(answers, log, username, password).Refused? || id !in clients then a
    else
      var after := AfterLogin(id, rooms, roomOrder, a.clients, order, answers, a.calls);
      a.(sent := a.sent + after.1, completion := after.0)
  }

  /**
   * A login is refused exactly when its only message is the "Login Failed"
   * ERROR, and a refused login leaves the table as it was; registration is
   * tried exactly when authentication failed.
   */
  lemma LoginRefusalChangesNothing(answers: Oracle, log: seq<StoreCall>, clients: map<ClientId, Client>, order: seq<ClientId>,
                                   rooms: map<RoomId, Room>, roomOrder: seq<RoomId>,
                                   id: ClientId, username: Option<string>, password: Option<string>)
    requires forall r :: r in roomOrder ==> r in rooms
    requires forall c :: c in order ==> c in clients
    ensures var e := Login(answers, log, clients, order, rooms, roomOrder, id, username, password);
      && (StoreCall.Register(username, password) in e.calls[|log|..] <==> answers.authenticate(log, username, password).None?)
      && (Decide(answers, log, username, password).Refused? <==> e.sent == [Event(id, Error(LoginFailedText))])
      && (Decide(answers, log, username, password).Refused? ==> e.clients == clients)
  {
    var e := Login(answers, log, clients, order, rooms, roomOrder, id, username, password);
    assert e.calls[|log|..] == LoginCalls(Decide(answers, log, username, password), username, password);
    if !Decide(answers, log, username, password).Refused? && id in clients {
      assert e.sent[0].msg.LoginSuccess?;
    }
  }

  /**
   * An accepted login changes only the client's own entry, and only its
   * username and user id: the account's on authentication, the message's
   * username and the new id on registration. Once that username is non-empty
   * the client is among the logged-in clients that receive the online-players
   * broadcast.
   */
  lemma LoginCachesAccount(answers: Oracle, log: seq<StoreCall>, clients: map<ClientId, Client>, order: seq<ClientId>,
                           rooms: map<RoomId, Room>, roomOrder: seq<RoomId>,
                           id: ClientId, username: Option<string>, password: Option<string>)
    requires forall r :: r in roomOrder ==> r in rooms
    requires forall c :: c in order ==> c in clients
    requires id in order
    requires !Decide(answers, log, username, password).Refused?
    ensures var e := Login(answers, log, clients, order, rooms, roomOrder, id, username, password);
      && e.clients.Keys == clients.Keys
      && (forall c :: c in clients && c != id ==> e.clients[c] == clients[c])
      && e.clients[id].socket == clients[id].socket && e.clients[id].roomId == clients[id].roomId
      && (var d := Decide(answers, log, username, password);
          && (d.Welcome? ==> e.clients[id].username == Some(d.account.username) && e.clients[id].userId == Some(d.account.id))
          && (d.Created? ==> e.clients[id].username == username && e.clients[id].userId == Some(d.userId)))
      && (Truthy(e.clients[id].username) ==> id in LoggedIn(order, e.clients))
  {
    var e := Login(answers, log, clients, order, rooms, roomOrder, id, username, password);
    LoggedInMembers(order, e.clients);
  }

  const EmptyNameText: string := "Display name không được để trống"
  const NeedOldPasswordText: string := "Nhập mật khẩu cũ để đổi mật khẩu mới"
  const WrongOldPasswordText: string := "Mật khẩu cũ không đúng"
  const ProfileSavedText: string := "Cập nhật hồ sơ thành công!"
  const ProfileFailedText: string := "Cập nhật thất bại"

  /**
   * The checks of `handle_edit_profile` that need no database, on the
   * stripped fields: the error they send, if any.
   */
  function EditPrecheck(displayName: string, oldPassword: string, newPassword: string): (e: Option<string>)
    ensures e == Some(EmptyNameText) <==> displayName == ""
    ensures e == Some(NeedOldPasswordText) <==> displayName != "" && newPassword != "" && oldPassword == ""
    ensures e == None <==> displayName != "" && (newPassword == "" || oldPassword != "")
  {
    if displayName == "" then Some(EmptyNameText)
    else if newPassword != "" && oldPassword == "" then Some(NeedOldPasswordText)
    else None
  }

  /** What a profile edit does: the database log afterwards, the one reply, and whether the online list is broadcast. */
  datatype EditEffect = EditEffect(calls: seq<StoreCall>, reply: Message, broadcast: bool)

  /**
   * `handle_edit_profile` for a known client, as a function of the database
   * log before it, on the stripped fields.
   */
  function Edit(answers: Oracle, log: seq<StoreCall>, entry: Client, displayName: string, oldPassword: string, newPassword: string): EditEffect {
    var (dn, op, np) := (Strip(displayName), Strip(oldPassword), Strip(newPassword));
    var check := EditPrecheck(dn, op, np);
    if check.Some? then EditEffect(log, Error(check.value), false)
    else
      var checked := if np != "" then log + [StoreCall.Authenticate(entry.username, Some(op))] else log;
      if np != "" && answers.authenticate(log, entry.username, Some(op)).None? then
        EditEffect(checked, Error(WrongOldPasswordText), false)
      else
        var newPassword := if np != "" then Some(np) else None;
        var ok := answers.updateProfile(checked, entry.userId, dn, newPassword);
        EditEffect(checked + [StoreCall.UpdateProfile(entry.userId, dn, newPassword)],
                   if ok then ProfileUpdated(ProfileSavedText) else Error(ProfileFailedText), ok)
  }

  /** An empty display name is refused before any database call. */
  lemma EditRefusesEmptyName(answers: Oracle, log: seq<StoreCall>, entry: Client, displayName: string, oldPassword: string, newPassword: string)
    requires forall k :: 0 <= k < |displayName| ==> IsSpace(displayName[k])
    ensures Edit(answers, log, entry, displayName, oldPassword, newPassword) == EditEffect(log, Error(EmptyNameText), false)
  {
    StripEmptyIffBlank(displayName);
  }

  /**
   * The profile is updated at most once, as the last call; it carries a new
   * password only when one was given, and then only after the old password
   * was checked and accepted; with no new password it passes None and makes
   * no password check.
   */
  lemma EditChecksOldPassword(answers: Oracle, log: seq<StoreCall>, entry: Client, displayName: string, oldPassword: string, newPassword: string)
    ensures var e := Edit(answers, log, entry, displayName, oldPassword, newPassword);
      && |log| <= |e.calls| <= |log| + 2 && e.calls[..|log|] == log
      && (e.broadcast ==> e.reply == ProfileUpdated(ProfileSavedText))
      && (|e.calls| > |log| && e.calls[|e.calls| - 1].UpdateProfile? ==>
            var update := e.calls[|e.calls| - 1];
            && update.displayName == Strip(displayName) != ""
            && (update.newPassword.None? <==> Strip(newPassword) == "")
            && (update.newPassword.Some? ==>
                  && update.newPassword.value == Strip(newPassword)
                  && e.calls == log + [StoreCall.Authenticate(entry.username, Some(Strip(oldPassword))), update]
                  && answers.authenticate(log, entry.username, Some(Strip(oldPassword))).Some?)
            && (update.newPassword.None? ==> e.calls == log + [update]))
  {
  }

  class UserManager {
    const db: ProfileStore
    var clients: map<ClientId, Client>
    var order: seq<ClientId>

    /** `order` lists every key of `clients` once, in insertion order. */
    ghost predicate Valid()
      reads this
    {
      Distinct(order) && forall c :: c in order <==> c in clients
    }

    /** `UserManager(db)`: no clients. */
    constructor (db: ProfileStore)
      ensures Valid() && this.db == db && clients == map[] && order == []
    {
      this.db := db;
      clients := map[];
      order := [];
    }

    /**
     * `add_client(client_id, socket)`: a fresh entry with no username, user id
     * or room; a known id keeps its place in the table.
     */
    method AddClient(id: ClientId, socket: SocketId)
      requires Valid()
      modifies this
      ensures Valid()
      ensures clients == old(clients)[id := Client(socket, None, None, None)]
      ensures order == if id in old(clients) then old(order) else old(order) + [id]
    {
      if id !in clients {
        order := order + [id];
      }
      clients := clients[id := Client(socket, None, None, None)];
    }

    /** `get_client(client_id)`: the entry, or None. */
    function GetClient(id: ClientId): (r: Option<Client>)
      reads this
      ensures r.Some? <==> id in clients
      ensures r.Some? ==> r.value == clients[id]
    {
      if id in clients then Some(clients[id]) else None
    }

    /** `remove_client(client_id)`: drop the entry if there is one. */
    method RemoveClient(id: ClientId)
      requires Valid()
      modifies this
      ensures Valid()
      ensures clients == old(clients) - {id}
      ensures order == RemoveFirst(old(order), id)
    {
      RemoveFirstDistinct<ClientId>(order, id);
      if id in clients {
        clients := clients - {id};
      }
      order := RemoveFirst<ClientId>(order, id);
      assert forall c :: c in order <==> c in clients;
    }

    /** `client['room_id'] = room_id` on the entry, when there is one. */
    method SetRoom(id: ClientId, roomId: Option<RoomId>)
      requires Valid()
      modifies this
      ensures Valid() && order == old(order)
      ensures clients == WithRoom(old(clients), id, roomId)
    {
      if id in clients {
        clients := clients[id := clients[id].(roomId := roomId)];
      }
    }

    /** `get_online_players()`: a row for each logged-in client, in table order. */
    method GetOnlinePlayers() returns (rows: seq<OnlinePlayer>)
      requires Valid()
      ensures rows == OnlineRows(order, clients, db.answers, db.calls)
    {
      rows := [];
      var i := 0;
      while i < |order|
        invariant 0 <= i <= |order|
        invariant rows == OnlineRows(order[..i], clients, db.answers, db.calls)
      {
        assert order[..i + 1][..i] == order[..i];
        var c := clients[order[i]];
        if Truthy(c.username) {
          var info := db.GetUserInfo(c.userId);
          var display := if info.Some? then info.value.displayName else c.username;
          rows := rows + [OnlinePlayer(c.username.value, display, c.userId)];
        }
        i := i + 1;
      }
      assert order[..i] == order;
    }

    /** `send_online_players(client_id)`: one ONLINE_PLAYERS message to that client. */
    method SendOnlinePlayers(to: ClientId, out: Outbox)
      requires Valid()
      modifies out
      ensures out.events == old(out.events) + [Event(to, OnlinePlayers(OnlineRows(order, clients, db.answers, db.calls)))]
    {
      var rows := GetOnlinePlayers();
      out.Send(to, OnlinePlayers(rows));
    }

    /** `broadcast_online_players()`: the same ONLINE_PLAYERS message to every logged-in client, in table order. */
    method BroadcastOnlinePlayers(out: Outbox)
      requires Valid()
      modifies out
      ensures out.events == old(out.events) + Fanout(LoggedIn(order, clients), OnlinePlayers(OnlineRows(order, clients, db.answers, db.calls)))
    {
      var rows := GetOnlinePlayers();
      var msg := OnlinePlayers(rows);
      var i := 0;
      while i < |order|
        invariant 0 <= i <= |order|
        invariant out.events == old(out.events) + Fanout(LoggedIn(order[..i], clients), msg)
      {
        LoggedInSnoc(order, clients, i);
        if Truthy(clients[order[i]].username) {
          ghost var sent := Fanout(LoggedIn(order[..i], clients), msg);
          FanoutSnoc(LoggedIn(order[..i], clients), order[i], msg);
          out.Send(order[i], msg);
          assert out.events == old(out.events) + (sent + [Event(order[i], msg)]);
        }
        i := i + 1;
      }
      assert order[..i] == order;
    }

    /** The sends that follow LOGIN_SUCCESS: the room list to the client, then the online-players broadcast. */
    method AnnounceLogin(id: ClientId, rooms: map<RoomId, Room>, roomOrder: seq<RoomId>, out: Outbox) returns (c: Completion)
      requires Valid() && forall r :: r in roomOrder ==> r in rooms
      modifies out
      ensures var after := AfterLogin(id, rooms, roomOrder, clients, order, db.answers, db.calls);
        c == after.0 && out.events == old(out.events) + after.1
    {
      c := SendRoomList(id, rooms, roomOrder, Usernames(clients), out);
      if c.Raised? {
        return;
      }
      ghost var mid := out.events;
      BroadcastOnlinePlayers(out);
      assert out.events == old(out.events) + (mid[|old(out.events)|..] + out.events[|mid|..]);
    }

    /** The first part of `handle_login`, as `Admit` describes it. */
    method SignIn(id: ClientId, username: Option<string>, password: Option<string>, out: Outbox) returns (admitted: bool, c: Completion)
      requires Valid()
      modifies this, db, out
      ensures Valid() && order == old(order)
      ensures admitted <==> !Decide(db.answers, old(db.calls), username, password).Refused? && id in old(clients)
      ensures var e := Admit(db.answers, old(db.calls), old(clients), id, username, password);
        && clients == e.clients && db.calls == e.calls
        && out.events == old(out.events) + e.sent && c == e.completion
    {
      var auth := db.Authenticate(username, password);
      if auth.Some? {
        if id !in clients {
          return false, Raised(TypeError);
        }
        var account := auth.value;
        clients := clients[id := clients[id].(username := Some(account.username), userId := Some(account.id))];
        var info := db.GetUserInfo(Some(account.id));
        var display := if info.Some? then info.value.displayName else Some(account.username);
        out.Send(id, LoginSuccess(WelcomeText(account), display));
      } else {
        var created := db.Register(username, password);
        if created.None? {
          out.SendError(id, LoginFailedText);
          return false, Returned;
        }
        if id !in clients {
          return false, Raised(TypeError);
        }
        clients := clients[id := clients[id].(username := username, userId := created)];
        out.Send(id, LoginSuccess("Account created & Logged in!", username));
      }
      return true, Returned;
    }

    /** `handle_login(client_id, message)`, as `Login` describes it. */
    method HandleLogin(id: ClientId, username: Option<string>, password: Option<string>,
                       rooms: map<RoomId, Room>, roomOrder: seq<RoomId>, out: Outbox) returns (c: Completion)
      requires Valid() && forall r :: r in roomOrder ==> r in rooms
      modifies this, db, out
      ensures Valid() && order == old(order)
      ensures var e := Login(db.answers, old(db.calls), old(clients), order, rooms, roomOrder, id, username, password);
        && clients == e.clients && db.calls == e.calls
        && out.events == old(out.events) + e.sent && c == e.completion
    {
      var admitted;
      admitted, c := SignIn(id, username, password, out);
      if !admitted {
        return;
      }
      ghost var mid := out.events;
      c := AnnounceLogin(id, rooms, roomOrder, out);
      assert out.events == old(out.events) + (mid[|old(out.events)|..] + out.events[|mid|..]);
    }

    /** `handle_edit_profile(client_id, message)`: ignored for an unknown client, otherwise as `Edit` describes it. */
    method HandleEditProfile(id: ClientId, displayName: string, oldPassword: string, newPassword: string, out: Outbox)
      requires Valid()
      modifies db, out
      ensures id !in clients ==> db.calls == old(db.calls) && out.events == old(out.events)
      ensures id in clients ==>
        var e := Edit(db.answers, old(db.calls), clients[id], displayName, oldPassword, newPassword);
        && db.calls == e.calls
        && out.events == old(out.events) + [Event(id, e.reply)]
             + if e.broadcast then Fanout(LoggedIn(order, clients), OnlinePlayers(OnlineRows(order, clients, db.answers, db.calls))) else []
    {
      if id !in clients {
        return;
      }
      var entry := clients[id];
      var dn, op, np := Strip(displayName), Strip(oldPassword), Strip(newPassword);
      if dn == "" {
        out.SendError(id, EmptyNameText);
        return;
      }
      if np != "" {
        if op == "" {
          out.SendError(id, NeedOldPasswordText);
          return;
        }
        var accepted := db.Authenticate(entry.username, Some(op));
        if accepted.None? {
          out.SendError(id, WrongOldPasswordText);
          return;
        }
      }
      var ok := db.UpdateProfile(entry.userId, dn, if np != "" then Some(np) else None);
      if ok {
        out.Send(id, ProfileUpdated(ProfileSavedText));
        BroadcastOnlinePlayers(out);
      } else {
        out.SendError(id, ProfileFailedText);
      }
    }
  }
}
