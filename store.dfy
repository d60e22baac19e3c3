/**
 * The user database as an abstract oracle. SQL storage, password hashing
 * and score arithmetic are not modelled: each answer is an arbitrary,
 * fixed function of the calls made so far and of the call's arguments, so
 * the model holds for every database behaviour. Calls that may change the
 * database, and the password checks, are logged in order; `get_user_info`
 * is a query on the current log.
 */
module Store {
  import opened Common

  /** A call the core made on the database. */
  datatype StoreCall =
    | Authenticate(username: Option<string>, password: Option<string>)
    | Register(username: Option<string>, password: Option<string>)
    | UpdateProfile(userId: Option<int>, displayName: string, newPassword: Option<string>)
    | UpdateScore(userId: Option<int>, change: int)

  /** The user row `authenticate_user` returns on success. */
  datatype UserRecord = UserRecord(id: int, username: string, score: int)

  /** The part of `get_user_info`'s row the core reads. */
  datatype UserInfo = UserInfo(displayName: Option<string>)

  /** How the database answers, given the log of earlier calls. */
  datatype Oracle = Oracle(
    authenticate: (seq<StoreCall>, Option<string>, Option<string>) -> Option<UserRecord>,
    register: (seq<StoreCall>, Option<string>, Option<string>) -> Option<int>,
    userInfo: (seq<StoreCall>, Option<int>) -> Option<UserInfo>,
    updateProfile: (seq<StoreCall>, Option<int>, string, Option<string>) -> bool,
    updateScore: (seq<StoreCall>, Option<int>, int) -> bool)

  class ProfileStore {
    const answers: Oracle
    var calls: seq<StoreCall>

    constructor (answers: Oracle)
      ensures this.answers == answers && calls == []
    {
      this.answers := answers;
      calls := [];
    }

    /** `authenticate_user(username, password)`: the user row, or None. */
    method Authenticate(username: Option<string>, password: Option<string>) returns (r: Option<UserRecord>)
      modifies this
      ensures calls == old(calls) + [StoreCall.Authenticate(username, password)]
      ensures r == answers.authenticate(old(calls), username, password)
    {
      r := answers.authenticate(calls, username, password);
      calls := calls + [StoreCall.Authenticate(username, password)];
    }

    /** `register_user(username, password)`: the new user id, or None. */
    method Register(username: Option<string>, password: Option<string>) returns (r: Option<int>)
      modifies this
      ensures calls == old(calls) + [StoreCall.Register(username, password)]
      ensures r == answers.register(old(calls), username, password)
    {
      r := answers.register(calls, username, password);
      calls := calls + [StoreCall.Register(username, password)];
    }

    /** `update_user_profile(user_id, display_name, new_password)`. */
    method UpdateProfile(userId: Option<int>, displayName: string, newPassword: Option<string>) returns (ok: bool)
      modifies this
      ensures calls == old(calls) + [StoreCall.UpdateProfile(userId, displayName, newPassword)]
      ensures ok == answers.updateProfile(old(calls), userId, displayName, newPassword)
    {
      ok := answers.updateProfile(calls, userId, displayName, newPassword);
      calls := calls + [StoreCall.UpdateProfile(userId, displayName, newPassword)];
    }

    /** `update_user_score(user_id, change)`. */
    method UpdateScore(userId: Option<int>, change: int) returns (ok: bool)
      modifies this
      ensures calls == old(calls) + [StoreCall.UpdateScore(userId, change)]
      ensures ok == answers.updateScore(old(calls), userId, change)
    {
      ok := answers.updateScore(calls, userId, change);
      calls := calls + [StoreCall.UpdateScore(userId, change)];
    }

    /** `get_user_info(user_id)`: the user's row as the database now stands, or None. */
    function GetUserInfo(userId: Option<int>): Option<UserInfo>
      reads this
    {
      answers.userInfo(calls, userId)
    }
  }
}
