/**
 * The earlier login check (Int-PracExc6 database/LoginConnection.java): the
 * same ladder as `LoginAccess` with the older numbering (no DRIVER_ERROR), and
 * the class itself keeps the most recent SQL exception in its `recent` field.
 *
 * Each query's outcome is an input `Reply`: the connection gives no statement,
 * executing or reading the query throws (the exception is named by its
 * message), or it yields a row or none.
 */
module LoginAccessLegacy {
  import opened JavaLang

  const SQL_ERROR := 0
  const INVALID_USERNAME := 1
  const INVALID_PASSWORD := 2
  const NOT_ENABLED := 3
  const ACCESS_USER := 4
  const ACCESS_ADMIN := 5

  /** The status codes, in increasing order. */
  const STATUS_CODES := [SQL_ERROR, INVALID_USERNAME, INVALID_PASSWORD, NOT_ENABLED, ACCESS_USER, ACCESS_ADMIN]

  /** The six codes are 0..5 in that order, so they are distinct. */
  lemma StatusCodesAreDistinct()
    ensures forall i :: 0 <= i < |STATUS_CODES| ==> STATUS_CODES[i] == i
  {
  }

  const ADMIN_LEVEL := 2

  datatype UserRow = UserRow(password: string, enabled: int, level: int)

  datatype Reply = NoStatement | Throws(error: string) | NoRow | Found(row: UserRow)

  datatype Server = Server(existsReply: Reply, passwordReply: Reply, statusReply: Reply)

  /** `recent` after one query: untouched when no statement was made, the exception when it threw, null otherwise. */
  function RecentAfter(reply: Reply, before: Option<string>): (r: Option<string>)
    ensures reply.Throws? ==> r == Some(reply.error)
    ensures reply.NoRow? || reply.Found? ==> r.None?
  {
    match reply
    case NoStatement => before
    case Throws(e) => Some(e)
    case _ => None
  }

  predicate UserExistsOn(conn: Option<Server>) {
    conn.Some? && conn.value.existsReply.Found?
  }

  /** passwordMatches(connection), for the password `given`. */
  predicate PasswordMatchesOn(conn: Option<Server>, given: string) {
    UserExistsOn(conn) && conn.value.passwordReply.Found? && conn.value.passwordReply.row.password == given
  }

  predicate ReadsPassword(conn: Option<Server>) {
    UserExistsOn(conn) && conn.value.passwordReply.Found?
  }

  /** `recent` after userExists(connection). */
  function RecentAfterExists(conn: Option<Server>, before: Option<string>): Option<string> {
    if conn.None? then before else RecentAfter(conn.value.existsReply, before)
  }

  /** `recent` after passwordMatches(connection). */
  function RecentAfterPassword(conn: Option<Server>, before: Option<string>): Option<string> {
    if !UserExistsOn(conn) then RecentAfterExists(conn, before)
    else RecentAfter(conn.value.passwordReply, RecentAfterExists(conn, before))
  }

  function RowStatus(row: UserRow): int {
    if row.enabled != 1 then NOT_ENABLED
    else if row.level < ADMIN_LEVEL then ACCESS_USER
    else ACCESS_ADMIN
  }

  /** getAccountStatus(connection), for the password `given`. */
  function StatusOn(conn: Option<Server>, given: string): (r: int)
    ensures SQL_ERROR <= r <= ACCESS_ADMIN
  {
    if !UserExistsOn(conn) then INVALID_USERNAME
    else if !PasswordMatchesOn(conn, given) then INVALID_PASSWORD
    else match conn.value.statusReply
      case NoStatement => SQL_ERROR
      case Throws(_) => SQL_ERROR
      case NoRow => INVALID_USERNAME
      case Found(row) => RowStatus(row)
  }

  /** `recent` after getAccountStatus(connection). */
  function RecentAfterStatus(conn: Option<Server>, given: string, before: Option<string>): Option<string> {
    if !UserExistsOn(conn) then RecentAfterExists(conn, before)
    else
      // passwordMatches runs userExists again: the second run records what the first did
      var second := RecentAfterPassword(conn, RecentAfterExists(conn, before));
      if !PasswordMatchesOn(conn, given) then second
      else RecentAfter(conn.value.statusReply, second)
  }

  /**
   * When access is granted, no exception is recorded, and an SQL_ERROR with
   * no recorded exception can only come from a connection that gave no statement.
   */
  lemma RecentReflectsLastQuery(conn: Option<Server>, given: string, before: Option<string>)
    ensures StatusOn(conn, given) in {NOT_ENABLED, ACCESS_USER, ACCESS_ADMIN} ==>
      RecentAfterStatus(conn, given, before).None?
    ensures StatusOn(conn, given) == SQL_ERROR ==>
      (RecentAfterStatus(conn, given, before).None? <==> conn.value.statusReply.NoStatement?)
    ensures StatusOn(conn, given) == SQL_ERROR && conn.value.statusReply.Throws? ==>
      RecentAfterStatus(conn, given, before) == Some(conn.value.statusReply.error)
  {
  }

  /** The user name is checked before the password, and access needs the matching password. */
  lemma UsernameCheckedBeforePassword(conn: Option<Server>, given: string)
    ensures !UserExistsOn(conn) ==> StatusOn(conn, given) == INVALID_USERNAME
    ensures UserExistsOn(conn) && !PasswordMatchesOn(conn, given) ==> StatusOn(conn, given) == INVALID_PASSWORD
    ensures StatusOn(conn, given) in {ACCESS_USER, ACCESS_ADMIN} ==> PasswordMatchesOn(conn, given)
  {
  }

  class LoginConnection {
    var username: Option<string>
    var password: Option<string>
    /** The exception of the most recent failed query, or null after one that succeeded. */
    var recent: Option<string>

    constructor (username: Option<string>, password: Option<string>)
      ensures this.username == username && this.password == password && recent.None?
    {
      this.username := username;
      this.password := password;
      recent := None;
    }

    method GetUsername() returns (r: string)
      modifies this
      ensures r == OrEmpty(old(username)) && username == Some(r)
      ensures password == old(password) && recent == old(recent)
    {
      username := Some(OrEmpty(username));
      r := username.value;
    }

    method GetPassword() returns (r: string)
      modifies this
      ensures r == OrEmpty(old(password)) && password == Some(r)
      ensures username == old(username) && recent == old(recent)
    {
      password := Some(OrEmpty(password));
      r := password.value;
    }

    method GetRecentError() returns (e: Option<string>)
      ensures e == recent
    {
      e := recent;
    }

    /** userExists(connection). */
    method UserExists(conn: Option<Server>) returns (b: bool)
      modifies this
      ensures b == UserExistsOn(conn)
      ensures recent == RecentAfterExists(conn, old(recent))
      ensures username == (if conn.Some? then Some(OrEmpty(old(username))) else old(username))
      ensures password == old(password)
    {
      if conn.None? {
        return false;
      }
      var _ := GetUsername();
      match conn.value.existsReply
      case NoStatement =>
        return false;
      case Throws(e) =>
        recent := Some(e);
        return false;
      case NoRow =>
        recent := None;
        return false;
      case Found(_) =>
        recent := None;
        return true;
    }

    /** passwordMatches(connection). */
    method PasswordMatches(conn: Option<Server>) returns (b: bool)
      modifies this
      ensures b == PasswordMatchesOn(conn, OrEmpty(old(password)))
      ensures recent == RecentAfterPassword(conn, old(recent))
      ensures username == (if conn.Some? then Some(OrEmpty(old(username))) else old(username))
      ensures password == (if ReadsPassword(conn) then Some(OrEmpty(old(password))) else old(password))
    {
      if conn.None? {
        return false;
      }
      var known := UserExists(conn);
      if !known {
        return false;
      }
      var _ := GetUsername();
      match conn.value.passwordReply
      case NoStatement =>
        return false;
      case Throws(e) =>
        recent := Some(e);
        return false;
      case NoRow =>
        recent := None;
        return false;
      case Found(row) =>
        var given := GetPassword();
        recent := None;
        return row.password == given;
    }

    /** getAccountStatus(connection). */
    method AccountStatus(conn: Option<Server>) returns (code: int)
      modifies this
      ensures code == StatusOn(conn, OrEmpty(old(password)))
      ensures recent == RecentAfterStatus(conn, OrEmpty(old(password)), old(recent))
      ensures username == (if conn.Some? then Some(OrEmpty(old(username))) else old(username))
      ensures password == (if ReadsPassword(conn) then Some(OrEmpty(old(password))) else old(password))
    {
      var known := UserExists(conn);
      if !known {
        return INVALID_USERNAME;
      }
      var matches := PasswordMatches(conn);
      if !matches {
        return INVALID_PASSWORD;
      }
      var _ := GetUsername();
      match conn.value.statusReply
      case NoStatement =>
        return SQL_ERROR;
      case Throws(e) =>
        recent := Some(e);
        return SQL_ERROR;
      case NoRow =>
        recent := None;
        return INVALID_USERNAME;
      case Found(row) =>
        recent := None;
        if row.enabled != 1 {
          return NOT_ENABLED;
        } else if row.level < ADMIN_LEVEL {
          return ACCESS_USER;
        } else {
          return ACCESS_ADMIN;
        }
    }

    /** getAccountStatus(): SQL_ERROR when the connection cannot be opened. */
    method AccountStatusFresh(connected: bool, server: Server) returns (code: int)
      modifies this
      ensures !connected ==> code == SQL_ERROR && recent == old(recent)
      ensures connected ==> code == StatusOn(Some(server), OrEmpty(old(password)))
      ensures connected ==> recent == RecentAfterStatus(Some(server), OrEmpty(old(password)), old(recent))
      ensures username == (if connected then Some(OrEmpty(old(username))) else old(username))
      ensures password == (if connected && ReadsPassword(Some(server)) then Some(OrEmpty(old(password))) else old(password))
    {
      if !connected {
        return SQL_ERROR;
      }
      code := AccountStatus(Some(server));
    }
  }
}
