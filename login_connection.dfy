/**
 * A login check against the users table (Int-PracExc7
 * database/LoginConnection.java, built on utils/ConnectionWrapper.java).
 *
 * The database is not modelled: each of the three queries the class issues
 * for the current user name (does the user exist, what is the password, is
 * the account enabled and at what level) is answered by a `Reply` given as
 * input. A `null` connection is `None`.
 */
module LoginAccess {
  import opened JavaLang

  const SQL_ERROR := 0
  const DRIVER_ERROR := 1
  const INVALID_USERNAME := 2
  const INVALID_PASSWORD := 3
  const NOT_ENABLED := 4
  const ACCESS_USER := 5
  const ACCESS_ADMIN := 6

  /** The status codes, in increasing order. */
  const STATUS_CODES := [SQL_ERROR, DRIVER_ERROR, INVALID_USERNAME, INVALID_PASSWORD, NOT_ENABLED, ACCESS_USER, ACCESS_ADMIN]

  /** The seven codes are 0..6 in that order, so they are distinct and ACCESS_ADMIN is the greatest. */
  lemma StatusCodesAreDistinct()
    ensures forall i :: 0 <= i < |STATUS_CODES| ==> STATUS_CODES[i] == i
    ensures forall i :: 0 <= i < |STATUS_CODES| ==> STATUS_CODES[i] <= ACCESS_ADMIN
  {
  }

  /** The lowest access level that grants administrator rights. */
  const ADMIN_LEVEL := 2

  /** The users-table row for the looked-up user name. */
  datatype UserRow = UserRow(password: string, enabled: int, level: int)

  /**
   * How one query turns out: ConnectionWrapper.query returns null either
   * without recording an error (the connection could not be opened) or after
   * recording one (no statement, or the query threw); reading the first row may
   * throw; otherwise there is a row or there is none.
   */
  datatype Reply = Unreachable | QueryFailed | ReadFailed | NoRow | Found(row: UserRow)

  /** The answers the database gives to the three queries about the current user name. */
  datatype Server = Server(existsReply: Reply, passwordReply: Reply, statusReply: Reply)

  /** userExists(connection). */
  predicate UserExistsOn(conn: Option<Server>) {
    conn.Some? && conn.value.existsReply.Found?
  }

  /** passwordMatches(connection), for the password `given`. */
  predicate PasswordMatchesOn(conn: Option<Server>, given: string) {
    UserExistsOn(conn) && conn.value.passwordReply.Found? && conn.value.passwordReply.row.password == given
  }

  /** Whether passwordMatches(connection) gets as far as reading the stored password (and so calls getPassword). */
  predicate ReadsPassword(conn: Option<Server>) {
    UserExistsOn(conn) && conn.value.passwordReply.Found?
  }

  /** The status an enabled-and-level row grants. */
  function RowStatus(row: UserRow): int {
    if row.enabled != 1 then NOT_ENABLED
    else if row.level < ADMIN_LEVEL then ACCESS_USER
    else ACCESS_ADMIN
  }

  /** getAccountStatus(connection), for the password `given`. */
  function StatusOn(conn: Option<Server>, given: string): (r: int)
    ensures SQL_ERROR <= r <= ACCESS_ADMIN
  {
    if !UserExistsOn(conn) then INVALID_USERNAME
    else if !PasswordMatchesOn(conn, given) then INVALID_PASSWORD
    else match conn.value.statusReply
      case Unreachable => DRIVER_ERROR
      case QueryFailed => SQL_ERROR
      case ReadFailed => SQL_ERROR
      case NoRow => INVALID_USERNAME
      case Found(row) => RowStatus(row)
  }

  /** getAccountStatus(): SQL_ERROR when the connection cannot be opened. */
  function Status(connected: bool, server: Server, given: string): (r: int)
    ensures !connected ==> r == SQL_ERROR
  {
    if connected then StatusOn(Some(server), given) else SQL_ERROR
  }

  /**
   * The user name is checked before the password: an unknown user is reported
   * as INVALID_USERNAME whatever password was given, and a known user with the
   * wrong password as INVALID_PASSWORD whatever the status query would answer.
   */
  lemma UsernameCheckedBeforePassword(conn: Option<Server>, given: string, other: string)
    ensures !UserExistsOn(conn) ==> StatusOn(conn, given) == StatusOn(conn, other) == INVALID_USERNAME
    ensures UserExistsOn(conn) && !PasswordMatchesOn(conn, given) ==> StatusOn(conn, given) == INVALID_PASSWORD
    ensures conn.None? ==> StatusOn(conn, given) == INVALID_USERNAME
  {
  }

  /**
   * Access is granted exactly when the user exists, the stored password equals
   * the given one, the status row is found and the account is enabled; the
   * administrator level additionally needs AccessLevel >= 2.
   */
  lemma AccessNeedsMatchingPassword(conn: Option<Server>, given: string)
    ensures StatusOn(conn, given) in {ACCESS_USER, ACCESS_ADMIN} <==>
      PasswordMatchesOn(conn, given) && conn.value.statusReply.Found? && conn.value.statusReply.row.enabled == 1
    ensures StatusOn(conn, given) == ACCESS_ADMIN <==>
      PasswordMatchesOn(conn, given) && conn.value.statusReply.Found? && conn.value.statusReply.row.enabled == 1
      && conn.value.statusReply.row.level >= ADMIN_LEVEL
  {
  }

  /** A status query that yields no result set reports SQL_ERROR when an error was recorded and DRIVER_ERROR otherwise. */
  lemma NoResultSetStatus(server: Server, given: string)
    requires PasswordMatchesOn(Some(server), given)
    ensures server.statusReply == QueryFailed ==> StatusOn(Some(server), given) == SQL_ERROR
    ensures server.statusReply == Unreachable ==> StatusOn(Some(server), given) == DRIVER_ERROR
    ensures server.statusReply == NoRow ==> StatusOn(Some(server), given) == INVALID_USERNAME
  {
  }

  class LoginConnection {
    var username: Option<string>
    var password: Option<string>

    /** The constructor stores its arguments as given, null included. */
    constructor (username: Option<string>, password: Option<string>)
      ensures this.username == username && this.password == password
    {
      this.username := username;
      this.password := password;
    }

    method SetUsername(u: Option<string>)
      modifies this
      ensures username == Some(OrEmpty(u)) && password == old(password)
    {
      username := Some(OrEmpty(u));
    }

    method SetPassword(p: Option<string>)
      modifies this
      ensures password == Some(OrEmpty(p)) && username == old(username)
    {
      password := Some(OrEmpty(p));
    }

    /** getUsername never returns null: a null name is stored back as "". */
    method GetUsername() returns (r: string)
      modifies this
      ensures r == OrEmpty(old(username)) && username == Some(r) && password == old(password)
    {
      SetUsername(username);
      r := username.value;
    }

    /** getPassword never returns null: a null password is stored back as "". */
    method GetPassword() returns (r: string)
      modifies this
      ensures r == OrEmpty(old(password)) && password == Some(r) && username == old(username)
    {
      SetPassword(password);
      r := password.value;
    }

    /** userExists(connection): false for a null connection; reads the user name only when there is one. */
    method UserExists(conn: Option<Server>) returns (b: bool)
      modifies this
      ensures b == UserExistsOn(conn)
      ensures username == (if conn.Some? then Some(OrEmpty(old(username))) else old(username))
      ensures password == old(password)
    {
      if conn.None? {
        return false;
      }
      var _ := GetUsername();
      match conn.value.existsReply
      case Found(_) =>
        return true;
      case _ =>
        return false;
    }

    /** userExists(): false when the connection cannot be opened. */
    method UserExistsFresh(connected: bool, server: Server) returns (b: bool)
      modifies this
      ensures b <==> connected && UserExistsOn(Some(server))
      ensures username == (if connected then Some(OrEmpty(old(username))) else old(username))
      ensures password == old(password)
    {
      if !connected {
        return false;
      }
      b := UserExists(Some(server));
    }

    /** passwordMatches(connection): the user must exist and the stored password must equal getPassword() exactly. */
    method PasswordMatches(conn: Option<Server>) returns (b: bool)
      modifies this
      ensures b == PasswordMatchesOn(conn, OrEmpty(old(password)))
      ensures username == (if conn.Some? then Some(OrEmpty(old(username))) else old(username))
      ensures password == (if ReadsPassword(conn) then Some(OrEmpty(old(password))) else old(password))
    {
      if conn.None? {
        return false;
      }
      var known := UserExists(conn);
      if !known {
        return false;
      }
      var _ := GetUsername();
      match conn.value.passwordReply
      case Found(row) =>
        var given := GetPassword();
        return row.password == given;
      case _ =>
        return false;
    }

    /** passwordMatches(): false when the connection cannot be opened. */
    method PasswordMatchesFresh(connected: bool, server: Server) returns (b: bool)
      modifies this
      ensures b <==> connected && PasswordMatchesOn(Some(server), OrEmpty(old(password)))
      ensures username == (if connected then Some(OrEmpty(old(username))) else old(username))
      ensures password == (if connected && ReadsPassword(Some(server)) then Some(OrEmpty(old(password))) else old(password))
    {
      if !connected {
        return false;
      }
      b := PasswordMatches(Some(server));
    }

    /** getAccountStatus(connection). */
    method AccountStatus(conn: Option<Server>) returns (code: int)
      modifies this
      ensures code == StatusOn(conn, OrEmpty(old(password)))
      ensures username == (if conn.Some? then Some(OrEmpty(old(username))) else old(username))
      ensures password == (if ReadsPassword(conn) then Some(OrEmpty(old(password))) else old(password))
    {
      var known := UserExists(conn);
      if !known {
        return INVALID_USERNAME;
      }
      var matches := PasswordMatches(conn);
      if !matches {
        return INVALID_PASSWORD;
      }
      var _ := GetUsername();
      match conn.value.statusReply
      case Unreachable =>
        return DRIVER_ERROR;
      case QueryFailed =>
        return SQL_ERROR;
      case ReadFailed =>
        return SQL_ERROR;
      case NoRow =>
        return INVALID_USERNAME;
      case Found(row) =>
        if row.enabled != 1 {
          return NOT_ENABLED;
        } else if row.level < ADMIN_LEVEL {
          return ACCESS_USER;
        } else {
          return ACCESS_ADMIN;
        }
    }

    /** getAccountStatus(): SQL_ERROR when the connection cannot be opened. */
    method AccountStatusFresh(connected: bool, server: Server) returns (code: int)
      modifies this
      ensures code == Status(connected, server, OrEmpty(old(password)))
      ensures username == (if connected then Some(OrEmpty(old(username))) else old(username))
      ensures password == (if connected && ReadsPassword(Some(server)) then Some(OrEmpty(old(password))) else old(password))
    {
      if !connected {
        return SQL_ERROR;
      }
      code := AccountStatus(Some(server));
    }
  }
}
