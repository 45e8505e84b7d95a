/**
 * The connection settings of a MySQL database (Int-PracExc7
 * database/DBConnection.java): host, port, user name, password and database
 * name, fixed at construction, and the JDBC URL built from them.
 *
 * The fields are final, so an object is modelled as a value. Opening, closing
 * and using the JDBC connection are not part of this model; the built-in
 * host, account and database the shorter constructors fall back on are a
 * `Defaults` parameter.
 */
module DatabaseSettings {
  import opened JavaLang

  /** The MySQL port used when none, or a non-positive one, is given. */
  const DEFAULT_PORT := 3306
  const URL_PREFIX := "jdbc:mysql://"
  const URL_SUFFIX := "?autoreconnect=true"

  /** The five final fields; `None` is a null reference. */
  datatype Settings = Settings(host: Option<string>, port: int, username: Option<string>,
                               password: Option<string>, database: Option<string>)

  /** The built-in connection details used by the shorter constructors. */
  datatype Defaults = Defaults(host: string, username: string, password: string, database: string)

  /** The constructor's outcome: the object, or IllegalArgumentException. */
  datatype Created = Created(settings: Settings) | IllegalArgument

  /** isValid. */
  predicate IsValid(c: Settings) {
    c.host.Some? && c.username.Some? && c.password.Some? && c.database.Some? && c.port > 0
  }

  /** The five-argument constructor: null strings are refused and a port below 1 becomes 3306. */
  function Create(host: Option<string>, port: int, username: Option<string>,
                  password: Option<string>, database: Option<string>): (r: Created)
    ensures r.IllegalArgument? <==> host.None? || username.None? || password.None? || database.None?
    ensures r.Created? ==> r.settings.host == host && r.settings.username == username
    ensures r.Created? ==> r.settings.password == password && r.settings.database == database
    ensures r.Created? ==> r.settings.port == (if port < 1 then DEFAULT_PORT else port)
    ensures r.Created? ==> IsValid(r.settings)
  {
    if host.None? || username.None? || password.None? || database.None? then IllegalArgument
    else Created(Settings(host, if port < 1 then DEFAULT_PORT else port, username, password, database))
  }

  /** DBConnection(host, username, password, database): the default port. */
  function CreateWithoutPort(host: Option<string>, username: Option<string>,
                             password: Option<string>, database: Option<string>): (r: Created)
    ensures r.Created? ==> r.settings.port == DEFAULT_PORT
  {
    Create(host, DEFAULT_PORT, username, password, database)
  }

  /** DBConnection(host, database): the default port and the built-in account. */
  function CreateForDatabase(d: Defaults, host: Option<string>, database: Option<string>): (r: Created)
    ensures r.Created? ==> r.settings.username == Some(d.username) && r.settings.password == Some(d.password)
  {
    CreateWithoutPort(host, Some(d.username), Some(d.password), database)
  }

  /** DBConnection(): every detail built in. */
  function CreateDefault(d: Defaults): (r: Created)
    ensures r == Created(Settings(Some(d.host), DEFAULT_PORT, Some(d.username), Some(d.password), Some(d.database)))
  {
    CreateForDatabase(d, Some(d.host), Some(d.database))
  }

  /** buildURL: null when the settings are not valid. */
  function BuildURL(c: Settings): (r: Option<string>)
    ensures r.Some? <==> IsValid(c)
  {
    if !IsValid(c) then None
    else Some(URL_PREFIX + c.host.value + ":" + IntToString(c.port) + "/" + c.database.value + URL_SUFFIX)
  }

  /**
   * Every constructed object has a URL, and the URL names the host, the port
   * (whose decimal text reads back as the port) and the database, in that order.
   */
  lemma CreatedURL(host: string, port: int, username: string, password: string, database: string)
    requires IsInt32(port)
    ensures var c := Create(Some(host), port, Some(username), Some(password), Some(database));
      c.Created? && BuildURL(c.settings).Some?
      && c.settings.port > 0
      && (exists portText :: ParseInt(Some(portText)) == Some(c.settings.port)
           && BuildURL(c.settings).value == URL_PREFIX + host + ":" + portText + "/" + database + URL_SUFFIX)
  {
    var c := Create(Some(host), port, Some(username), Some(password), Some(database));
    ParseIntOfIntToString(c.settings.port);
    var portText := IntToString(c.settings.port);
    assert BuildURL(c.settings).value == URL_PREFIX + host + ":" + portText + "/" + database + URL_SUFFIX;
  }

  /** Two constructed objects have the same URL exactly when host, port and database agree. */
  lemma URLDeterminesHostPortDatabase(a: Settings, b: Settings)
    requires IsValid(a) && IsValid(b)
    requires ':' !in a.host.value && ':' !in b.host.value
    requires IsInt32(a.port) && IsInt32(b.port)
    ensures BuildURL(a) == BuildURL(b) <==>
      a.host == b.host && a.port == b.port && a.database == b.database
  {
    if BuildURL(a) == BuildURL(b) {
      var ra := IntToString(a.port) + ['/'] + a.database.value;
      var rb := IntToString(b.port) + ['/'] + b.database.value;
      URLParts(a);
      URLParts(b);
      StripAffixes(URL_PREFIX, a.host.value + [':'] + ra, b.host.value + [':'] + rb, URL_SUFFIX);
      SplitAtFirst(a.host.value, b.host.value, ':', ra, rb);
      PortTextHasNoSlash(a.port);
      PortTextHasNoSlash(b.port);
      SplitAtFirst(IntToString(a.port), IntToString(b.port), '/', a.database.value, b.database.value);
      ParseIntOfIntToString(a.port);
      ParseIntOfIntToString(b.port);
    }
  }

  /** The URL of valid settings: prefix, host, ':', port text, '/', database, suffix. */
  lemma URLParts(c: Settings)
    requires IsValid(c)
    ensures BuildURL(c).value
      == URL_PREFIX + (c.host.value + [':'] + (IntToString(c.port) + ['/'] + c.database.value)) + URL_SUFFIX
  {
    assert ":" == [':'] && "/" == ['/'];
  }

  /** A common prefix and suffix can be cancelled. */
  lemma StripAffixes(p: string, x: string, y: string, s: string)
    requires p + x + s == p + y + s
    ensures x == y
  {
    assert x == (p + x + s)[|p|..|p| + |x|];
    assert y == (p + y + s)[|p|..|p| + |y|];
  }

  /** Text split at the first occurrence of a separator the leading parts do not contain. */
  lemma {:induction false} SplitAtFirst(x: string, y: string, sep: char, u: string, v: string)
    requires sep !in x && sep !in y
    requires x + [sep] + u == y + [sep] + v
    ensures x == y && u == v
    decreases |x|
  {
    if x == [] && y == [] {
      assert u == (x + [sep] + u)[1..];
      assert v == (y + [sep] + v)[1..];
    } else if x == [] {
      // the right-hand side starts with y[0], which is not the separator
      FirstOfJoin(y, sep, v);
      assert false;
    } else if y == [] {
      FirstOfJoin(x, sep, u);
      assert false;
    } else {
      assert x[0] == y[0] by {
        assert (x + [sep] + u)[0] == x[0];
        assert (y + [sep] + v)[0] == y[0];
      }
      assert x[1..] + [sep] + u == (x + [sep] + u)[1..];
      assert y[1..] + [sep] + v == (y + [sep] + v)[1..];
      SplitAtFirst(x[1..], y[1..], sep, u, v);
      assert x == [x[0]] + x[1..];
      assert y == [y[0]] + y[1..];
    }
  }

  lemma FirstOfJoin(x: string, sep: char, u: string)
    requires x != []
    ensures (x + [sep] + u)[0] == x[0] && ([sep] + u)[0] == sep
  {
  }

  /** The decimal text of a port holds only digits and a sign. */
  lemma PortTextHasNoSlash(port: int)
    ensures '/' !in IntToString(port)
  {
    var d := NatToDigits(if port < 0 then -port else port);
    NatToDigitsWellFormed(if port < 0 then -port else port);
    if port < 0 {
      assert IntToString(port) == "-" + d;
    }
  }
}
