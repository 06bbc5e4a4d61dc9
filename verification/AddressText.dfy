/**
 The texts of addresses, spelled out part by part: which texts the parsing constructor of
 address.h accepts, what each of their parts comes to, and which parts its printers write.
 */
module AddressText {
  import opened Basics
  import opened Text
  import opened Addresses

  datatype LoginPart = LoginPart(user: string, password: Option<string>)

  /** The parts of an address text; what is None is not written at all. */
  datatype Parts = Parts(secure: bool, login: Option<LoginPart>, host: string, port: Option<string>, path: Option<string>)

  function LoginWritten(login: Option<LoginPart>): string {
    match login
    case None => ""
    case Some(LoginPart(user, None)) => user + "@"
    case Some(LoginPart(user, Some(password))) => user + ":" + password + "@"
  }

  function PortWritten(port: Option<string>): string {
    match port
    case None => ""
    case Some(digits) => ":" + digits
  }

  function PathWritten(path: Option<string>): string {
    match path
    case None => ""
    case Some(vhost) => "/" + vhost
  }

  function Written(p: Parts): string {
    (if p.secure then "amqps://" else "amqp://")
    + LoginWritten(p.login) + p.host + PortWritten(p.port) + PathWritten(p.path)
  }

  /** The delimiters that may not stand inside a part, as they would end it. */
  predicate Delimited(p: Parts) {
    && ':' !in p.host && '/' !in p.host && (p.port.Some? ==> '/' !in p.port.value)
    && match p.login
       case None => '@' !in p.host + PortWritten(p.port) + PathWritten(p.path)
       case Some(LoginPart(user, password)) =>
         '@' !in user && ':' !in user && (password.Some? ==> '@' !in password.value)
  }

  function Designated(p: Parts): Address {
    Address(
      p.secure,
      match p.login
      case None => Login("guest", "guest")
      case Some(LoginPart(user, None)) => Login(user, "")
      case Some(LoginPart(user, Some(password))) => Login(user, password),
      p.host,
      match p.port
      case None => if p.secure then 5671 else 5672
      case Some(text) => Atoi(text) % 65536,
      match p.path
      case None => "/"
      case Some(vhost) => if vhost == "" then "/" else vhost)
  }

  /** What every text means, for every combination of optional parts. */
  lemma MeaningOfWritten(p: Parts)
    requires Delimited(p)
    ensures Meaning(Written(p)) == Some(Designated(p))
  {
    var rest := p.host + PortWritten(p.port) + PathWritten(p.path);
    assert Written(p) == Scheme(p.secure) + (LoginWritten(p.login) + rest);
    MeaningBehindScheme(p.secure, LoginWritten(p.login) + rest);
    match p.login
    case None =>
      assert "" + rest == rest;
      SplitAtIsNone(rest, '@');
      MeaningBehindLogin(p, GUEST);
    case Some(LoginPart(user, None)) =>
      assert LoginWritten(p.login) + rest == user + ['@'] + rest;
      SplitAtIs(user, '@', rest);
      SplitAtIsNone(user, ':');
      MeaningBehindLogin(p, Login(user, ""));
    case Some(LoginPart(user, Some(password))) =>
      var login := user + [':'] + password;
      assert LoginWritten(p.login) + rest == login + ['@'] + rest;
      SplitAtIs(login, '@', rest);
      SplitAtIs(user, ':', password);
      MeaningBehindLogin(p, Login(user, password));
  }

  lemma MeaningBehindLogin(p: Parts, login: Login)
    requires Delimited(p)
    ensures WithoutLogin(p.secure, login, p.host + PortWritten(p.port) + PathWritten(p.path))
         == Designated(p).(login := login)
  {
    var authority := p.host + PortWritten(p.port);
    match p.path {
      case None =>
        assert authority + "" == authority;
        SplitAtIsNone(authority, '/');
      case Some(vhost) =>
        assert authority + PathWritten(p.path) == authority + ['/'] + vhost;
        SplitAtIs(authority, '/', vhost);
    }
    match p.port {
      case None =>
        assert p.host + "" == p.host;
        SplitAtIsNone(p.host, ':');
      case Some(digits) =>
        assert authority == p.host + [':'] + digits;
        SplitAtIs(p.host, ':', digits);
    }
  }

  // The parts of a text

  function LoginPartOf(text: string): LoginPart {
    match SplitAt(text, ':')
    case None => LoginPart(text, None)
    case Some((user, password)) => LoginPart(user, Some(password))
  }

  function PartsBehindLogin(secure: bool, login: Option<LoginPart>, text: string): Parts {
    var (authority, path) := match SplitAt(text, '/')
                             case None => (text, None)
                             case Some((before, after)) => (before, Some(after));
    match SplitAt(authority, ':')
    case None => Parts(secure, login, authority, None, path)
    case Some((host, port)) => Parts(secure, login, host, Some(port), path)
  }

  lemma PartsBehindLoginAreWritten(secure: bool, login: Option<LoginPart>, text: string)
    ensures var p := PartsBehindLogin(secure, login, text);
            && p.host + PortWritten(p.port) + PathWritten(p.path) == text
            && p.secure == secure && p.login == login
            && ':' !in p.host && '/' !in p.host && (p.port.Some? ==> '/' !in p.port.value)
  {
    hide SplitAt, PortWritten;
    var p := PartsBehindLogin(secure, login, text);
    match SplitAt(text, '/')
    case None =>
      AuthorityIsWritten(text, p);
      assert text + "" == text;
    case Some((authority, path)) =>
      AuthorityIsWritten(authority, p);
      assert authority + ("/" + path) == authority + ['/'] + path;
  }

  lemma AuthorityIsWritten(authority: string, p: Parts)
    requires '/' !in authority
    requires match SplitAt(authority, ':')
             case None => p.host == authority && p.port == None
             case Some((host, port)) => p.host == host && p.port == Some(port)
    ensures p.host + PortWritten(p.port) == authority
    ensures ':' !in p.host && '/' !in p.host && (p.port.Some? ==> '/' !in p.port.value)
  {
    match SplitAt(authority, ':')
    case None => assert authority + "" == authority;
    case Some((host, port)) =>
      hide SplitAt;
      assert host + (":" + port) == host + [':'] + port;
      InNeither('/', host + [':'], port);
      InNeither('/', host, [':']);
  }

  lemma InNeither(c: char, before: string, after: string)
    requires c !in before + after
    ensures c !in before && c !in after
  {
    assert forall x :: x in before || x in after ==> x in before + after;
  }

  lemma LoginPartIsWritten(login: string)
    requires '@' !in login
    ensures LoginWritten(Some(LoginPartOf(login))) == login + "@"
    ensures var part := LoginPartOf(login);
            && '@' !in part.user && ':' !in part.user
            && (part.password.Some? ==> '@' !in part.password.value)
  {
  }

  function PartsOf(text: string): Parts
    requires "amqps://" <= text || "amqp://" <= text
  {
    var secure := "amqps://" <= text;
    var body := text[if secure then 8 else 7..];
    match SplitAt(body, '@')
    case None => PartsBehindLogin(secure, None, body)
    case Some((login, rest)) => PartsBehindLogin(secure, Some(LoginPartOf(login)), rest)
  }

  lemma PartsOfAreWritten(text: string)
    requires "amqps://" <= text || "amqp://" <= text
    ensures Delimited(PartsOf(text)) && Written(PartsOf(text)) == text
  {
    hide SplitAt, PartsBehindLogin, LoginPartOf, LoginWritten, PortWritten, PathWritten;
    var secure := "amqps://" <= text;
    var scheme := if secure then "amqps://" else "amqp://";
    var body := text[if secure then 8 else 7..];
    assert text == scheme + body;
    match SplitAt(body, '@')
    case None =>
      PartsBehindLoginAreWritten(secure, None, body);
      NoLoginWritten();
      assert scheme + "" == scheme;
      SameText(PartsOf(text), scheme, body);
    case Some((login, after)) =>
      PartsBehindLoginAreWritten(secure, Some(LoginPartOf(login)), after);
      LoginPartIsWritten(login);
      SameText(PartsOf(text), scheme, body);
  }

  lemma NoLoginWritten()
    ensures LoginWritten(None) == ""
  {
  }

  lemma SameText(p: Parts, scheme: string, body: string)
    requires scheme == if p.secure then "amqps://" else "amqp://"
    requires LoginWritten(p.login) + (p.host + PortWritten(p.port) + PathWritten(p.path)) == body
    ensures Written(p) == scheme + body
  {
    hide LoginWritten, PortWritten, PathWritten;
  }

  /** Exactly the texts behind one of the two schemes are accepted, and each means what its parts designate. */
  lemma AcceptedTexts(text: string)
    ensures Meaning(text).Some? <==> "amqp://" <= text || "amqps://" <= text
    ensures Meaning(text).Some? ==>
              exists p :: Delimited(p) && Written(p) == text && Meaning(text) == Some(Designated(p))
  {
    if "amqps://" <= text || "amqp://" <= text {
      PartsOfAreWritten(text);
      MeaningOfWritten(PartsOf(text));
    }
  }

  // What the printers write

  /** operator std::string writes the login, any port but 5672, and a slash with any vhost but "/". */
  lemma StringFormIs(a: Address)
    ensures StringForm(a) == Written(Parts(
              a.secure, Some(LoginPart(a.login.user, Some(a.login.password))), a.hostname,
              if a.port == 5672 then None else Some(Decimal(a.port)),
              Some(if a.vhost == "/" then "" else a.vhost)))
  {
  }

  /** operator<< writes no wholly empty login, any port but 5671 for amqps and 5672 for amqp, and the path alike. */
  lemma StreamFormIs(a: Address)
    ensures StreamForm(a) == Written(Parts(
              a.secure,
              if a.login.user == "" && a.login.password == "" then None
              else Some(LoginPart(a.login.user, Some(a.login.password))),
              a.hostname,
              if a.port == (if a.secure then 5671 else 5672) then None else Some(Decimal(a.port)),
              Some(if a.vhost == "/" then "" else a.vhost)))
  {
  }
}
