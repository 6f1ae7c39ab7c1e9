/** Parsing of `<scheme>://[[login][:password]@]<host>[:port][/path][?query]`, a subset of RFC 3986. */
module Urls {
  import opened Common
  import Text

  /** The views of a parsed URL. They never change after construction. */
  datatype Url = Url(scheme: string, login: string, password: string, host: string,
                     portView: string, port: nat, path: string, query: string)
  {
    /** `path()`: an empty path reads as the root. */
    function Path(): string { if path == "" then "/" else path }
  }

  // ---------------------------------------------------------------------- parsing

  /** `split_pair`: at most two columns; a single one goes to the side that is mandatory. */
  function SplitPair(view: string, sep: char, mandatoryLeft: bool): Result<(string, string)> {
    var columns := Text.Split(view, sep);
    if |columns| == 1 then Ok(if mandatoryLeft then (columns[0], "") else ("", columns[0]))
    else if |columns| == 2 then Ok((columns[0], columns[1]))
    else Invalid
  }

  predicate IsDigit(c: char) { '0' <= c <= '9' }

  function DigitCount(s: string): (n: nat)
    ensures n <= |s| && forall i :: 0 <= i < n ==> IsDigit(s[i])
    ensures n < |s| ==> !IsDigit(s[n])
  {
    if s == "" || !IsDigit(s[0]) then 0 else 1 + DigitCount(s[1..])
  }

  function Number(digits: string): nat
    requires forall i :: 0 <= i < |digits| ==> IsDigit(digits[i])
  {
    if digits == "" then 0
    else
      assert IsDigit(digits[|digits| - 1]);
      Number(digits[..|digits| - 1]) * 10 + (digits[|digits| - 1] as int - '0' as int)
  }

  /** `from_chars` into an `unsigned short`: the leading digits, which must exist and fit. */
  function FromChars(s: string): (r: Result<nat>)
    ensures r.Ok? ==> r.value <= 65535
  {
    var n := DigitCount(s);
    if n == 0 || Number(s[..n]) > 65535 then Invalid else Ok(Number(s[..n]))
  }

  /** A view made from a pointer alone ends at the first NUL. */
  function UntilNul(s: string): (t: string)
    ensures '\0' !in s ==> t == s
    ensures '\0' !in t
  {
    s[..Text.Find(s, '\0', 0)]
  }

  function Scheme(column: string): string {
    if column != "" && column[|column| - 1] == ':' then column[..|column| - 1] else column
  }

  /** Host and port view. */
  function HostAndPort(host: string): Result<(string, string)> {
    if host == "" then Ok(("", ""))
    else if host[0] == '[' then
      var found := Text.Find(host, ']', 0);
      if found == |host| then Invalid
      else
        var colon := Text.Find(host, ':', found + 1);
        if colon == |host| then Ok((host[1..found], ""))
        else if host[colon + 1..] == "" then Invalid
        else Ok((host[1..found], host[colon + 1..]))
    else SplitPair(host, ':', true)
  }

  /** The path ends where the query starts, and at a NUL only if there is no query. */
  function PathOf(tail: string): string {
    var question := Text.Find(tail, '?', 0);
    if question < |tail| then tail[..question] else UntilNul(tail)
  }

  function QueryOf(tail: string): string {
    var question := Text.Find(tail, '?', 0);
    if question < |tail| then UntilNul(tail[question..]) else ""
  }

  /** The parts: the first and the third column, and everything after them. */
  function ParseParts(first: string, authority: string, tail: string): Result<Url> {
    var (userInfo, host) :- SplitPair(authority, '@', false);
    var (login, password) :- if userInfo == "" then Ok(("", "")) else SplitPair(userInfo, ':', true);
    var (name, portView) :- HostAndPort(host);
    var port :- if portView == "" then Ok(0) else FromChars(portView);
    Ok(Url(Scheme(first), login, password, name, portView, port, PathOf(tail), QueryOf(tail)))
  }

  /** The constructor. */
  function Parse(url: string): Result<Url> {
    var columns := Text.Split(url, '/');
    if |columns| < 3 || columns[1] != "" || columns[2] == "" then Invalid
    else
      var pos := |columns[0]| + 1 + |columns[1]| + 1 + |columns[2]|;
      ColumnsFit(url);
      ParseParts(columns[0], columns[2], url[pos..])
  }

  /** The first three columns lie at the start of the text, each before its separator. */
  lemma ColumnsFit(url: string)
    requires |Text.Split(url, '/')| >= 3
    ensures var c := Text.Split(url, '/');
            var pos := |c[0]| + 1 + |c[1]| + 1 + |c[2]|;
            && pos <= |url| && url[..pos] == c[0] + "/" + c[1] + "/" + c[2]
            && (pos == |url| || url[pos] == '/')
  {
    hide Text.Split;
    var c := Text.Split(url, '/');
    Text.JoinSplit(url, '/');
    assert c[1..][1..] == c[2..] && c[2..][1..] == c[3..];
    hide Text.Join;
    JoinedThree(c, '/');
  }

  lemma JoinedThree(c: seq<string>, sep: char)
    requires |c| >= 3
    ensures Text.Join(c, sep)
         == c[0] + [sep] + c[1] + [sep] + c[2] + if |c| == 3 then "" else [sep] + Text.Join(c[3..], sep)
  {
    var t2, t3 := Text.Join(c[2..], sep), if |c| == 3 then "" else [sep] + Text.Join(c[3..], sep);
    assert t2 == c[2] + t3 by { assert c[2..][1..] == c[3..]; }
    assert Text.Join(c[1..], sep) == c[1] + [sep] + t2 by { assert c[1..][1..] == c[2..]; }
    assert Text.Join(c, sep) == c[0] + [sep] + Text.Join(c[1..], sep);
    hide Text.Join;
    Common.Associative(c[0] + [sep], c[1] + [sep], t2);
    Common.Associative(c[0] + [sep], c[1], [sep]);
    Common.Associative(c[0] + [sep] + c[1] + [sep], c[2], t3);
  }

  method SplitPairViews(view: string, sep: char, mandatoryLeft: bool) returns (r: Result<(string, string)>)
    ensures r == SplitPair(view, sep, mandatoryLeft)
  {
    hide Text.Split;
    var left, right := "", "";
    var columns := Text.SplitColumns(view, sep);
    if |columns| == 1 {
      if mandatoryLeft {
        left := columns[0];
      } else {
        right := columns[0];
      }
    } else if |columns| == 2 {
      left := columns[0];
      right := columns[1];
    } else {
      return Invalid;
    }
    return Ok((left, right));
  }

  /** The part of the constructor that looks for an IPv6 address in brackets. */
  method HostAndPortViews(hostView: string) returns (r: Result<(string, string)>)
    ensures r == HostAndPort(hostView)
  {
    hide SplitPair;
    var host, portView := "", "";
    if |hostView| > 0 {
      if hostView[0] == '[' {
        var found := Text.Find(hostView, ']', 0);
        if found == |hostView| {
          return Invalid;
        }
        host := hostView[1..found];
        found := Text.Find(hostView, ':', found + 1);
        if found < |hostView| {
          portView := hostView[found + 1..];
          if portView == "" {
            return Invalid;
          }
        }
      } else {
        var pair :- SplitPairViews(hostView, ':', true);
        host, portView := pair.0, pair.1;
      }
    }
    return Ok((host, portView));
  }

  /** The part of the constructor that finds path and query at the end of the text. */
  method PathAndQueryViews(url: string, pos: nat) returns (path: string, query: string)
    requires pos <= |url|
    ensures path == PathOf(url[pos..]) && query == QueryOf(url[pos..])
  {
    var foundQuery := Text.Find(url, '?', pos);
    FindFrom(url, '?', pos);
    if foundQuery < |url| {
      path := url[pos..foundQuery];
      query := UntilNul(url[foundQuery..]);
      assert url[pos..][..foundQuery - pos] == path && url[pos..][foundQuery - pos..] == url[foundQuery..];
    } else {
      path, query := UntilNul(url[pos..]), "";
    }
  }

  /** The constructor, which fills in the views one after the other and throws on the way. */
  method Construct(url: string) returns (r: Result<Url>)
    ensures r == Parse(url)
  {
    hide Text.Split, SplitPair, FromChars, HostAndPort, PathOf, QueryOf;
    var login, password := "", "";
    var port := 0;
    var columns := Text.SplitColumns(url, '/');
    if |columns| < 3 || |columns[1]| != 0 || columns[2] == "" {
      return Invalid;
    }
    var scheme := columns[0];
    if scheme != "" && scheme[|scheme| - 1] == ':' {
      scheme := scheme[..|scheme| - 1];
    }
    var authority :- SplitPairViews(columns[2], '@', false);
    if |authority.0| > 0 {
      var user :- SplitPairViews(authority.0, ':', true);
      login, password := user.0, user.1;
    }
    var host :- HostAndPortViews(authority.1);
    if |host.1| > 0 {
      port :- FromChars(host.1);
    }
    ColumnsFit(url);
    var path, query := PathAndQueryViews(url, |columns[0]| + 1 + |columns[1]| + 1 + |columns[2]|);
    return Ok(Url(scheme, login, password, host.0, host.1, port, path, query));
  }

  lemma FindFrom(s: string, c: char, from: nat)
    requires from <= |s|
    ensures Text.Find(s[from..], c, 0) == Text.Find(s, c, from) - from
  {
    Text.FindIsFirst(s[from..], c, 0, Text.Find(s, c, from) - from);
  }

  // --------------------------------------------------------------------- printing

  function DigitOf(n: nat): char
    requires n < 10
  {
    ('0' as int + n) as char
  }

  /** `to_string` of a port. */
  function Decimal(n: nat): (s: string)
    ensures s != "" && forall i :: 0 <= i < |s| ==> IsDigit(s[i])
  {
    if n < 10 then [DigitOf(n)] else Decimal(n / 10) + [DigitOf(n % 10)]
  }

  function PortText(port: nat): string {
    if port == 0 then "" else ":" + Decimal(port)
  }

  /** `strip_login_password`. */
  function Strip(u: Url): string {
    u.scheme + "://" + u.host + PortText(u.port) + u.Path()
  }

  datatype Components = Components(scheme: string, login: string, password: string, host: string,
                                   bracketed: bool, port: nat, path: string, query: string)

  function UserText(c: Components): string {
    if c.login == "" then "" else c.login + (if c.password == "" then "" else ":" + c.password) + "@"
  }

  function HostText(c: Components): string {
    if c.bracketed then "[" + c.host + "]" else c.host
  }

  function Authority(c: Components): string {
    UserText(c) + (HostText(c) + PortText(c.port))
  }

  function Print(c: Components): string {
    c.scheme + "://" + Authority(c) + (c.path + c.query)
  }

  /** Every component is free of the delimiters that end it, and the authority is not empty. */
  predicate Printable(c: Components) {
    && '/' !in c.scheme
    && '/' !in c.login && '@' !in c.login && ':' !in c.login
    && '/' !in c.password && '@' !in c.password && ':' !in c.password && (c.login == "" ==> c.password == "")
    && '/' !in c.host && '@' !in c.host
    && (if c.bracketed then ']' !in c.host else ':' !in c.host && (c.host == "" || c.host[0] != '['))
    && c.port <= 65535
    && (c.login != "" || c.bracketed || c.host != "" || c.port != 0)
    && (c.path == "" || c.path[0] == '/') && '?' !in c.path
    && (c.query == "" || (c.path != "" && c.query[0] == '?'))
    && '\0' !in c.query && (c.query == "" ==> '\0' !in c.path)
  }

  lemma {:induction false} DecimalReadBack(n: nat)
    ensures Number(Decimal(n)) == n
  {
    if n < 10 {
      assert Number([DigitOf(n)][..0]) == 0;
    } else {
      DecimalReadBack(n / 10);
      var s := Decimal(n);
      assert s[..|s| - 1] == Decimal(n / 10);
    }
  }

  lemma {:induction false} AllDigits(s: string)
    requires forall i :: 0 <= i < |s| ==> IsDigit(s[i])
    ensures DigitCount(s) == |s|
  {
    if s != "" {
      AllDigits(s[1..]);
    }
  }

  lemma PortReadBack(port: nat)
    requires port <= 65535
    ensures FromChars(Decimal(port)) == Ok(port)
  {
    AllDigits(Decimal(port));
    DecimalReadBack(port);
    assert Decimal(port)[..|Decimal(port)|] == Decimal(port);
  }

  lemma PairReadBack(left: string, sep: char, right: string)
    requires sep !in left && sep !in right
    ensures SplitPair(left + [sep] + right, sep, true) == SplitPair(left + [sep] + right, sep, false) == Ok((left, right))
    ensures SplitPair(left, sep, true) == Ok((left, "")) && SplitPair(right, sep, false) == Ok(("", right))
  {
    hide Text.Split;
    Text.SplitConcat(left, sep, right);
    Text.SplitWhole(left, sep);
    Text.SplitWhole(right, sep);
  }

  // --------------------------------------------------------------- parsing undoes printing

  /** Parsing a text made of what precedes the slashes, an authority without slashes and what follows. */
  lemma ParseThreeParts(first: string, authority: string, tail: string)
    requires '/' !in first && '/' !in authority && (tail == "" || tail[0] == '/')
    ensures Parse(first + "//" + authority + tail)
         == if authority == "" then Invalid else ParseParts(first, authority, tail)
  {
    hide Text.Split, ParseParts;
    var url := first + "//" + authority + tail;
    var rest := authority + tail;
    assert url == first + ['/'] + ("" + ['/'] + rest);
    Text.SplitConcat(first, '/', "" + ['/'] + rest);
    Text.SplitConcat("", '/', rest);
    Text.SplitWhole(first, '/');
    Text.SplitWhole("", '/');
    FirstColumn(authority, tail);
    var columns := Text.Split(url, '/');
    assert columns == [first] + ([""] + Text.Split(rest, '/'));
    assert columns[0] == first && columns[1] == "" && columns[2] == authority;
    assert url[|first| + 1 + 0 + 1 + |authority|..] == tail;
  }

  lemma ParsePrinted(scheme: string, authority: string, tail: string)
    requires '/' !in scheme && '/' !in authority && (tail == "" || tail[0] == '/')
    ensures Parse(scheme + "://" + authority + tail)
         == if authority == "" then Invalid else ParseParts(scheme + ":", authority, tail)
  {
    hide Parse, ParseParts;
    assert scheme + "://" + authority + tail == (scheme + ":") + "//" + authority + tail;
    ParseThreeParts(scheme + ":", authority, tail);
  }

  lemma FirstColumn(authority: string, tail: string)
    requires '/' !in authority && (tail == "" || tail[0] == '/')
    ensures Text.Split(authority + tail, '/')[0] == authority
  {
    hide Text.Split;
    Text.SplitWhole(authority, '/');
    if tail == "" {
      assert authority + tail == authority;
    } else {
      assert authority + tail == authority + ['/'] + tail[1..];
      Text.SplitConcat(authority, '/', tail[1..]);
    }
  }

  lemma PortTextAlphabet(port: nat)
    ensures forall c :: c in PortText(port) ==> c == ':' || IsDigit(c)
  {
    forall c | c in Decimal(port) ensures IsDigit(c) {
      var i :| 0 <= i < |Decimal(port)| && Decimal(port)[i] == c;
    }
  }

  function PortView(port: nat): string {
    if port == 0 then "" else Decimal(port)
  }

  lemma PlainHostReadBack(host: string, port: nat)
    requires ':' !in host && (host == "" || host[0] != '[')
    ensures HostAndPort(host + PortText(port)) == Ok((host, PortView(port)))
  {
    hide SplitPair, Decimal;
    PortTextAlphabet(port);
    if port == 0 {
      assert host + PortText(port) == host;
      PairReadBack(host, ':', "");
    } else {
      assert host + PortText(port) == host + [':'] + Decimal(port);
      assert ':' !in Decimal(port) by { NoColon(port); }
      PairReadBack(host, ':', Decimal(port));
    }
  }

  lemma NoColon(port: nat)
    ensures ':' !in Decimal(port)
  {
  }

  /** Where the closing bracket is, and what it separates. */
  lemma BracketedText(host: string, rest: string)
    requires ']' !in host
    ensures var text, found := "[" + host + "]" + rest, |host| + 1;
            && text != "" && text[0] == '[' && Text.Find(text, ']', 0) == found < |text|
            && text[1..found] == host && text[found + 1..] == rest
            && Text.Find(text, ':', found + 1) == Text.Find(rest, ':', 0) + found + 1
            && (forall k :: 0 <= k <= |rest| ==> text[found + 1 + k..] == rest[k..])
  {
    var text, found := "[" + host + "]" + rest, |host| + 1;
    Text.FindIsFirst(text, ']', 0, found);
    hide Text.Find;
    assert text[found + 1..] == rest;
    FindFrom(text, ':', found + 1);
  }

  lemma BracketedHostReadBack(host: string, port: nat)
    requires ']' !in host
    ensures HostAndPort("[" + host + "]" + PortText(port)) == Ok((host, PortView(port)))
  {
    var rest := PortText(port);
    BracketedText(host, rest);
    Text.FindIsFirst(rest, ':', 0, 0);
    hide Text.Find, Decimal;
    assert port != 0 ==> rest[1..] == Decimal(port);
  }

  lemma HostReadBack(c: Components)
    requires Printable(c)
    ensures HostAndPort(HostText(c) + PortText(c.port)) == Ok((c.host, PortView(c.port)))
  {
    hide HostAndPort, PortText;
    if c.bracketed {
      BracketedHostReadBack(c.host, c.port);
    } else {
      PlainHostReadBack(c.host, c.port);
    }
  }

  lemma AuthorityReadBack(c: Components)
    requires Printable(c)
    ensures '/' !in Authority(c) && Authority(c) != ""
    ensures var info := if c.login == "" then "" else c.login + (if c.password == "" then "" else ":" + c.password);
            && SplitPair(Authority(c), '@', false) == Ok((info, HostText(c) + PortText(c.port)))
            && (c.login != "" ==> info != "" && SplitPair(info, ':', true) == Ok((c.login, c.password)))
  {
    hide SplitPair, Decimal;
    var host := HostText(c) + PortText(c.port);
    PortTextAlphabet(c.port);
    assert '@' !in host && '/' !in host;
    if c.login == "" {
      assert Authority(c) == host;
      PairReadBack("", '@', host);
    } else {
      var info := c.login + (if c.password == "" then "" else ":" + c.password);
      assert Authority(c) == info + ['@'] + host;
      PairReadBack(info, '@', host);
      PairReadBack(c.login, ':', c.password);
      assert c.password == "" ==> info == c.login;
      assert c.password != "" ==> info == c.login + [':'] + c.password;
    }
  }

  lemma TailReadBack(path: string, query: string)
    requires '?' !in path && (query == "" || query[0] == '?')
    requires '\0' !in query && (query == "" ==> '\0' !in path)
    ensures PathOf(path + query) == path && QueryOf(path + query) == query
  {
    var tail := path + query;
    Text.FindIsFirst(tail, '?', 0, |path|);
    assert tail[..|path|] == path && tail[|path|..] == query;
    assert query == "" ==> tail == path;
  }

  lemma SchemeReadBack(scheme: string)
    ensures Scheme(scheme + ":") == scheme
  {
  }

  /** Parsing the printed text succeeds and gives the same components back. */
  lemma ParsePrint(c: Components)
    requires Printable(c)
    ensures Parse(Print(c))
         == Ok(Url(c.scheme, c.login, c.password, c.host, PortView(c.port), c.port, c.path, c.query))
  {
    hide Parse, HostAndPort, SplitPair, Authority, PortText, Decimal, FromChars, Scheme, PathOf, QueryOf;
    AuthorityReadBack(c);
    HostReadBack(c);
    PortReadBack(c.port);
    TailReadBack(c.path, c.query);
    SchemeReadBack(c.scheme);
    assert c.path != "" ==> (c.path + c.query)[0] == '/';
    ParsePrinted(c.scheme, Authority(c), c.path + c.query);
    assert c.query == "" ==> c.path + c.query == c.path;
  }

  // --------------------------------------------------------- stripping the user information

  lemma PairIsFree(view: string, sep: char, mandatoryLeft: bool)
    requires SplitPair(view, sep, mandatoryLeft).Ok?
    ensures var (left, right) := SplitPair(view, sep, mandatoryLeft).value;
            && sep !in left && sep !in right
            && forall c :: c in left || c in right ==> c in view
  {
    hide Text.Split;
    var columns := Text.Split(view, sep);
    Text.SplitColumnsAreFree(view, sep);
    Text.JoinSplit(view, sep);
    if |columns| == 2 {
      assert view == columns[0] + [sep] + columns[1];
    }
  }

  /** What a host view holds, and that a bracket at its start is the only one of its kind. */
  lemma HostIsWithin(host: string)
    requires HostAndPort(host).Ok?
    ensures var name := HostAndPort(host).value.0;
            && (forall c :: c in name ==> c in host)
            && (name != "" && name[0] == '[' ==> ']' !in name)
  {
    hide SplitPair;
    if host != "" && host[0] != '[' {
      PairIsFree(host, ':', true);
      StartsAlike(host);
    }
  }

  lemma StartsAlike(host: string)
    requires host != "" && SplitPair(host, ':', true).Ok?
    ensures var name := SplitPair(host, ':', true).value.0; name == "" || name[0] == host[0]
  {
    hide Text.Split;
    Text.JoinSplit(host, ':');
  }

  /** What every parsed URL satisfies. */
  ghost predicate Shape(u: Url) {
    && '/' !in u.scheme && '/' !in u.host && '@' !in u.host
    && (u.host != "" && u.host[0] == '[' ==> ']' !in u.host)
    && u.port <= 65535 && (u.path == "" || u.path[0] == '/') && '?' !in u.path
  }

  lemma PartsHaveShape(first: string, authority: string, tail: string)
    requires '/' !in first && '/' !in authority && (tail == "" || tail[0] == '/')
    requires ParseParts(first, authority, tail).Ok?
    ensures Shape(ParseParts(first, authority, tail).value)
  {
    hide SplitPair, HostAndPort, FromChars;
    PairIsFree(authority, '@', false);
    var host := SplitPair(authority, '@', false).value.1;
    HostIsWithin(host);
  }

  lemma ParsedHasShape(url: string)
    requires Parse(url).Ok?
    ensures Shape(Parse(url).value)
  {
    hide Text.Split, ParseParts, Shape;
    var columns := Text.Split(url, '/');
    Text.SplitColumnsAreFree(url, '/');
    ColumnsFit(url);
    var pos := |columns[0]| + 1 + |columns[1]| + 1 + |columns[2]|;
    PartsHaveShape(columns[0], columns[2], url[pos..]);
  }

  /** The stripped text is accepted again, with the same scheme, host, port and path and nothing else. */
  ghost predicate StripKeeps(u: Url) {
    match Parse(Strip(u))
    case Invalid => false
    case Ok(v) => v == Url(u.scheme, "", "", u.host, v.portView, u.port, u.Path(), "")
  }

  lemma StripSucceeds(u: Url)
    requires Shape(u)
    requires (u.host != "" || u.port != 0) && ':' !in u.host && (u.host == "" || u.host[0] != '[') && '\0' !in u.path
    ensures StripKeeps(u)
  {
    hide Parse, PortText;
    var c := Components(u.scheme, "", "", u.host, false, u.port, u.Path(), "");
    ParsePrint(c);
    assert Print(c) == Strip(u);
  }

  lemma StripNeeds(u: Url)
    requires Shape(u) && StripKeeps(u)
    ensures (u.host != "" || u.port != 0) && ':' !in u.host && (u.host == "" || u.host[0] != '[') && '\0' !in u.path
  {
    hide Parse, SplitPair, Decimal, FromChars, Scheme;
    var authority, path := u.host + PortText(u.port), u.Path();
    PortTextAlphabet(u.port);
    assert Strip(u) == u.scheme + "://" + authority + path;
    ParsePrinted(u.scheme, authority, path);
    PairReadBack("", '@', authority);
    assert HostAndPort(authority).Ok? && HostAndPort(authority).value.0 == u.host;
    if u.host != "" {
      assert authority[0] == u.host[0];
      if u.host[0] != '[' {
        PairIsFree(authority, ':', true);
      }
    }
  }

  /** For every accepted URL, stripping login and password keeps scheme, host, port and path exactly when
      there is a host or a port to print, the host needs no brackets and the path holds no NUL. */
  lemma StripLoginPassword(url: string)
    requires Parse(url).Ok?
    ensures var u := Parse(url).value;
            StripKeeps(u) <==>
              (u.host != "" || u.port != 0) && ':' !in u.host && (u.host == "" || u.host[0] != '[') && '\0' !in u.path
  {
    hide Parse, StripKeeps;
    ParsedHasShape(url);
    var u := Parse(url).value;
    if StripKeeps(u) {
      StripNeeds(u);
    } else if (u.host != "" || u.port != 0) && ':' !in u.host && (u.host == "" || u.host[0] != '[') && '\0' !in u.path {
      StripSucceeds(u);
    }
  }

  /** A URL with an IPv6 address is accepted, and the text without its brackets is not the same URL. */
  lemma StrippingLosesBrackets()
    ensures Parse("http://[::1]/") == Ok(Url("http", "", "", "::1", "", 0, "/", ""))
    ensures !StripKeeps(Parse("http://[::1]/").value)
  {
    hide Parse, StripKeeps;
    var c := Components("http", "", "", "::1", true, 0, "/", "");
    ParsePrint(c);
    assert Print(c) == "http://[::1]/";
    StripLoginPassword("http://[::1]/");
    assert "::1"[0] == ':';
  }

  // ------------------------------------------------- which texts are accepted, and as what

  /** `view` is `left`, `sep` and `right`, or without `sep` the mandatory side alone. */
  predicate PairSpelled(view: string, sep: char, mandatoryLeft: bool, left: string, right: string) {
    if sep !in view then (left, right) == (if mandatoryLeft then (view, "") else ("", view))
    else view == left + [sep] + right && sep !in left && sep !in right
  }

  lemma PairExactly(view: string, sep: char, mandatoryLeft: bool, left: string, right: string)
    ensures SplitPair(view, sep, mandatoryLeft) == Ok((left, right))
       <==> PairSpelled(view, sep, mandatoryLeft, left, right)
  {
    hide Text.Split;
    var columns := Text.Split(view, sep);
    Text.SplitColumnsAreFree(view, sep);
    Text.JoinSplit(view, sep);
    if sep !in view {
      Text.SplitWhole(view, sep);
    } else if PairSpelled(view, sep, mandatoryLeft, left, right) {
      PairReadBack(left, sep, right);
    } else if |columns| == 2 {
      assert view == columns[0] + [sep] + columns[1];
    }
  }

  /** A plain host with an optional port, or an address in brackets, in which anything up to a colon is ignored
      behind the closing bracket. */
  ghost predicate HostSpelled(host: string, name: string, portView: string) {
    if host == "" || host[0] != '[' then PairSpelled(host, ':', true, name, portView)
    else
      && ']' !in name
      && exists ignored: string :: ':' !in ignored
           && host == "[" + name + "]" + ignored + if portView == "" then "" else ":" + portView
  }

  lemma Cut(s: string, i: nat)
    requires i < |s|
    ensures s == s[..i] + [s[i]] + s[i + 1..]
  {
  }

  lemma CutTwice(s: string, i: nat)
    requires 0 < i < |s|
    ensures s == [s[0]] + s[1..i] + [s[i]] + s[i + 1..]
  {
  }

  lemma NotBetween(s: string, c: char, i: nat, j: nat)
    requires i <= j <= |s| && forall k :: i <= k < j ==> s[k] != c
    ensures c !in s[i..j]
  {
  }

  lemma BracketsApart(host: string, found: nat)
    requires host != "" && host[0] == '[' && found == Text.Find(host, ']', 0) < |host|
    ensures found >= 1 && ']' !in host[1..found] && host == "[" + host[1..found] + "]" + host[found + 1..]
  {
    NotBetween(host, ']', 1, found);
    hide Text.Find;
    CutTwice(host, found);
    var name, rest := host[1..found], host[found + 1..];
    assert [host[0]] == "[" && [host[found]] == "]";
  }

  lemma ColonApart(rest: string, k: nat)
    requires k == Text.Find(rest, ':', 0)
    ensures ':' !in rest[..k] && rest == rest[..k] + if k < |rest| then ":" + rest[k + 1..] else ""
  {
    hide Text.Find;
    if k < |rest| {
      Cut(rest, k);
    }
  }

  /** What is read behind the brackets depends on the text behind them only. */
  lemma SameBehind(host: string, found: nat, colon: nat, rest: string, k: nat)
    requires found < |host| && rest == host[found + 1..] && colon == found + 1 + k && k <= |rest|
    ensures colon == |host| <==> k == |rest|
    ensures k < |rest| ==> host[colon + 1..] == rest[k + 1..]
  {
    if k < |rest| {
      RestOfRest(host, found + 1, k + 1);
    }
  }

  lemma RestOfRest(s: string, a: nat, b: nat)
    requires a + b <= |s|
    ensures s[a..][b..] == s[a + b..]
  {
  }

  lemma BracketsUnfold(host: string, found: nat, colon: nat)
    requires host != "" && host[0] == '[' && 0 < found < |host|
    requires found == Text.Find(host, ']', 0) && colon == Text.Find(host, ':', found + 1)
    ensures HostAndPort(host)
         == if colon == |host| then Ok((host[1..found], ""))
            else if host[colon + 1..] == "" then Invalid
            else Ok((host[1..found], host[colon + 1..]))
  {
    hide Text.Find, SplitPair;
  }

  lemma BracketsParsed(host: string)
    requires host != "" && host[0] == '[' && HostAndPort(host).Ok?
    ensures HostSpelled(host, HostAndPort(host).value.0, HostAndPort(host).value.1)
  {
    var found := Text.Find(host, ']', 0);
    BracketFound(host);
    hide Text.Find, PairSpelled, HostAndPort;
    BracketsApart(host, found);
    var rest := host[found + 1..];
    var k := Text.Find(rest, ':', 0);
    var colon := Text.Find(host, ':', found + 1);
    FindFrom(host, ':', found + 1);
    BracketsUnfold(host, found, colon);
    SameBehind(host, found, colon, rest, k);
    ColonApart(rest, k);
    var name, ignored := host[1..found], rest[..k];
    var portView := if k < |rest| then rest[k + 1..] else "";
    var text := if portView == "" then "" else ":" + portView;
    Associative("[" + name + "]", ignored, text);
    SpelledWith(host, name, portView, ignored);
  }

  lemma BracketFound(host: string)
    requires host != "" && host[0] == '[' && HostAndPort(host).Ok?
    ensures Text.Find(host, ']', 0) < |host|
  {
    hide Text.Find;
  }

  lemma SpelledWith(host: string, name: string, portView: string, ignored: string)
    requires host != "" && host[0] == '[' && ']' !in name && ':' !in ignored
    requires host == "[" + name + "]" + ignored + if portView == "" then "" else ":" + portView
    ensures HostSpelled(host, name, portView)
  {
    hide PairSpelled;
  }

  lemma BracketsExactly(host: string, name: string, portView: string)
    requires host != "" && host[0] == '['
    ensures HostAndPort(host) == Ok((name, portView)) <==> HostSpelled(host, name, portView)
  {
    if HostAndPort(host) == Ok((name, portView)) {
      BracketsParsed(host);
    }
    hide HostAndPort, PairSpelled;
    if HostSpelled(host, name, portView) {
      var text := if portView == "" then "" else ":" + portView;
      var ignored: string :| ':' !in ignored && host == "[" + name + "]" + ignored + text;
      BracketsReadBack(name, ignored, portView);
      Associative("[" + name + "]", ignored, text);
    }
  }

  lemma BracketsReadBack(name: string, ignored: string, portView: string)
    requires ']' !in name && ':' !in ignored
    ensures HostAndPort("[" + name + "]" + (ignored + if portView == "" then "" else ":" + portView))
         == Ok((name, portView))
  {
    var rest := ignored + if portView == "" then "" else ":" + portView;
    BracketedText(name, rest);
    Text.FindIsFirst(rest, ':', 0, |ignored|);
    hide Text.Find;
    if portView == "" {
      assert rest == ignored;
    } else {
      assert rest[|ignored| + 1..] == portView;
    }
  }

  lemma HostExactly(host: string, name: string, portView: string)
    ensures HostAndPort(host) == Ok((name, portView)) <==> HostSpelled(host, name, portView)
  {
    hide SplitPair;
    if host != "" && host[0] == '[' {
      BracketsExactly(host, name, portView);
    } else {
      PairExactly(host, ':', true, name, portView);
    }
  }

  predicate AllDecimal(s: string) {
    forall i :: 0 <= i < |s| ==> IsDigit(s[i])
  }

  /** Leading digits that make a number of sixteen bits; anything behind them is ignored. */
  ghost predicate PortSpelled(portView: string, port: nat) {
    if portView == "" then port == 0
    else exists n :: 0 < n <= |portView| && AllDecimal(portView[..n]) && (n < |portView| ==> !IsDigit(portView[n]))
           && Number(portView[..n]) == port <= 65535
  }

  lemma {:induction false} DigitCountIs(s: string, n: nat)
    requires n <= |s| && AllDecimal(s[..n]) && (n < |s| ==> !IsDigit(s[n]))
    ensures DigitCount(s) == n
  {
    if n > 0 {
      assert s[..n][0] == s[0];
      assert s[1..][..n - 1] == s[..n][1..];
      DigitCountIs(s[1..], n - 1);
    }
  }

  lemma PortExactly(portView: string, port: nat)
    ensures (if portView == "" then Ok(0) else FromChars(portView)) == Ok(port) <==> PortSpelled(portView, port)
  {
    if portView != "" {
      var n := DigitCount(portView);
      assert AllDecimal(portView[..n]);
      forall k | 0 < k <= |portView| && AllDecimal(portView[..k]) && (k < |portView| ==> !IsDigit(portView[k]))
        ensures k == n
      {
        DigitCountIs(portView, k);
      }
      hide DigitCount, Number;
    }
  }

  /** A query starts at the first question mark; it, or a path without one, ends at a NUL. */
  ghost predicate TailSpelled(tail: string, path: string, query: string) {
    if '?' !in tail then query == "" && path == UntilNul(tail)
    else
      && '?' !in path
      && exists rest: string :: tail == path + rest && rest != "" && rest[0] == '?' && query == UntilNul(rest)
  }

  lemma TailExactly(tail: string, path: string, query: string)
    ensures PathOf(tail) == path && QueryOf(tail) == query <==> TailSpelled(tail, path, query)
  {
    hide UntilNul;
    var n := Text.Find(tail, '?', 0);
    if '?' in tail {
      assert n < |tail|;
      assert tail == tail[..n] + tail[n..];
      if TailSpelled(tail, path, query) {
        var rest: string :| tail == path + rest && rest != "" && rest[0] == '?' && query == UntilNul(rest);
        Text.FindIsFirst(tail, '?', 0, |path|);
        assert tail[|path|..] == rest;
      }
    }
  }

  predicate SchemeSpelled(first: string, scheme: string) {
    first == scheme + ":" || (first == scheme && (scheme == "" || scheme[|scheme| - 1] != ':'))
  }

  lemma SchemeExactly(first: string, scheme: string)
    ensures Scheme(first) == scheme <==> SchemeSpelled(first, scheme)
  {
    if first != "" && first[|first| - 1] == ':' {
      assert first == first[..|first| - 1] + ":";
    }
  }

  ghost predicate UserSpelled(userInfo: string, login: string, password: string) {
    if userInfo == "" then login == "" && password == "" else PairSpelled(userInfo, ':', true, login, password)
  }

  ghost predicate PartsSpelled(first: string, authority: string, tail: string, u: Url) {
    && SchemeSpelled(first, u.scheme) && TailSpelled(tail, u.path, u.query)
    && exists userInfo, host :: PairSpelled(authority, '@', false, userInfo, host)
         && UserSpelled(userInfo, u.login, u.password)
         && HostSpelled(host, u.host, u.portView) && PortSpelled(u.portView, u.port)
  }

  lemma AuthorityExactly(first: string, authority: string, tail: string, u: Url, userInfo: string, host: string)
    requires SplitPair(authority, '@', false) == Ok((userInfo, host))
    ensures ParseParts(first, authority, tail) == Ok(u)
       <==> Scheme(first) == u.scheme && PathOf(tail) == u.path && QueryOf(tail) == u.query
            && UserSpelled(userInfo, u.login, u.password)
            && HostSpelled(host, u.host, u.portView) && PortSpelled(u.portView, u.port)
  {
    hide SplitPair, HostAndPort, FromChars, Scheme, PathOf, QueryOf, PairSpelled, HostSpelled, PortSpelled;
    PairExactly(userInfo, ':', true, u.login, u.password);
    HostExactly(host, u.host, u.portView);
    PortExactly(u.portView, u.port);
    var user := if userInfo == "" then Ok(("", "")) else SplitPair(userInfo, ':', true);
    var place := HostAndPort(host);
    if user.Ok? && place.Ok? {
      assert user == Ok((user.value.0, user.value.1)) && place == Ok((place.value.0, place.value.1));
      var port := if place.value.1 == "" then Ok(0) else FromChars(place.value.1);
      if port.Ok? {
        assert ParseParts(first, authority, tail)
            == Ok(Url(Scheme(first), user.value.0, user.value.1, place.value.0, place.value.1, port.value,
                      PathOf(tail), QueryOf(tail)));
      }
    }
  }

  lemma PartsExactly(first: string, authority: string, tail: string, u: Url)
    ensures ParseParts(first, authority, tail) == Ok(u) <==> PartsSpelled(first, authority, tail, u)
  {
    hide SplitPair, HostAndPort, FromChars, Scheme, PathOf, QueryOf, PairSpelled, HostSpelled, PortSpelled, UserSpelled,
         SchemeSpelled, TailSpelled;
    SchemeExactly(first, u.scheme);
    TailExactly(tail, u.path, u.query);
    var pair := SplitPair(authority, '@', false);
    if pair.Ok? {
      AuthorityExactly(first, authority, tail, u, pair.value.0, pair.value.1);
      PairExactly(authority, '@', false, pair.value.0, pair.value.1);
    }
    forall userInfo, host | PairSpelled(authority, '@', false, userInfo, host) ensures pair == Ok((userInfo, host)) {
      PairExactly(authority, '@', false, userInfo, host);
    }
  }

  /** The text in three parts: up to the two slashes, the authority, and everything from the next slash. */
  predicate InParts(url: string, first: string, authority: string, tail: string) {
    && url == first + "//" + authority + tail && '/' !in first && '/' !in authority && authority != ""
    && (tail == "" || tail[0] == '/')
  }

  lemma PartsOfAccepted(url: string, u: Url)
    requires Parse(url) == Ok(u)
    ensures exists first, authority, tail ::
              InParts(url, first, authority, tail) && ParseParts(first, authority, tail) == Ok(u)
  {
    hide Text.Split, ParseParts;
    var columns := Text.Split(url, '/');
    Text.SplitColumnsAreFree(url, '/');
    ColumnsFit(url);
    var pos := |columns[0]| + 1 + |columns[1]| + 1 + |columns[2]|;
    assert url == url[..pos] + url[pos..];
    assert columns[0] + "/" + columns[1] + "/" + columns[2] == columns[0] + "//" + columns[2];
    assert InParts(url, columns[0], columns[2], url[pos..]);
    assert ParseParts(columns[0], columns[2], url[pos..]) == Ok(u);
  }

  /** A text is accepted as `u` if and only if it is spelled by the components of `u`: what is refused is refused
      because no URL spells it. */
  lemma ParsesExactlyWhenSpelled(url: string, u: Url)
    ensures Parse(url) == Ok(u)
       <==> exists first, authority, tail ::
              InParts(url, first, authority, tail) && PartsSpelled(first, authority, tail, u)
  {
    hide Parse, ParseParts, PartsSpelled;
    if Parse(url) == Ok(u) {
      PartsOfAccepted(url, u);
      var first, authority, tail :| InParts(url, first, authority, tail) && ParseParts(first, authority, tail) == Ok(u);
      PartsExactly(first, authority, tail, u);
    }
    forall first, authority, tail | InParts(url, first, authority, tail) && PartsSpelled(first, authority, tail, u)
      ensures Parse(url) == Ok(u)
    {
      ParseThreeParts(first, authority, tail);
      PartsExactly(first, authority, tail, u);
    }
  }
}
