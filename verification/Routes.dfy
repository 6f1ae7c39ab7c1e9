/** Route patterns and the matching of a request target against them. */
module Routes {
  import Attributes
  import opened Common
  import Percent
  import Text

  datatype Handler = Http(id: nat) | WebSocket(id: nat) | Sse(id: nat)

  datatype Route = Route(path: string, segments: seq<string>, handler: Handler)

  class Request {
    const target: string
    var attributes: Attributes.Attributes

    constructor (target: string)
      ensures this.target == target
      ensures fresh(attributes) && attributes.entries == map[]
    {
      this.target := target;
      attributes := new Attributes.Attributes.Empty();
    }
  }

  /** The route constructors: all of them cut the path the same way. */
  method NewRoute(path: string, handler: Handler) returns (r: Result<Route>)
    ensures r.Ok? <==> path != "" && path[0] == '/'
    ensures r.Ok? ==> r.value == Route(path, Text.Split(path, '/'), handler)
  {
    if path == "" || path[0] != '/' {
      return Invalid;
    }
    var columns := Text.SplitColumns(path, '/');
    var segments := [];
    for i := 0 to |columns|
      invariant segments == columns[..i]
    {
      segments := segments + [columns[i]];
    }
    r := Ok(Route(path, segments, handler));
  }

  predicate IsParameter(segment: string) {
    segment != "" && segment[0] == ':'
  }

  function TargetPath(target: string): string {
    Text.Split(target, '?')[0]
  }

  function TargetQuery(target: string): string {
    var pieces := Text.Split(target, '?');
    if |pieces| > 1 then pieces[1] else ""
  }

  predicate SegmentsMatch(segments: seq<string>, paths: seq<string>) {
    && |segments| == |paths|
    && forall i :: 0 <= i < |segments| ==> IsParameter(segments[i]) || segments[i] == paths[i]
  }

  predicate Matches(route: Route, target: string, isWebSocket: bool) {
    && route.handler.WebSocket? == isWebSocket
    && SegmentsMatch(route.segments, Text.Split(TargetPath(target), '/'))
  }

  function WithBinding(attrs: string, name: string, value: string): string {
    attrs + (if attrs == "" then "" else "&") + (name + "=" + value)
  }

  /** The attribute text after the first `n` segments. */
  function TextUpTo(segments: seq<string>, paths: seq<string>, query: string, n: nat): string
    requires n <= |segments| <= |paths|
  {
    if n == 0 then query
    else
      var attrs := TextUpTo(segments, paths, query, n - 1);
      if IsParameter(segments[n - 1])
      then WithBinding(attrs, segments[n - 1][1..], paths[n - 1])
      else attrs
  }

  function AttributeText(route: Route, target: string): string
    requires |route.segments| == |Text.Split(TargetPath(target), '/')|
  {
    TextUpTo(route.segments, Text.Split(TargetPath(target), '/'), TargetQuery(target), |route.segments|)
  }

  /** What a match stores: nothing bound is an empty store. */
  function Captured(route: Route, target: string): Attributes.Store
    requires |route.segments| == |Text.Split(TargetPath(target), '/')|
  {
    Attributes.Parsed(Text.Split(AttributeText(route, target), '&'))
  }

  method Match(route: Route, req: Request, isWebSocket: bool) returns (matched: bool)
    modifies req
    ensures matched == Matches(route, req.target, isWebSocket)
    ensures !matched ==> req.attributes == old(req.attributes)
    ensures matched ==>
              if AttributeText(route, req.target) == ""
              then req.attributes == old(req.attributes) && Captured(route, req.target) == map[]
              else fresh(req.attributes) && req.attributes.entries == Captured(route, req.target)
  {
    hide Text.Split, Attributes.Parsed, WithBinding;
    if isWebSocket && !route.handler.WebSocket? {
      return false;
    }
    if !isWebSocket && route.handler.WebSocket? {
      return false;
    }
    var pieces := Text.SplitColumns(req.target, '?');
    var paths := Text.SplitColumns(pieces[0], '/');
    if |route.segments| != |paths| {
      return false;
    }
    var attrs := if |pieces| > 1 then pieces[1] else "";
    for i := 0 to |route.segments|
      invariant forall j :: 0 <= j < i ==> IsParameter(route.segments[j]) || route.segments[j] == paths[j]
      invariant attrs == TextUpTo(route.segments, paths, TargetQuery(req.target), i)
    {
      var segment := route.segments[i];
      if segment != "" && segment[0] == ':' {
        attrs := WithBinding(attrs, segment[1..], paths[i]);
      } else if segment != paths[i] {
        return false;
      }
    }
    if attrs != "" {
      var attributes := new Attributes.Attributes(attrs, '&');
      req.attributes := attributes;
    } else {
      NothingCaptured();
    }
    return true;
  }

  lemma NothingCaptured()
    ensures Attributes.Parsed(Text.Split("", '&')) == map[]
    ensures Attributes.Parsed([]) == map[]
  {
    Text.SplitWhole("", '&');
    Text.SplitWhole("", '=');
  }

  // ----------------------------------------------------- from a pattern to a target

  /** The bindings of the first `n` segments, in the form the attribute parser reads. */
  function Pairs(segments: seq<string>, paths: seq<string>, n: nat): seq<string>
    requires n <= |segments| <= |paths|
  {
    if n == 0 then []
    else if IsParameter(segments[n - 1])
    then Pairs(segments, paths, n - 1) + [segments[n - 1][1..] + "=" + paths[n - 1]]
    else Pairs(segments, paths, n - 1)
  }

  lemma {:induction false} AttributeColumns(segments: seq<string>, paths: seq<string>, query: string, n: nat)
    requires n <= |segments| <= |paths|
    requires forall i :: 0 <= i < n && IsParameter(segments[i]) ==> '&' !in segments[i] && '&' !in paths[i]
    ensures var text := TextUpTo(segments, paths, query, n);
            && (query == "" && Pairs(segments, paths, n) == [] ==> text == "")
            && (query == "" && Pairs(segments, paths, n) != [] ==>
                  text != "" && Text.Split(text, '&') == Pairs(segments, paths, n))
            && (query != "" ==>
                  text != "" && Text.Split(text, '&') == Text.Split(query, '&') + Pairs(segments, paths, n))
  {
    hide Text.Split;
    if n == 0 {
    } else {
      AttributeColumns(segments, paths, query, n - 1);
      if IsParameter(segments[n - 1]) {
        var attrs := TextUpTo(segments, paths, query, n - 1);
        var pair := segments[n - 1][1..] + "=" + paths[n - 1];
        assert pair[|segments[n - 1]| - 1] == '=';
        Text.SplitWhole(pair, '&');
        Text.SplitConcat(attrs, '&', pair);
        assert attrs + "&" + pair == attrs + ['&'] + pair;
        assert attrs == "" ==> "" + "" + pair == pair;
      }
    }
  }

  /** Query bindings take precedence over path bindings: they come first in the text. */
  lemma CapturedIsQueryOverPath(segments: seq<string>, paths: seq<string>, query: string)
    requires |segments| == |paths|
    requires forall i :: 0 <= i < |segments| && IsParameter(segments[i]) ==> '&' !in segments[i] && '&' !in paths[i]
    ensures Attributes.Parsed(Text.Split(TextUpTo(segments, paths, query, |segments|), '&'))
         == Attributes.Parsed(Pairs(segments, paths, |segments|)) + Attributes.Parsed(Text.Split(query, '&'))
  {
    hide Text.Split, Attributes.Parsed;
    var n := |segments|;
    AttributeColumns(segments, paths, query, n);
    NothingCaptured();
    if query != "" {
      Attributes.ParsedConcat(Text.Split(query, '&'), Pairs(segments, paths, n));
    }
  }

  /** The value a name is given, or nothing where the name is not a parameter. */
  type Values = map<string, Text.bytes>

  ghost predicate GivesEveryParameter(values: Values, segments: seq<string>) {
    forall i :: 0 <= i < |segments| && IsParameter(segments[i]) ==> segments[i][1..] in values
  }

  /** The pattern with every parameter replaced by its escaped value. */
  ghost function Substituted(segments: seq<string>, values: Values): (paths: seq<string>)
    requires GivesEveryParameter(values, segments)
    ensures |paths| == |segments|
    ensures forall i :: 0 <= i < |segments| ==>
              paths[i] == if IsParameter(segments[i]) then Percent.Escaped(values[segments[i][1..]]) else segments[i]
  {
    seq(|segments|, i requires 0 <= i < |segments| =>
      if IsParameter(segments[i]) then Percent.Escaped(values[segments[i][1..]]) else segments[i])
  }

  /** A pattern that a target can spell: what `NewRoute` makes has '/'-free segments; names are
      free of the query's delimiters and static segments of the mark that starts a query. */
  ghost predicate Spellable(segments: seq<string>) {
    && segments != [] && Text.AllFree(segments, '/')
    && forall i :: 0 <= i < |segments| ==>
         if IsParameter(segments[i]) then '&' !in segments[i] && '=' !in segments[i] else '?' !in segments[i]
  }

  lemma SubstitutedIsFree(segments: seq<string>, values: Values)
    requires Spellable(segments) && GivesEveryParameter(values, segments)
    ensures Text.AllFree(Substituted(segments, values), '/')
    ensures Text.AllFree(Substituted(segments, values), '?')
  {
    hide Percent.Escaped;
    var paths := Substituted(segments, values);
    forall i | 0 <= i < |paths| ensures '/' !in paths[i] && '?' !in paths[i] {
      if IsParameter(segments[i]) {
        Percent.EscapeIsFree(values[segments[i][1..]], '/');
        Percent.EscapeIsFree(values[segments[i][1..]], '?');
      }
    }
  }

  lemma {:induction false} JoinIsFree(columns: seq<string>, sep: char, other: char)
    requires columns != [] && sep != other && Text.AllFree(columns, other)
    ensures other !in Text.Join(columns, sep)
  {
    if |columns| > 1 {
      JoinIsFree(columns[1..], sep, other);
    }
  }

  /** Reading back the pairs of a substituted pattern. */
  lemma {:induction false} PairsBindValues(segments: seq<string>, values: Values, n: nat)
    requires Spellable(segments) && GivesEveryParameter(values, segments) && n <= |segments|
    ensures var store := Attributes.Parsed(Pairs(segments, Substituted(segments, values), n));
            && (forall name :: name in store ==> name in values && store[name] == values[name])
            && (forall i :: 0 <= i < n && IsParameter(segments[i]) ==> segments[i][1..] in store)
  {
    hide Text.Split, Percent.Escaped, Percent.Unescaped, Attributes.Parsed, Attributes.InsertColumn;
    var paths := Substituted(segments, values);
    NothingCaptured();
    if n == 0 {
    } else {
      PairsBindValues(segments, values, n - 1);
      if IsParameter(segments[n - 1]) {
        var name, column := segments[n - 1][1..], segments[n - 1][1..] + "=" + paths[n - 1];
        var before := Pairs(segments, paths, n - 1);
        Percent.EscapeIsFree(values[name], '=');
        Percent.EscapeUnescape(values[name]);
        assert Attributes.Binds(column, name, paths[n - 1]);
        Attributes.ParsedSnoc(before, column);
        Attributes.BindingInserted(Attributes.Parsed(before), column, name, paths[n - 1]);
      }
    }
  }

  /** The route law: the target spelled by a pattern, its values and a query is matched, and every
      parameter is bound to exactly its value, except that a binding of its name in the query wins; what the query
      binds for other names is bound too. */
  lemma CaptureRoundTrip(route: Route, values: Values, query: string)
    requires Spellable(route.segments) && GivesEveryParameter(values, route.segments)
    ensures var path := Text.Join(Substituted(route.segments, values), '/');
            var target := if query == "" then path else path + "?" + query;
            var bound := Attributes.Parsed(Text.Split(Text.Split(query, '?')[0], '&'));
            && Matches(route, target, route.handler.WebSocket?)
            && (forall name :: name in bound ==>
                  name in Captured(route, target) && Captured(route, target)[name] == bound[name])
            && forall i :: 0 <= i < |route.segments| && IsParameter(route.segments[i]) ==>
                 var name := route.segments[i][1..];
                 && name in Captured(route, target)
                 && Captured(route, target)[name] == if name in bound then bound[name] else values[name]
  {
    hide Text.Split, Attributes.Parsed, Percent.Escaped, Percent.Unescaped, Text.Join;
    var segments := route.segments;
    var paths := Substituted(segments, values);
    var path := Text.Join(paths, '/');
    var target := if query == "" then path else path + "?" + query;
    SubstitutedIsFree(segments, values);
    JoinIsFree(paths, '/', '?');
    Text.SplitWhole(path, '?');
    Text.SplitWhole("", '?');
    assert path + "?" + query == path + ['?'] + query;
    Text.SplitConcat(path, '?', query);
    assert TargetPath(target) == path && TargetQuery(target) == Text.Split(query, '?')[0];
    Text.SplitJoin(paths, '/');
    forall i | 0 <= i < |segments| && IsParameter(segments[i]) ensures '&' !in segments[i] && '&' !in paths[i] {
      Percent.EscapeIsFree(values[segments[i][1..]], '&');
    }
    CapturedIsQueryOverPath(segments, paths, TargetQuery(target));
    PairsBindValues(segments, values, |segments|);
  }

  /** The precedence is observable: the path of `/u/5?id=6` says 5, the request is told 6. */
  lemma QueryShadowsPathParameter(handler: Handler)
    requires handler.Http?
    ensures var route := Route("/u/:id", ["", "u", ":id"], handler);
            && Matches(route, "/u/5?id=6", false)
            && "id" in Captured(route, "/u/5?id=6") && Captured(route, "/u/5?id=6")["id"] == "6"
  {
    hide Text.Split, Attributes.Parsed, Percent.Unescaped, Percent.Escaped, Captured;
    var values: Values := map["id" := "5"];
    ExampleTarget(values);
    ExampleQuery();
    CaptureRoundTrip(Route("/u/:id", ["", "u", ":id"], handler), values, "id=6");
    assert "/u/5" + "?" + "id=6" == "/u/5?id=6";
    assert ["", "u", ":id"][2][1..] == "id";
  }

  lemma ExampleTarget(values: Values)
    requires values == map["id" := "5"]
    ensures GivesEveryParameter(values, ["", "u", ":id"])
    ensures Text.Join(Substituted(["", "u", ":id"], values), '/') == "/u/5"
  {
    hide Percent.Escaped;
    assert ["", "u", ":id"][2][1..] == "id";
    Percent.EscapeLeavesSafeTextAlone("5");
    assert Substituted(["", "u", ":id"], values) == ["", "u", "5"];
    assert ["", "u", "5"][1..] == ["u", "5"] && ["u", "5"][1..] == ["5"];
  }

  lemma ExampleQuery()
    ensures var bound := Attributes.Parsed(Text.Split(Text.Split("id=6", '?')[0], '&'));
            "id" in bound && bound["id"] == "6"
  {
    hide Text.Split, Attributes.Parsed, Percent.Unescaped, Percent.Escaped;
    Text.SplitWhole("id=6", '?');
    Text.SplitWhole("id=6", '&');
    assert Attributes.Binds("id=6", "id", "6");
    Attributes.FirstBindingWins(["id=6"], 0, "id", "6");
    Percent.EscapeUnescape("6");
    Percent.EscapeLeavesSafeTextAlone("6");
  }

  // --------------------------------------------------------- any target that matches

  /** `paths` is the pattern with any text, free of slashes, in the place of every parameter. */
  ghost predicate SpelledBy(segments: seq<string>, paths: seq<string>) {
    && paths != [] && Text.AllFree(paths, '/') && |paths| == |segments|
    && forall i :: 0 <= i < |segments| && !IsParameter(segments[i]) ==> paths[i] == segments[i]
  }

  /** Up to the first question mark. */
  lemma TargetPathIsBeforeQuery(target: string)
    ensures '?' !in TargetPath(target) && TargetPath(target) <= target
    ensures |TargetPath(target)| < |target| ==> target[|TargetPath(target)|] == '?'
  {
    hide Text.Split;
    var pieces := Text.Split(target, '?');
    Text.SplitColumnsAreFree(target, '?');
    Text.JoinSplit(target, '?');
    if |pieces| > 1 {
      assert target == pieces[0] + ['?'] + Text.Join(pieces[1..], '?');
    }
  }

  /** A route of the right kind matches exactly the targets whose path its pattern spells, with any path segment at
      all for a parameter. */
  lemma MatchesExactlyWhenSpelled(route: Route, target: string, isWebSocket: bool)
    ensures Matches(route, target, isWebSocket)
       <==> route.handler.WebSocket? == isWebSocket
            && exists paths :: SpelledBy(route.segments, paths) && TargetPath(target) == Text.Join(paths, '/')
  {
    hide Text.Split, Text.Join;
    var path := TargetPath(target);
    var columns := Text.Split(path, '/');
    Text.SplitColumnsAreFree(path, '/');
    Text.JoinSplit(path, '/');
    if Matches(route, target, isWebSocket) {
      assert SpelledBy(route.segments, columns);
    }
    forall paths | SpelledBy(route.segments, paths) && path == Text.Join(paths, '/') ensures columns == paths {
      Text.SplitJoin(paths, '/');
    }
  }

  /** Parameters have different names, free of the delimiters of a binding. */
  ghost predicate NamedApart(segments: seq<string>) {
    && (forall i :: 0 <= i < |segments| && IsParameter(segments[i]) ==> '&' !in segments[i] && '=' !in segments[i])
    && forall i, j :: 0 <= i < j < |segments| && IsParameter(segments[i]) && IsParameter(segments[j]) ==>
         segments[i][1..] != segments[j][1..]
  }

  /** The parameter at `i` binds `name`: a value with an equals sign of its own would make three columns. */
  ghost predicate BindsAt(segments: seq<string>, paths: seq<string>, i: nat, name: string)
    requires i < |segments| == |paths|
  {
    IsParameter(segments[i]) && segments[i][1..] == name && '=' !in paths[i]
  }

  lemma ColumnInserted(m: Attributes.Store, name: string, value: string)
    requires '=' !in name
    ensures Attributes.InsertColumn(m, name + "=" + value)
         == if '=' in value then m else Attributes.Emplace(m, name, Percent.Unescaped(value))
  {
    hide Text.Split, Percent.Unescaped;
    var column := name + "=" + value;
    assert column == name + ['='] + value;
    Text.SplitConcat(name, '=', value);
    Text.SplitWhole(name, '=');
    if '=' in value {
      ManyColumns(value);
    } else {
      Text.SplitWhole(value, '=');
      assert Text.Split(column, '=') == [name, value];
    }
  }

  lemma ManyColumns(value: string)
    requires '=' in value
    ensures |Text.Split(value, '=')| > 1
  {
    hide Text.Split;
    Text.JoinSplit(value, '=');
    Text.SplitColumnsAreFree(value, '=');
  }

  /** The store holds what the first `n` segments bind. */
  ghost predicate HoldsBindings(store: Attributes.Store, segments: seq<string>, paths: seq<string>, n: nat)
    requires n <= |segments| == |paths|
  {
    && (forall name :: name in store ==> exists i :: 0 <= i < n && BindsAt(segments, paths, i, name))
    && (forall i, name :: 0 <= i < n && BindsAt(segments, paths, i, name) ==>
          name in store && store[name] == Percent.Unescaped(paths[i]))
  }

  lemma OneMoreBinding(store: Attributes.Store, segments: seq<string>, paths: seq<string>, n: nat)
    requires NamedApart(segments) && n < |segments| == |paths| && HoldsBindings(store, segments, paths, n)
    ensures HoldsBindings(if IsParameter(segments[n]) && '=' !in paths[n]
                          then Attributes.Emplace(store, segments[n][1..], Percent.Unescaped(paths[n]))
                          else store, segments, paths, n + 1)
  {
    hide Percent.Unescaped;
    if IsParameter(segments[n]) && '=' !in paths[n] {
      var name := segments[n][1..];
      assert BindsAt(segments, paths, n, name);
      assert forall i :: 0 <= i < n ==> !BindsAt(segments, paths, i, name);
      var more := Attributes.Emplace(store, name, Percent.Unescaped(paths[n]));
      forall other | other in more ensures exists i :: 0 <= i < n + 1 && BindsAt(segments, paths, i, other) {
        if other != name {
          var i :| 0 <= i < n && BindsAt(segments, paths, i, other);
        }
      }
    } else {
      forall other | other in store ensures exists i :: 0 <= i < n + 1 && BindsAt(segments, paths, i, other) {
        var i :| 0 <= i < n && BindsAt(segments, paths, i, other);
      }
    }
  }

  lemma {:induction false} PairsBind(segments: seq<string>, paths: seq<string>, n: nat)
    requires NamedApart(segments) && n <= |segments| == |paths|
    ensures HoldsBindings(Attributes.Parsed(Pairs(segments, paths, n)), segments, paths, n)
  {
    hide Percent.Unescaped, Attributes.Parsed, Attributes.InsertColumn, Attributes.Emplace, HoldsBindings;
    if n == 0 {
      NothingHeld(segments, paths);
    } else {
      var before, segment := Pairs(segments, paths, n - 1), segments[n - 1];
      assert Pairs(segments, paths, n)
          == if IsParameter(segment) then before + [segment[1..] + "=" + paths[n - 1]] else before;
      hide Pairs;
      PairsBind(segments, paths, n - 1);
      OneMoreBinding(Attributes.Parsed(before), segments, paths, n - 1);
      if IsParameter(segment) {
        Attributes.ParsedSnoc(before, segment[1..] + "=" + paths[n - 1]);
        NameIsFree(segments, n - 1);
        ColumnInserted(Attributes.Parsed(before), segment[1..], paths[n - 1]);
      }
    }
  }

  lemma NothingHeld(segments: seq<string>, paths: seq<string>)
    requires |segments| == |paths|
    ensures Pairs(segments, paths, 0) == [] && HoldsBindings(Attributes.Parsed([]), segments, paths, 0)
  {
    NothingCaptured();
    hide Percent.Unescaped;
  }

  lemma NameIsFree(segments: seq<string>, i: nat)
    requires NamedApart(segments) && i < |segments| && IsParameter(segments[i])
    ensures '=' !in segments[i][1..]
  {
  }

  /** What any match captures: everything that the query binds, and for every other parameter the decoded path
      segment in its place, unless that holds an equals sign. */
  lemma CapturesExactly(route: Route, target: string)
    requires Matches(route, target, route.handler.WebSocket?) && NamedApart(route.segments)
    requires forall i :: 0 <= i < |route.segments| && IsParameter(route.segments[i]) ==>
               '&' !in Text.Split(TargetPath(target), '/')[i]
    ensures var paths := Text.Split(TargetPath(target), '/');
            var bound := Attributes.Parsed(Text.Split(TargetQuery(target), '&'));
            var captured := Captured(route, target);
            && (forall name :: name in captured <==>
                  name in bound || exists i :: 0 <= i < |paths| && BindsAt(route.segments, paths, i, name))
            && (forall name :: name in bound ==> captured[name] == bound[name])
            && (forall i, name :: 0 <= i < |paths| && BindsAt(route.segments, paths, i, name) && name !in bound ==>
                  captured[name] == Percent.Unescaped(paths[i]))
  {
    hide Text.Split, Attributes.Parsed, Percent.Unescaped, BindsAt;
    var paths := Text.Split(TargetPath(target), '/');
    CapturedIsQueryOverPath(route.segments, paths, TargetQuery(target));
    PairsBind(route.segments, paths, |paths|);
    var path := Attributes.Parsed(Pairs(route.segments, paths, |paths|));
    var bound := Attributes.Parsed(Text.Split(TargetQuery(target), '&'));
    assert Captured(route, target) == path + bound;
    hide Captured;
    forall name | name in path ensures exists i :: 0 <= i < |paths| && BindsAt(route.segments, paths, i, name) {
    }
  }
}
