/** The order in which routes are tried, and the route a request is dispatched to. */
module Routing {
  import Attributes
  import opened Common
  import Text
  import opened Routes

  // ------------------------------------------------------------ the comparator

  /** `int` of the platforms the library builds on. */
  newtype int32 = x: int | -0x8000_0000 <= x < 0x8000_0000

  function Pow2(n: nat): (p: nat)
    ensures p >= 1
  {
    if n == 0 then 1 else 2 * Pow2(n - 1)
  }

  lemma {:induction false} Pow2Monotone(m: nat, n: nat)
    requires m <= n
    ensures Pow2(m) <= Pow2(n)
    decreases n - m
  {
    if m < n {
      Pow2Monotone(m, n - 1);
    }
  }

  lemma Pow2Thirty()
    ensures Pow2(30) == 0x4000_0000
  {
    assert Pow2(6) == 64;
    assert Pow2(12) == 4096;
    assert Pow2(18) == 0x4_0000;
    assert Pow2(24) == 0x100_0000;
  }

  /** The weight of a pattern: the binary number whose digits say which segments are parameters. */
  function Cost(segments: seq<string>): (c: nat)
    ensures c < Pow2(|segments|)
  {
    if segments == [] then 0
    else (if IsParameter(segments[0]) then Pow2(|segments| - 1) else 0) + Cost(segments[1..])
  }

  /** At `k` the two patterns part for the first time, `l` with the static segment. */
  predicate PartsAt(l: seq<string>, r: seq<string>, k: nat)
    requires k < |l| == |r|
  {
    && !IsParameter(l[k]) && IsParameter(r[k])
    && forall j :: 0 <= j < k ==> IsParameter(l[j]) == IsParameter(r[j])
  }

  /** Static before parameter, leftmost segment first. */
  predicate MoreSpecific(l: seq<string>, r: seq<string>)
    requires |l| == |r|
  {
    exists k :: 0 <= k < |l| && PartsAt(l, r, k)
  }

  predicate SameMask(l: seq<string>, r: seq<string>)
    requires |l| == |r|
  {
    forall i :: 0 <= i < |l| ==> IsParameter(l[i]) == IsParameter(r[i])
  }

  lemma {:induction false} CostOrder(l: seq<string>, r: seq<string>)
    requires |l| == |r|
    ensures MoreSpecific(l, r) ==> Cost(l) < Cost(r)
    ensures SameMask(l, r) ==> Cost(l) == Cost(r)
    ensures MoreSpecific(l, r) || MoreSpecific(r, l) || SameMask(l, r)
  {
    if l == [] {
    } else {
      var l', r' := l[1..], r[1..];
      CostOrder(l', r');
      if IsParameter(l[0]) == IsParameter(r[0]) {
        Shifted(l, r);
        Shifted(r, l);
      } else {
        assert PartsAt(l, r, 0) || PartsAt(r, l, 0);
      }
    }
  }

  lemma Shifted(l: seq<string>, r: seq<string>)
    requires |l| == |r| > 0 && IsParameter(l[0]) == IsParameter(r[0])
    ensures MoreSpecific(l, r) == MoreSpecific(l[1..], r[1..])
  {
    if MoreSpecific(l, r) {
      var k :| 0 <= k < |l| && PartsAt(l, r, k);
      assert PartsAt(l[1..], r[1..], k - 1);
    }
    if MoreSpecific(l[1..], r[1..]) {
      var k :| 0 <= k < |l[1..]| && PartsAt(l[1..], r[1..], k);
      assert PartsAt(l, r, k + 1) by {
        forall j | 0 <= j < k + 1 ensures IsParameter(l[j]) == IsParameter(r[j]) {
          assert j > 0 ==> IsParameter(l[1..][j - 1]) == IsParameter(r[1..][j - 1]);
        }
      }
    }
  }

  /** The weight order of the comparator is the lexicographic order of the masks. */
  lemma CostIsLexicographic(l: seq<string>, r: seq<string>)
    requires |l| == |r|
    ensures Cost(l) < Cost(r) <==> MoreSpecific(l, r)
    ensures Cost(l) == Cost(r) <==> SameMask(l, r)
  {
    CostOrder(l, r);
    CostOrder(r, l);
  }

  /** What the comparator decides. */
  predicate Precedes(l: Route, r: Route) {
    || |l.segments| < |r.segments|
    || (|l.segments| == |r.segments| && MoreSpecific(l.segments, r.segments))
  }

  /** The weighing loop on 32-bit integers: no operation overflows up to thirty segments. */
  method Weigh(lh: seq<string>, rh: seq<string>) returns (lhCost: int32, rhCost: int32)
    requires |lh| == |rh| <= 30
    ensures lhCost as int == Cost(lh) && rhCost as int == Cost(rh)
  {
    hide Pow2, Cost, IsParameter;
    NoWeights(lh);
    NoWeights(rh);
    lhCost, rhCost := 0, 0;
    var power: int32 := 1;
    var i := |lh| - 1;
    while i >= 0
      invariant -1 <= i < |lh|
      invariant power as int == Pow2(|lh| - 1 - i) <= 0x4000_0000
      invariant lhCost as int == Cost(lh[i + 1..]) < power as int
      invariant rhCost as int == Cost(rh[i + 1..]) < power as int
    {
      WeightsFit(lh, i);
      WeightsFit(rh, i);
      if IsParameter(lh[i]) {
        lhCost := lhCost + power;
      }
      if IsParameter(rh[i]) {
        rhCost := rhCost + power;
      }
      power := power * 2;
      i := i - 1;
    }
  }

  /** The comparator handed to `std::sort`. */
  method Less(lh: Route, rh: Route) returns (less: bool)
    requires |lh.segments| == |rh.segments| ==> |lh.segments| <= 30
    ensures less == Precedes(lh, rh)
  {
    hide MoreSpecific;
    var lhSegmentCount := |lh.segments|;
    var rhSegmentCount := |rh.segments|;
    if lhSegmentCount < rhSegmentCount {
      return true;
    }
    if lhSegmentCount > rhSegmentCount {
      return false;
    }
    var lhCost, rhCost := Weigh(lh.segments, rh.segments);
    CostIsLexicographic(lh.segments, rh.segments);
    return lhCost < rhCost;
  }

  lemma NoWeights(segments: seq<string>)
    ensures Cost(segments[|segments|..]) == 0 && Pow2(0) == 1
    ensures Cost(segments[0..]) == Cost(segments)
  {
    assert segments[0..] == segments;
  }

  lemma WeightsFit(segments: seq<string>, i: nat)
    requires i < |segments| <= 30
    ensures Cost(segments[i..])
         == (if IsParameter(segments[i]) then Pow2(|segments| - 1 - i) else 0) + Cost(segments[i + 1..])
    ensures Cost(segments[i..]) < Pow2(|segments| - i) == 2 * Pow2(|segments| - 1 - i) <= 0x4000_0000
  {
    assert segments[i..][1..] == segments[i + 1..];
    Pow2Monotone(|segments| - i, 30);
    Pow2Thirty();
  }

  /** The bound is sharp: `power` ends at 2^n, which an `int` holds up to n = 30 and no further. */
  lemma PowerFitsUpToThirtySegments(n: nat)
    ensures Pow2(n) < 0x8000_0000 <==> n <= 30
  {
    Pow2Thirty();
    if n <= 30 {
      Pow2Monotone(n, 30);
    } else {
      Pow2Monotone(31, n);
    }
  }

  /** What `std::sort` asks of a comparator. */
  lemma PrecedesIsStrictWeakOrder(a: Route, b: Route, c: Route)
    ensures !Precedes(a, a)
    ensures Precedes(a, b) ==> !Precedes(b, a)
    ensures Precedes(a, b) && Precedes(b, c) ==> Precedes(a, c)
    ensures !Precedes(a, b) && !Precedes(b, c) ==> !Precedes(a, c)
  {
    hide MoreSpecific, Cost;
    forall x, y | x in [a, b, c] && y in [a, b, c] && |x.segments| == |y.segments|
      ensures MoreSpecific(x.segments, y.segments) <==> Cost(x.segments) < Cost(y.segments)
    {
      CostIsLexicographic(x.segments, y.segments);
    }
    assert a in [a, b, c] && b in [a, b, c] && c in [a, b, c];
  }

  // ------------------------------------------------------------ the sorted table

  ghost predicate Sorted(routes: seq<Route>) {
    forall i, j :: 0 <= i < j < |routes| ==> !Precedes(routes[j], routes[i])
  }

  /** Every table that an unstable sort of `routes` may leave. */
  ghost predicate IsSortOf(table: seq<Route>, routes: seq<Route>) {
    multiset(table) == multiset(routes) && Sorted(table)
  }

  /** `r` in front of the first entry that does not precede it. */
  function Insert(table: seq<Route>, r: Route): (t: seq<Route>)
    ensures multiset(t) == multiset(table) + multiset{r}
  {
    if table == [] || !Precedes(table[0], r) then [r] + table
    else
      assert table == [table[0]] + table[1..];
      [table[0]] + Insert(table[1..], r)
  }

  lemma {:induction false} InsertSorted(table: seq<Route>, r: Route)
    requires Sorted(table)
    ensures Sorted(Insert(table, r))
  {
    var t := Insert(table, r);
    if table == [] {
    } else if !Precedes(table[0], r) {
      forall j | 0 < j < |t| ensures !Precedes(t[j], t[0]) {
        PrecedesIsStrictWeakOrder(table[j - 1], table[0], r);
      }
    } else {
      var rest := Insert(table[1..], r);
      InsertSorted(table[1..], r);
      forall x | x in rest ensures !Precedes(x, table[0]) {
        assert x in multiset(rest);
        PrecedesIsStrictWeakOrder(table[0], r, r);
        assert x in multiset(table[1..]) || x == r;
      }
    }
  }

  function Sort(routes: seq<Route>): (t: seq<Route>)
    ensures multiset(t) == multiset(routes)
  {
    if routes == [] then []
    else
      assert routes == [routes[0]] + routes[1..];
      Insert(Sort(routes[1..]), routes[0])
  }

  lemma {:induction false} SortSorts(routes: seq<Route>)
    ensures IsSortOf(Sort(routes), routes)
  {
    if routes == [] {
    } else {
      SortSorts(routes[1..]);
      InsertSorted(Sort(routes[1..]), routes[0]);
    }
  }

  lemma SameMembers<T>(a: seq<T>, b: seq<T>)
    requires multiset(a) == multiset(b)
    ensures forall x :: x in a <==> x in b
  {
    forall x ensures x in a <==> x in b {
      assert x in a <==> x in multiset(a);
      assert x in b <==> x in multiset(b);
    }
  }

  ghost predicate Both(routes: multiset<Route>, l: Route, r: Route) {
    multiset{l, r} <= routes
  }

  /** The weighing loop is entered for two routes with the same number of segments only. */
  ghost predicate FitInt(routes: multiset<Route>) {
    forall l, r :: Both(routes, l, r) && |l.segments| == |r.segments| ==> |l.segments| <= 30
  }

  lemma {:induction false} InsertHere(table: seq<Route>, r: Route, k: nat)
    requires k <= |table|
    requires forall j :: 0 <= j < k ==> Precedes(table[j], r)
    requires k < |table| ==> !Precedes(table[k], r)
    ensures Insert(table, r) == table[..k] + [r] + table[k..]
  {
    hide Precedes;
    if k > 0 {
      var head, front, back := [table[0]], table[1..][..k - 1], table[k..];
      InsertHere(table[1..], r, k - 1);
      assert Insert(table, r) == head + Insert(table[1..], r);
      assert table[1..][k - 1..] == back && table[..k] == head + front;
      hide Insert;
      Common.Associative(head, front + [r], back);
      Common.Associative(head, front, [r]);
    }
  }

  /** The place of `r` in a sorted table. */
  method InsertionPoint(table: seq<Route>, r: Route) returns (k: nat)
    requires forall x :: x in table && |x.segments| == |r.segments| ==> |r.segments| <= 30
    ensures k <= |table| && table[..k] + [r] + table[k..] == Insert(table, r)
  {
    hide Precedes;
    k := 0;
    while k < |table|
      invariant k <= |table|
      invariant forall j :: 0 <= j < k ==> Precedes(table[j], r)
    {
      var less := Less(table[k], r);
      if !less {
        break;
      }
      k := k + 1;
    }
    InsertHere(table, r, k);
  }

  lemma InsertKeepsSort(table: seq<Route>, routes: seq<Route>, r: Route)
    requires IsSortOf(table, routes)
    ensures IsSortOf(Insert(table, r), routes + [r])
  {
    hide Insert, Precedes;
    InsertSorted(table, r);
  }

  /** The library sort. Callers know its contract only, which leaves the order of ties open. */
  method StdSort(routes: seq<Route>) returns (table: seq<Route>)
    requires FitInt(multiset(routes))
    ensures IsSortOf(table, routes)
  {
    SortSorts([]);
    hide IsSortOf, FitInt, Insert;
    table := [];
    for i := 0 to |routes|
      invariant IsSortOf(table, routes[..i])
    {
      EarlierRoutesFit(table, routes, i);
      var r := routes[i];
      var k := InsertionPoint(table, r);
      InsertKeepsSort(table, routes[..i], r);
      assert routes[..i + 1] == routes[..i] + [r];
      table := table[..k] + [r] + table[k..];
    }
    assert routes[..|routes|] == routes;
  }

  lemma EarlierRoutesFit(table: seq<Route>, routes: seq<Route>, i: nat)
    requires i < |routes| && IsSortOf(table, routes[..i]) && FitInt(multiset(routes))
    ensures forall x :: x in table && |x.segments| == |routes[i].segments| ==> |routes[i].segments| <= 30
  {
    hide Sorted;
    forall x | x in table && |x.segments| == |routes[i].segments| ensures |routes[i].segments| <= 30 {
      assert x in multiset(table);
      BothInPrefix(routes, i, x);
    }
  }

  lemma BothInPrefix(routes: seq<Route>, i: nat, l: Route)
    requires i < |routes| && l in multiset(routes[..i])
    ensures Both(multiset(routes), l, routes[i])
  {
    assert routes == routes[..i] + [routes[i]] + routes[i + 1..];
  }

  // ------------------------------------------------------------ first match

  /** The index at which the loop over a table stops. */
  function FirstMatch(table: seq<Route>, target: string, isWebSocket: bool): (i: nat)
    ensures i <= |table|
    ensures forall j :: 0 <= j < i ==> !Matches(table[j], target, isWebSocket)
    ensures i < |table| ==> Matches(table[i], target, isWebSocket)
  {
    if table == [] || Matches(table[0], target, isWebSocket) then 0
    else 1 + FirstMatch(table[1..], target, isWebSocket)
  }

  function Selected(table: seq<Route>, target: string, isWebSocket: bool): Option<Route> {
    var i := FirstMatch(table, target, isWebSocket);
    if i < |table| then Some(table[i]) else None
  }

  lemma SelectedUnfolds(table: seq<Route>, target: string, isWebSocket: bool)
    requires table != []
    ensures Selected(table, target, isWebSocket)
         == if Matches(table[0], target, isWebSocket) then Some(table[0])
            else Selected(table[1..], target, isWebSocket)
  {
    hide Matches;
  }

  /** Of all the routes that match a target, `r` has the lexicographically least mask. */
  ghost predicate MostSpecificMatch(r: Route, routes: seq<Route>, target: string, isWebSocket: bool) {
    && r in routes && Matches(r, target, isWebSocket)
    && forall x :: x in routes && Matches(x, target, isWebSocket) ==>
         |x.segments| == |r.segments| && !MoreSpecific(x.segments, r.segments)
  }

  /** Whatever order the routes were registered in and however ties fell, a most specific route is found. */
  lemma FirstMatchIsMostSpecific(table: seq<Route>, routes: seq<Route>, target: string, isWebSocket: bool)
    requires IsSortOf(table, routes)
    ensures match Selected(table, target, isWebSocket)
            case Some(r) => MostSpecificMatch(r, routes, target, isWebSocket)
            case None => forall x :: x in routes ==> !Matches(x, target, isWebSocket)
  {
    SameMembers(table, routes);
    var i := FirstMatch(table, target, isWebSocket);
    if i < |table| {
      forall x | x in routes && Matches(x, target, isWebSocket)
        ensures |x.segments| == |table[i].segments| && !MoreSpecific(x.segments, table[i].segments)
      {
        var j :| 0 <= j < |table| && table[j] == x;
        PrecedesIsStrictWeakOrder(x, x, x);
        assert j >= i;
      }
    }
  }

  // ------------------------------------------------------------ the router

  /** HTTP verbs, by the number the HTTP library gives them. */
  type Verb = nat

  datatype Dispatch = UnsupportedMethod | NotFound | Chosen(route: Route)

  class Router {
    var routes: map<Verb, seq<Route>>
    ghost var registered: map<Verb, seq<Route>>

    ghost predicate Valid()
      reads this
    {
      && routes.Keys == registered.Keys
      && forall v :: v in routes ==> IsSortOf(routes[v], registered[v])
    }

    constructor ()
      ensures Valid() && registered == map[]
    {
      routes, registered := map[], map[];
    }

    ghost function Registered(v: Verb): seq<Route>
      reads this
    {
      if v in registered then registered[v] else []
    }

    /** No two routes of a verb may have the same number of segments beyond thirty. */
    method AddRoute(v: Verb, r: Route)
      requires Valid() && FitInt(multiset(Registered(v) + [r]))
      modifies this
      ensures Valid()
      ensures registered == old(registered)[v := old(Registered(v)) + [r]]
    {
      var table := if v in routes then routes[v] else [];
      ghost var before := Registered(v);
      assert multiset(table + [r]) == multiset(before + [r]);
      var sorted := StdSort(table + [r]);
      routes := routes[v := sorted];
      registered := registered[v := before + [r]];
    }

    /** Verb lookup and first-match loop of a session. The request is told what the chosen route captured. */
    method HandleRequest(v: Verb, req: Request, isWebSocket: bool) returns (d: Dispatch)
      requires Valid()
      modifies req
      ensures d == UnsupportedMethod <==> v !in registered
      ensures d == NotFound <==>
                v in registered && forall x :: x in registered[v] ==> !Matches(x, req.target, isWebSocket)
      ensures d.Chosen? ==>
                && v in registered && MostSpecificMatch(d.route, registered[v], req.target, isWebSocket)
                && if AttributeText(d.route, req.target) == "" then req.attributes == old(req.attributes)
                   else fresh(req.attributes) && req.attributes.entries == Captured(d.route, req.target)
      ensures !d.Chosen? ==> req.attributes == old(req.attributes)
      ensures d.Chosen? ==> v in routes && Selected(routes[v], req.target, isWebSocket) == Some(d.route)
    {
      hide Matches, MoreSpecific, Captured, AttributeText;
      if v !in routes {
        return UnsupportedMethod;
      }
      var table := routes[v];
      FirstMatchIsMostSpecific(table, registered[v], req.target, isWebSocket);
      for i := 0 to |table|
        invariant FirstMatch(table, req.target, isWebSocket) >= i
        invariant req.attributes == old(req.attributes)
      {
        var matched := Match(table[i], req, isWebSocket);
        if matched {
          return Chosen(table[i]);
        }
      }
      return NotFound;
    }
  }

  // ------------------------------------------------------------ order independence

  /** Every registration order and every way ties can fall select the same route for every target. */
  ghost predicate OrderIndependent(routes: seq<Route>) {
    forall a, b, target, isWebSocket :: IsSortOf(a, routes) && IsSortOf(b, routes) ==>
      Selected(a, target, isWebSocket) == Selected(b, target, isWebSocket)
  }

  ghost predicate EqualUpToNames(l: seq<string>, r: seq<string>) {
    && |l| == |r| && SameMask(l, r)
    && forall i :: 0 <= i < |l| && !IsParameter(l[i]) ==> l[i] == r[i]
  }

  /** Some target can spell the pattern: no static segment holds the mark that starts a query. */
  ghost predicate Reachable(segments: seq<string>) {
    forall i :: 0 <= i < |segments| && !IsParameter(segments[i]) ==> '?' !in segments[i]
  }

  /** Two different routes of one kind that differ in parameter names only. */
  ghost predicate Ambiguous(l: Route, r: Route) {
    && l != r && l.handler.WebSocket? == r.handler.WebSocket?
    && EqualUpToNames(l.segments, r.segments) && Reachable(l.segments)
  }

  lemma MatchingAlikeIsAmbiguous(l: Route, r: Route, target: string, isWebSocket: bool)
    requires Matches(l, target, isWebSocket) && Matches(r, target, isWebSocket) && l != r
    requires SameMask(l.segments, r.segments)
    ensures Ambiguous(l, r)
  {
    hide Text.Split;
    var path := TargetPath(target);
    var paths := Text.Split(path, '/');
    Text.SplitColumnsAreFree(target, '?');
    Text.JoinSplit(path, '/');
    forall i | 0 <= i < |l.segments| && !IsParameter(l.segments[i]) ensures '?' !in l.segments[i] {
      ColumnWithin(paths, '/', i);
    }
  }

  lemma {:induction false} ColumnWithin(columns: seq<string>, sep: char, i: nat)
    requires i < |columns|
    ensures forall c :: c in columns[i] ==> c in Text.Join(columns, sep)
  {
    if i > 0 {
      ColumnWithin(columns[1..], sep, i - 1);
    }
  }

  lemma UnambiguousIsOrderIndependent(routes: seq<Route>)
    requires forall l, r :: l in routes && r in routes ==> !Ambiguous(l, r)
    ensures OrderIndependent(routes)
  {
    forall a, b, target, isWebSocket | IsSortOf(a, routes) && IsSortOf(b, routes)
      ensures Selected(a, target, isWebSocket) == Selected(b, target, isWebSocket)
    {
      hide Matches, MoreSpecific, Selected, SameMask, Sorted;
      FirstMatchIsMostSpecific(a, routes, target, isWebSocket);
      FirstMatchIsMostSpecific(b, routes, target, isWebSocket);
      var x, y := Selected(a, target, isWebSocket), Selected(b, target, isWebSocket);
      if x.Some? && y.Some? && x != y {
        CostOrder(x.value.segments, y.value.segments);
        MatchingAlikeIsAmbiguous(x.value, y.value, target, isWebSocket);
        assert false;
      }
    }
  }

  /** A parameter value that no registered segment equals. */
  function Filler(n: nat): (f: string)
    ensures |f| == n + 1 && f[0] == 'x' && '/' !in f && '?' !in f
  {
    if n == 0 then "x" else "x" + Filler(n - 1)
  }

  function LongestSegment(segments: seq<string>): (n: nat)
    ensures forall s :: s in segments ==> |s| <= n
  {
    if segments == [] then 0
    else
      var n := LongestSegment(segments[1..]);
      if |segments[0]| > n then |segments[0]| else n
  }

  function LongestIn(routes: seq<Route>): (n: nat)
    ensures forall r, s :: r in routes && s in r.segments ==> |s| <= n
  {
    if routes == [] then 0
    else
      var n, m := LongestIn(routes[1..]), LongestSegment(routes[0].segments);
      if m > n then m else n
  }

  ghost function Filled(segments: seq<string>, filler: string): (paths: seq<string>)
    ensures |paths| == |segments|
    ensures forall i :: 0 <= i < |paths| ==> paths[i] == if IsParameter(segments[i]) then filler else segments[i]
  {
    seq(|segments|, i requires 0 <= i < |segments| => if IsParameter(segments[i]) then filler else segments[i])
  }

  /** The target that spells `l` and leaves no room for a more specific route of the table. */
  ghost function Probe(l: Route, routes: seq<Route>): string
    requires l.segments != []
  {
    Text.Join(Filled(l.segments, Filler(LongestIn(routes))), '/')
  }

  lemma ProbePaths(l: Route, routes: seq<Route>)
    requires l.segments != [] && Text.AllFree(l.segments, '/') && Reachable(l.segments)
    ensures Text.Split(TargetPath(Probe(l, routes)), '/') == Filled(l.segments, Filler(LongestIn(routes)))
  {
    hide Text.Split, Text.Join;
    var paths := Filled(l.segments, Filler(LongestIn(routes)));
    assert Text.AllFree(paths, '/') && Text.AllFree(paths, '?');
    JoinIsFree(paths, '/', '?');
    Text.SplitWhole(Probe(l, routes), '?');
    Text.SplitJoin(paths, '/');
  }

  lemma ProbeMatches(l: Route, r: Route, routes: seq<Route>)
    requires l.segments != [] && Text.AllFree(l.segments, '/') && Reachable(l.segments)
    requires EqualUpToNames(l.segments, r.segments) && l.handler.WebSocket? == r.handler.WebSocket?
    ensures Matches(r, Probe(l, routes), l.handler.WebSocket?)
  {
    hide Text.Split, Probe;
    ProbePaths(l, routes);
  }

  /** With `r` inserted in front of its ties, the probe selects it. */
  lemma {:induction false} ProbeSelects(l: Route, r: Route, routes: seq<Route>, table: seq<Route>)
    requires l.segments != [] && Text.AllFree(l.segments, '/') && Reachable(l.segments)
    requires EqualUpToNames(l.segments, r.segments) && l.handler.WebSocket? == r.handler.WebSocket?
    requires forall x :: x in table ==> x in routes
    ensures Selected(Insert(table, r), Probe(l, routes), l.handler.WebSocket?) == Some(r)
  {
    hide Probe, Matches, Precedes, Selected, FirstMatch;
    var target, isWebSocket := Probe(l, routes), l.handler.WebSocket?;
    ProbeMatches(l, r, routes);
    SelectedUnfolds(Insert(table, r), target, isWebSocket);
    if table == [] || !Precedes(table[0], r) {
    } else {
      ProbeSkips(l, r, routes, table[0]);
      ProbeSelects(l, r, routes, table[1..]);
      assert Insert(table, r)[1..] == Insert(table[1..], r);
    }
  }

  lemma ProbeSkips(l: Route, r: Route, routes: seq<Route>, x: Route)
    requires l.segments != [] && Text.AllFree(l.segments, '/') && Reachable(l.segments)
    requires EqualUpToNames(l.segments, r.segments)
    requires x in routes && Precedes(x, r)
    ensures !Matches(x, Probe(l, routes), l.handler.WebSocket?)
  {
    hide Text.Split, Probe;
    ProbePaths(l, routes);
    if |x.segments| == |r.segments| {
      var k :| 0 <= k < |x.segments| && PartsAt(x.segments, r.segments, k);
      assert IsParameter(l.segments[k]);
      assert x.segments[k] in x.segments;
    }
  }

  lemma AmbiguousDependsOnOrder(routes: seq<Route>, l: Route, r: Route)
    requires l in routes && r in routes && Ambiguous(l, r)
    requires l.segments != [] && Text.AllFree(l.segments, '/')
    ensures !OrderIndependent(routes)
  {
    var a := PutFirst(routes, l);
    var b := PutFirst(routes, r);
    ProbeSelects(l, l, routes, a);
    ProbeSelects(l, r, routes, b);
    var target, isWebSocket := Probe(l, routes), l.handler.WebSocket?;
    assert Selected(Insert(a, l), target, isWebSocket) != Selected(Insert(b, r), target, isWebSocket);
  }

  /** A sorted rest of the table, into which `r` can be put in front of its ties. */
  lemma PutFirst(routes: seq<Route>, r: Route) returns (rest: seq<Route>)
    requires r in routes
    ensures IsSortOf(Insert(rest, r), routes)
    ensures forall x :: x in rest ==> x in routes
  {
    var i :| 0 <= i < |routes| && routes[i] == r;
    var others := routes[..i] + routes[i + 1..];
    assert routes == routes[..i] + [r] + routes[i + 1..];
    rest := Sort(others);
    SortSorts(others);
    hide Insert, Sort, Precedes, Sorted;
    SameMembers(rest, others);
    InsertKeepsSort(rest, others, r);
    assert multiset(others + [r]) == multiset(routes);
  }

  /** Dispatch is independent of registration order exactly when no two reachable routes of one kind
      are equal up to parameter names. */
  lemma OrderIndependence(routes: seq<Route>)
    requires forall r :: r in routes ==> r.segments != [] && Text.AllFree(r.segments, '/')
    ensures OrderIndependent(routes) <==> forall l, r :: l in routes && r in routes ==> !Ambiguous(l, r)
  {
    if forall l, r :: l in routes && r in routes ==> !Ambiguous(l, r) {
      UnambiguousIsOrderIndependent(routes);
    } else {
      var l, r :| l in routes && r in routes && Ambiguous(l, r);
      AmbiguousDependsOnOrder(routes, l, r);
    }
  }

  /** Registration, sorting, splitting and matching together: in an unambiguous table, the target spelled by a
      registered pattern and its values reaches that route, or one that is more specific for it. */
  lemma SpelledTargetReachesItsRoute(table: seq<Route>, routes: seq<Route>, r: Route, values: Values)
    requires IsSortOf(table, routes) && r in routes
    requires forall l, x :: l in routes && x in routes ==> !Ambiguous(l, x)
    requires Spellable(r.segments) && GivesEveryParameter(values, r.segments)
    ensures var target := Text.Join(Substituted(r.segments, values), '/');
            match Selected(table, target, r.handler.WebSocket?)
            case None => false
            case Some(x) => x == r || (|x.segments| == |r.segments| && MoreSpecific(x.segments, r.segments))
  {
    hide Matches, MoreSpecific, Selected, SameMask, Sorted, Captured;
    var target, isWebSocket := Text.Join(Substituted(r.segments, values), '/'), r.handler.WebSocket?;
    CaptureRoundTrip(r, values, "");
    FirstMatchIsMostSpecific(table, routes, target, isWebSocket);
    var x := Selected(table, target, isWebSocket);
    if x.Some? && x.value != r {
      CostOrder(x.value.segments, r.segments);
      if SameMask(x.value.segments, r.segments) {
        MatchingAlikeIsAmbiguous(x.value, r, target, isWebSocket);
      }
    }
  }
}
