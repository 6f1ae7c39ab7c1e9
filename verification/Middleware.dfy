/** The middleware chain of a session: one shared index and a guard drive arbitrary middleware. */
module Middleware {
  import opened Common

  /** What a middleware does, in order. It is started at most once in a run, so a list of actions
      stands for whatever it decides to do in that run. */
  datatype Action = Log(note: int) | CallNext(catches: bool) | Throw

  type Body = seq<Action>

  datatype Event = Started(k: nat) | Logged(note: int) | Finished(k: nat) | HandlerRan

  const SIZE_MAX: int := 0xFFFF_FFFF_FFFF_FFFF

  /** The fields of the chain, the guard of its closure, and what has happened so far. */
  datatype Chain = Chain(i: nat, last: int, trace: seq<Event>, thrown: bool)

  const Fresh := Chain(0, SIZE_MAX, [], false)

  // -------------------------------------------------------------- specification

  /** One call of `next`. */
  function Next(bodies: seq<Body>, handlerThrows: bool, c: Chain): (r: Chain)
    requires c.i <= |bodies| && !c.thrown
    ensures c.i <= r.i <= |bodies|
    decreases |bodies| - c.i, 0
  {
    if c.i == c.last then c
    else if c.i < |bodies| then
      var started := c.(i := c.i + 1, last := c.i, trace := c.trace + [Started(c.i)]);
      var r := Run(bodies, handlerThrows, bodies[c.i], started);
      if r.thrown then r else r.(trace := r.trace + [Finished(c.i)])
    else c.(last := c.i, trace := c.trace + [HandlerRan], thrown := handlerThrows)
  }

  /** The rest of a middleware's actions. An exception ends it and every middleware around it that
      does not catch what its call of `next` throws. */
  function Run(bodies: seq<Body>, handlerThrows: bool, actions: Body, c: Chain): (r: Chain)
    requires c.i <= |bodies| && !c.thrown
    ensures c.i <= r.i <= |bodies|
    decreases |bodies| - c.i, |actions| + 1
  {
    if actions == [] then c
    else match actions[0]
      case Log(note) => Run(bodies, handlerThrows, actions[1..], c.(trace := c.trace + [Logged(note)]))
      case CallNext(catches) =>
        var r := Next(bodies, handlerThrows, c);
        if r.thrown && !catches then r else Run(bodies, handlerThrows, actions[1..], r.(thrown := false))
      case Throw => c.(thrown := true)
  }

  datatype Outcome = Completed | Failed

  // -------------------------------------------------------------- the closure

  class MiddlewareChain {
    var i: nat
    const total: nat
    const global: seq<Body>
    const local: seq<Body>
    const handlerThrows: bool
    var last: int
    ghost var trace: seq<Event>

    constructor (global: seq<Body>, local: seq<Body>, handlerThrows: bool)
      ensures this.global == global && this.local == local && this.handlerThrows == handlerThrows && Valid()
      ensures State(false) == Fresh
    {
      this.global, this.local, total := global, local, |global| + |local|;
      this.handlerThrows := handlerThrows;
      i, last, trace := 0, SIZE_MAX, [];
    }

    ghost predicate Valid()
      reads this
    {
      total == |global| + |local| && i <= total
    }

    ghost function State(thrown: bool): Chain
      reads this
    {
      Chain(i, last, trace, thrown)
    }

    method CallNextFn() returns (thrown: bool)
      requires Valid()
      modifies this
      ensures Valid()
      ensures State(thrown) == Next(global + local, handlerThrows, old(State(false)))
      decreases total - i, 0
    {
      thrown := false;
      if i == last {
        return;
      }
      last := i;
      if i < |global| {
        i := i + 1;
        thrown := Start(global[i - 1], i - 1);
      } else if i < total {
        i := i + 1;
        thrown := Start(local[i - 1 - |global|], i - 1);
      } else {
        trace := trace + [HandlerRan];
        thrown := handlerThrows;
      }
    }

    /** A middleware invoked with the request, the response and `next`. */
    method Start(actions: Body, ghost k: nat) returns (thrown: bool)
      requires Valid()
      modifies this
      ensures Valid()
      ensures State(thrown) ==
                var r := Run(global + local, handlerThrows, actions, old(State(false).(trace := trace + [Started(k)])));
                if r.thrown then r else r.(trace := r.trace + [Finished(k)])
      decreases total - i, |actions| + 2
    {
      trace := trace + [Started(k)];
      thrown := Continue(actions);
      if !thrown {
        trace := trace + [Finished(k)];
      }
    }

    method Continue(actions: Body) returns (thrown: bool)
      requires Valid()
      modifies this
      ensures Valid()
      ensures State(thrown) == Run(global + local, handlerThrows, actions, old(State(false)))
      decreases total - i, |actions| + 1
    {
      if actions == [] {
        return false;
      }
      match actions[0]
      case Log(note) =>
        trace := trace + [Logged(note)];
        thrown := Continue(actions[1..]);
      case CallNext(catches) =>
        thrown := CallNextFn();
        if !thrown || catches {
          thrown := Continue(actions[1..]);
        }
      case Throw =>
        thrown := true;
    }
  }

  method HandleRequest(global: seq<Body>, local: seq<Body>, handlerThrows: bool)
    returns (o: Outcome, ghost trace: seq<Event>)
    ensures o == if Next(global + local, handlerThrows, Fresh).thrown then Failed else Completed
    ensures trace == Next(global + local, handlerThrows, Fresh).trace
  {
    var chain := new MiddlewareChain(global, local, handlerThrows);
    var thrown := chain.CallNextFn();
    o := if thrown then Failed else Completed;
    trace := chain.trace;
  }

  // ---------------------------------------------- whatever the middlewares do

  function Starts(trace: seq<Event>): seq<nat> {
    if trace == [] then []
    else
      var n := |trace| - 1;
      Starts(trace[..n]) + if trace[n].Started? then [trace[n].k] else []
  }

  function HandlerRuns(trace: seq<Event>): nat {
    if trace == [] then 0
    else
      var n := |trace| - 1;
      HandlerRuns(trace[..n]) + if trace[n].HandlerRan? then 1 else 0
  }

  /** Middlewares 0 to i - 1 have started, once each and in order; the guard meets the index exactly
      when the handler has run, once, and after everything had started. */
  ghost predicate Orderly(n: nat, c: Chain) {
    && c.i <= n
    && Starts(c.trace) == UpTo(c.i)
    && HandlerRuns(c.trace) == (if c.i == c.last then 1 else 0)
    && (c.i == c.last ==> c.i == n)
    && forall p :: 0 <= p < |c.trace| && c.trace[p].HandlerRan? ==> Starts(c.trace[..p]) == UpTo(n)
  }

  lemma Recorded(n: nat, c: Chain, e: Event)
    requires Orderly(n, c)
    ensures var t := c.trace + [e];
            && Starts(t) == UpTo(c.i) + (if e.Started? then [e.k] else [])
            && HandlerRuns(t) == HandlerRuns(c.trace) + (if e.HandlerRan? then 1 else 0)
            && (e.HandlerRan? ==> c.i == n) ==>
              forall p :: 0 <= p < |t| && t[p].HandlerRan? ==> Starts(t[..p]) == UpTo(n)
  {
    var t := c.trace + [e];
    assert t[..|c.trace|] == c.trace;
    forall p | 0 <= p < |c.trace| ensures t[..p] == c.trace[..p] {
    }
  }

  lemma {:induction false} NextIsOrderly(bodies: seq<Body>, handlerThrows: bool, c: Chain)
    requires Orderly(|bodies|, c) && !c.thrown
    ensures Orderly(|bodies|, Next(bodies, handlerThrows, c))
    decreases |bodies| - c.i, 0
  {
    var n := |bodies|;
    if c.i == c.last {
    } else if c.i < n {
      Recorded(n, c, Started(c.i));
      UpToGrows(c.i);
      var started := c.(i := c.i + 1, last := c.i, trace := c.trace + [Started(c.i)]);
      RunIsOrderly(bodies, handlerThrows, bodies[c.i], started);
      var r := Run(bodies, handlerThrows, bodies[c.i], started);
      Recorded(n, r, Finished(c.i));
    } else {
      Recorded(n, c, HandlerRan);
    }
  }

  lemma {:induction false} RunIsOrderly(bodies: seq<Body>, handlerThrows: bool, actions: Body, c: Chain)
    requires Orderly(|bodies|, c) && !c.thrown
    ensures Orderly(|bodies|, Run(bodies, handlerThrows, actions, c))
    decreases |bodies| - c.i, |actions| + 1
  {
    if actions == [] {
    } else {
      match actions[0]
      case Log(note) =>
        Recorded(|bodies|, c, Logged(note));
        RunIsOrderly(bodies, handlerThrows, actions[1..], c.(trace := c.trace + [Logged(note)]));
      case CallNext(catches) =>
        NextIsOrderly(bodies, handlerThrows, c);
        var r := Next(bodies, handlerThrows, c);
        if !r.thrown || catches {
          RunIsOrderly(bodies, handlerThrows, actions[1..], r.(thrown := false));
        }
      case Throw =>
    }
  }

  /** Safety of every run: what starts is a prefix of global ++ local in order, none of it twice; the
      handler runs at most once, and only after everything has started. */
  lemma EveryRunIsOrderly(bodies: seq<Body>, handlerThrows: bool)
    ensures var r := Next(bodies, handlerThrows, Fresh);
            && Starts(r.trace) == UpTo(r.i) && r.i <= |bodies|
            && HandlerRuns(r.trace) <= 1
            && forall p :: 0 <= p < |r.trace| && r.trace[p].HandlerRan? ==> Starts(r.trace[..p]) == UpTo(|bodies|)
  {
    EmptyTrace(bodies);
    NextIsOrderly(bodies, handlerThrows, Fresh);
  }

  // ------------------------------------------------------- when the handler runs

  function Calls(actions: Body): nat {
    if actions == [] then 0 else (if actions[0].CallNext? then 1 else 0) + Calls(actions[1..])
  }

  /** The calls of `next` that the first `k` middlewares make. */
  function CallsOfFirst(bodies: seq<Body>, k: nat): nat
    requires k <= |bodies|
  {
    if k == 0 then 0 else CallsOfFirst(bodies, k - 1) + Calls(bodies[k - 1])
  }

  predicate NoThrow(actions: Body) {
    Throw !in actions
  }

  ghost predicate NothingThrows(bodies: seq<Body>) {
    forall k :: 0 <= k < |bodies| ==> NoThrow(bodies[k])
  }

  /** What is known when control comes back to a caller that still has `pending` calls to make, after
      a stretch that found the index at `from`. */
  ghost predicate Balanced(bodies: seq<Body>, from: nat, r: Chain, pending: nat)
    requires r.i <= |bodies|
  {
    && !r.thrown
    && (forall k :: from <= k < r.i ==> CallsOfFirst(bodies, k) >= k)
    && if r.i == r.last then r.i == |bodies| && CallsOfFirst(bodies, r.i) >= r.i
       else r.i + pending == 1 + CallsOfFirst(bodies, r.i)
  }

  /** The accounting: until the chain is closed, every call made is one middleware started, so the index
      and the calls still to come add up to the calls of the middlewares started so far, plus the first. */
  lemma {:induction false} NextBalances(bodies: seq<Body>, c: Chain, pending: nat)
    requires NothingThrows(bodies) && c.i <= |bodies| && !c.thrown && c.i != c.last
    requires c.i + 1 + pending == 1 + CallsOfFirst(bodies, c.i)
    ensures Balanced(bodies, c.i, Next(bodies, false, c), pending)
    decreases |bodies| - c.i, 0
  {
    if c.i < |bodies| {
      var started := c.(i := c.i + 1, last := c.i, trace := c.trace + [Started(c.i)]);
      RunBalances(bodies, bodies[c.i], started, pending);
    }
  }

  lemma {:induction false} RunBalances(bodies: seq<Body>, actions: Body, c: Chain, pending: nat)
    requires NothingThrows(bodies) && NoThrow(actions) && c.i <= |bodies| && !c.thrown && c.i != c.last
    requires c.i + Calls(actions) + pending == 1 + CallsOfFirst(bodies, c.i)
    ensures Balanced(bodies, c.i, Run(bodies, false, actions, c), pending)
    decreases |bodies| - c.i, |actions| + 1
  {
    if actions == [] {
    } else {
      match actions[0]
      case Log(note) =>
        RunBalances(bodies, actions[1..], c.(trace := c.trace + [Logged(note)]), pending);
      case CallNext(_) =>
        NextBalances(bodies, c, Calls(actions[1..]) + pending);
        var r := Next(bodies, false, c);
        if r.i == r.last {
          ClosedStaysClosed(bodies, actions[1..], r);
        } else {
          RunBalances(bodies, actions[1..], r, pending);
        }
    }
  }

  lemma {:induction false} ClosedStaysClosed(bodies: seq<Body>, actions: Body, c: Chain)
    requires NoThrow(actions) && c.i <= |bodies| && !c.thrown && c.i == c.last
    ensures var r := Run(bodies, false, actions, c); r.i == r.last == c.i && !r.thrown
  {
    if actions != [] {
      ClosedStaysClosed(bodies, actions[1..],
                        if actions[0].Log? then c.(trace := c.trace + [Logged(actions[0].note)]) else c);
    }
  }

  /** If nothing throws, the handler runs exactly when, for every k, the first k middlewares call `next`
      at least k times; otherwise the chain stops at the least k for which they do not. */
  lemma HandlerRunsExactlyWhen(bodies: seq<Body>)
    requires NothingThrows(bodies)
    ensures var r := Next(bodies, false, Fresh);
            && !r.thrown
            && (HandlerRuns(r.trace) == 1 <==> forall k :: 1 <= k <= |bodies| ==> CallsOfFirst(bodies, k) >= k)
            && (HandlerRuns(r.trace) == 0 ==>
                  && 1 <= r.i <= |bodies| && CallsOfFirst(bodies, r.i) < r.i
                  && forall k :: 1 <= k < r.i ==> CallsOfFirst(bodies, k) >= k)
  {
    hide Next, CallsOfFirst, Starts, HandlerRuns;
    EmptyTrace(bodies);
    NextIsOrderly(bodies, false, Fresh);
    NextBalances(bodies, Fresh, 0);
    var r := Next(bodies, false, Fresh);
    if r.i != r.last {
      assert CallsOfFirst(bodies, r.i) < r.i;
    }
  }

  lemma EmptyTrace(bodies: seq<Body>)
    ensures Orderly(|bodies|, Fresh) && CallsOfFirst(bodies, 0) == 0
  {
    UpToGrows(0);
  }

  lemma {:induction false} CallsAddUp(bodies: seq<Body>, k: nat)
    requires k <= |bodies|
    ensures (forall j :: 0 <= j < k ==> Calls(bodies[j]) == 1) ==> CallsOfFirst(bodies, k) == k
    ensures (forall j :: 0 <= j < k ==> Calls(bodies[j]) <= 1) ==> CallsOfFirst(bodies, k) <= k
    ensures (forall j :: 0 <= j < k ==> Calls(bodies[j]) <= 1) && (exists j :: 0 <= j < k && Calls(bodies[j]) == 0) ==>
              CallsOfFirst(bodies, k) < k
  {
    if k > 0 {
      CallsAddUp(bodies, k - 1);
    }
  }

  /** The usual middlewares, with at most one call each: one that does not call `next` stops the chain. */
  lemma AtMostOneCallEach(bodies: seq<Body>)
    requires NothingThrows(bodies)
    requires forall j :: 0 <= j < |bodies| ==> Calls(bodies[j]) <= 1
    ensures HandlerRuns(Next(bodies, false, Fresh).trace) == 1 <==>
            forall j :: 0 <= j < |bodies| ==> Calls(bodies[j]) == 1
  {
    HandlerRunsExactlyWhen(bodies);
    EmptyTrace(bodies);
    NextIsOrderly(bodies, false, Fresh);
    if forall j :: 0 <= j < |bodies| ==> Calls(bodies[j]) == 1 {
      forall k | 1 <= k <= |bodies| ensures CallsOfFirst(bodies, k) >= k {
        CallsAddUp(bodies, k);
      }
    } else {
      CallsAddUp(bodies, |bodies|);
    }
  }

  /** A silent middleware is not final: the second call of the one around it passes over it. */
  lemma SilentMiddlewareIsPassedOver(a: Action, b: Action)
    requires a.CallNext? && b.CallNext?
    ensures HandlerRuns(Next([[a, b], []], false, Fresh).trace) == 1
  {
    var bodies := [[a, b], []];
    assert Calls([b]) == 1 by { assert [b][1..] == []; }
    assert Calls([a, b]) == 2 by { assert [a, b][1..] == [b]; }
    assert CallsOfFirst(bodies, 1) == 2;
    assert CallsOfFirst(bodies, 2) == 2;
    HandlerRunsExactlyWhen(bodies);
  }

  // ---------------------------------------------------------------- the onion

  /** A middleware that works before and after a single call of `next`. */
  datatype Layer = Layer(before: seq<int>, catches: bool, after: seq<int>)

  function Logs(notes: seq<int>): Body {
    seq(|notes|, i requires 0 <= i < |notes| => Log(notes[i]))
  }

  function LogEvents(notes: seq<int>): seq<Event> {
    seq(|notes|, i requires 0 <= i < |notes| => Logged(notes[i]))
  }

  function BodyOf(layer: Layer): Body {
    Logs(layer.before) + [CallNext(layer.catches)] + Logs(layer.after)
  }

  function BodiesOf(layers: seq<Layer>): seq<Body> {
    seq(|layers|, i requires 0 <= i < |layers| => BodyOf(layers[i]))
  }

  /** Layers from `k` inwards, around the handler. */
  function Onion(layers: seq<Layer>, k: nat): seq<Event>
    requires k <= |layers|
    decreases |layers| - k
  {
    if k == |layers| then [HandlerRan]
    else [Started(k)] + LogEvents(layers[k].before) + Onion(layers, k + 1)
         + LogEvents(layers[k].after) + [Finished(k)]
  }

  lemma {:induction false} LogsRun(bodies: seq<Body>, handlerThrows: bool, notes: seq<int>, rest: Body, c: Chain)
    requires c.i <= |bodies| && !c.thrown
    ensures Run(bodies, handlerThrows, Logs(notes) + rest, c)
         == Run(bodies, handlerThrows, rest, c.(trace := c.trace + LogEvents(notes)))
    decreases |notes|
  {
    if notes == [] {
      assert Logs(notes) + rest == rest;
      assert c.trace + LogEvents(notes) == c.trace;
    } else {
      var c' := c.(trace := c.trace + [Logged(notes[0])]);
      assert (Logs(notes) + rest)[1..] == Logs(notes[1..]) + rest;
      LogsRun(bodies, handlerThrows, notes[1..], rest, c');
      assert c'.trace + LogEvents(notes[1..]) == c.trace + LogEvents(notes);
    }
  }

  lemma NextStarts(bodies: seq<Body>, c: Chain)
    requires c.i < |bodies| && !c.thrown && c.i != c.last
    ensures var started := c.(i := c.i + 1, last := c.i, trace := c.trace + [Started(c.i)]);
            var r := Run(bodies, false, bodies[c.i], started);
            Next(bodies, false, c) == if r.thrown then r else r.(trace := r.trace + [Finished(c.i)])
  {
    hide Run;
  }

  lemma CallNextRuns(bodies: seq<Body>, catches: bool, rest: Body, c: Chain)
    requires c.i <= |bodies| && !c.thrown
    ensures var r := Next(bodies, false, c);
            !r.thrown ==> Run(bodies, false, [CallNext(catches)] + rest, c) == Run(bodies, false, rest, r)
  {
    hide Next;
    assert ([CallNext(catches)] + rest)[1..] == rest;
  }

  lemma InnermostRuns(bodies: seq<Body>, c: Chain)
    requires c.i == |bodies| && !c.thrown && c.i != c.last
    ensures Next(bodies, false, c) == c.(last := c.i, trace := c.trace + [HandlerRan])
  {
  }

  lemma NothingLeftToRun(bodies: seq<Body>, c: Chain)
    requires c.i <= |bodies| && !c.thrown
    ensures Run(bodies, false, [], c) == c
  {
  }

  lemma {:induction false} LayersNest(layers: seq<Layer>, c: Chain)
    requires c.i <= |layers| && !c.thrown && c.i != c.last
    ensures Next(BodiesOf(layers), false, c)
         == Chain(|layers|, |layers|, c.trace + Onion(layers, c.i), false)
    decreases |layers| - c.i
  {
    hide Next, Run, Logs, LogEvents;
    var bodies := BodiesOf(layers);
    if c.i < |layers| {
      var layer, k := layers[c.i], c.i;
      var started := c.(i := k + 1, last := k, trace := c.trace + [Started(k)]);
      var inner := started.(trace := started.trace + LogEvents(layer.before));
      var rest := [CallNext(layer.catches)] + Logs(layer.after);
      NextStarts(bodies, c);
      Associative(Logs(layer.before), [CallNext(layer.catches)], Logs(layer.after));
      LogsRun(bodies, false, layer.before, rest, started);
      LayersNest(layers, inner);
      var r := Next(bodies, false, inner);
      CallNextRuns(bodies, layer.catches, Logs(layer.after), inner);
      assert Logs(layer.after) + [] == Logs(layer.after);
      LogsRun(bodies, false, layer.after, [], r);
      NothingLeftToRun(bodies, r.(trace := r.trace + LogEvents(layer.after)));
      assert r.trace + LogEvents(layer.after) + [Finished(k)] == c.trace + Onion(layers, k);
    } else {
      InnermostRuns(bodies, c);
    }
  }

  /** With one call each, the trace of a run is a properly nested onion around the handler. */
  lemma OneCallEachIsAnOnion(layers: seq<Layer>)
    ensures Next(BodiesOf(layers), false, Fresh).trace == Onion(layers, 0)
  {
    LayersNest(layers, Fresh);
  }
}
