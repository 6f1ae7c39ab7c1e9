/** What exceptions do to a run of the middleware chain: who is left by them, who catches them, and when a request
    fails. */
module MiddlewareExceptions {
  import opened Common
  import opened Middleware

  // ------------------------------------------------------- a handler that throws

  predicate NoCatch(actions: Body) {
    CallNext(true) !in actions
  }

  ghost predicate Quiet(bodies: seq<Body>) {
    forall k :: 0 <= k < |bodies| ==> NoThrow(bodies[k]) && NoCatch(bodies[k])
  }

  /** Two runs that differ in what the handler does: they are the same if it does not run, and otherwise the one in
      which it throws ends at that point. */
  ghost predicate EndsAtHandler(c: Chain, q: Chain, r: Chain) {
    if HandlerRuns(q.trace) == HandlerRuns(c.trace) then r == q
    else
      && r.thrown && HandlerRuns(r.trace) == HandlerRuns(c.trace) + 1
      && r.trace != [] && r.trace[|r.trace| - 1] == HandlerRan && r.trace <= q.trace
  }

  lemma OneMore(trace: seq<Event>, e: Event)
    ensures HandlerRuns(trace + [e]) == HandlerRuns(trace) + if e.HandlerRan? then 1 else 0
  {
    assert (trace + [e])[..|trace|] == trace;
  }

  lemma {:induction false} NextEnds(bodies: seq<Body>, c: Chain)
    requires Quiet(bodies) && c.i <= |bodies| && !c.thrown
    ensures var q, r := Next(bodies, false, c), Next(bodies, true, c);
            !q.thrown && c.trace <= q.trace && HandlerRuns(q.trace) >= HandlerRuns(c.trace) && EndsAtHandler(c, q, r)
    decreases |bodies| - c.i, 0
  {
    hide Next, Run, HandlerRuns;
    if c.i == c.last {
      ClosedRuns(bodies, c);
    } else {
      StartRuns(bodies, false, c);
      StartRuns(bodies, true, c);
      OneMore(c.trace, HandlerRan);
      if c.i < |bodies| {
        var started := c.(i := c.i + 1, last := c.i, trace := c.trace + [Started(c.i)]);
        OneMore(c.trace, Started(c.i));
        RunEnds(bodies, bodies[c.i], started);
        OneMore(Run(bodies, false, bodies[c.i], started).trace, Finished(c.i));
      }
    }
  }

  lemma ClosedRuns(bodies: seq<Body>, c: Chain)
    requires c.i <= |bodies| && !c.thrown && c.i == c.last
    ensures Next(bodies, false, c) == Next(bodies, true, c) == c
  {
  }

  lemma {:induction false} RunEnds(bodies: seq<Body>, actions: Body, c: Chain)
    requires Quiet(bodies) && NoThrow(actions) && NoCatch(actions) && c.i <= |bodies| && !c.thrown
    ensures var q, r := Run(bodies, false, actions, c), Run(bodies, true, actions, c);
            !q.thrown && c.trace <= q.trace && HandlerRuns(q.trace) >= HandlerRuns(c.trace) && EndsAtHandler(c, q, r)
    decreases |bodies| - c.i, 2 * |actions| + 1
  {
    if actions == [] {
    } else {
      match actions[0]
      case Log(note) =>
        OneMore(c.trace, Logged(note));
        RunEnds(bodies, actions[1..], c.(trace := c.trace + [Logged(note)]));
      case CallNext(_) =>
        CallEnds(bodies, actions, c);
    }
  }

  lemma {:induction false} CallEnds(bodies: seq<Body>, actions: Body, c: Chain)
    requires Quiet(bodies) && NoThrow(actions) && NoCatch(actions) && c.i <= |bodies| && !c.thrown
    requires actions != [] && actions[0] == CallNext(false)
    ensures var q, r := Run(bodies, false, actions, c), Run(bodies, true, actions, c);
            !q.thrown && c.trace <= q.trace && HandlerRuns(q.trace) >= HandlerRuns(c.trace) && EndsAtHandler(c, q, r)
    decreases |bodies| - c.i, 2 * |actions|
  {
    hide Next, Run, HandlerRuns;
    var q := Next(bodies, false, c);
    NextEnds(bodies, c);
    CallUnfolds(bodies, false, actions, c);
    CallUnfolds(bodies, true, actions, c);
    RunEnds(bodies, actions[1..], q);
  }

  lemma CallUnfolds(bodies: seq<Body>, handlerThrows: bool, actions: Body, c: Chain)
    requires c.i <= |bodies| && !c.thrown && actions != [] && actions[0] == CallNext(false)
    ensures var r := Next(bodies, handlerThrows, c);
            Run(bodies, handlerThrows, actions, c)
            == if r.thrown then r else Run(bodies, handlerThrows, actions[1..], r)
  {
    hide Next;
  }

  /** If nothing else throws and nothing catches, a request with a throwing handler fails exactly when the handler
      runs, which is exactly when the first k middlewares call `next` k times for every k; the exception ends the run
      there, and no middleware goes on. */
  lemma ThrowingHandlerFailsExactlyWhen(bodies: seq<Body>)
    requires Quiet(bodies)
    ensures var r := Next(bodies, true, Fresh);
            && (r.thrown <==> HandlerRuns(r.trace) == 1)
            && (r.thrown <==> forall k :: 1 <= k <= |bodies| ==> CallsOfFirst(bodies, k) >= k)
            && (r.thrown ==> r.trace != [] && r.trace[|r.trace| - 1] == HandlerRan)
  {
    hide Next, CallsOfFirst, HandlerRuns;
    NextEnds(bodies, Fresh);
    HandlerRunsExactlyWhen(bodies);
    EveryRunIsOrderly(bodies, false);
    assert HandlerRuns([]) == 0 by { NothingRan(); }
  }

  lemma NothingRan()
    ensures HandlerRuns([]) == 0
  {
  }

  // -------------------------------------------------- a middleware that catches all

  predicate CatchesAll(actions: Body) {
    Throw !in actions && CallNext(false) !in actions
  }

  lemma {:induction false} CatcherGoesOn(bodies: seq<Body>, handlerThrows: bool, actions: Body, c: Chain)
    requires CatchesAll(actions) && c.i <= |bodies| && !c.thrown
    ensures !Run(bodies, handlerThrows, actions, c).thrown
    decreases |actions|
  {
    if actions != [] {
      match actions[0]
      case Log(note) => CatcherGoesOn(bodies, handlerThrows, actions[1..], c.(trace := c.trace + [Logged(note)]));
      case CallNext(_) =>
        CatcherGoesOn(bodies, handlerThrows, actions[1..], Next(bodies, handlerThrows, c).(thrown := false));
    }
  }

  /** Behind a first middleware that catches whatever its calls throw, nothing makes the request fail: the other
      middlewares and the handler may do as they like. */
  lemma FirstCatcherProtects(bodies: seq<Body>, handlerThrows: bool)
    requires bodies != [] && CatchesAll(bodies[0])
    ensures !Next(bodies, handlerThrows, Fresh).thrown
  {
    CatcherGoesOn(bodies, handlerThrows, bodies[0], Fresh.(i := 1, last := 0, trace := [] + [Started(0)]));
  }

  // ------------------------------------------------------ layers, peeled by exceptions

  /** A middleware that works before and after one call of `next`, and may throw after either part. */
  datatype Work = Work(before: seq<int>, throwsBefore: bool, catches: bool, after: seq<int>, throwsAfter: bool)

  function ThrowIf(b: bool): Body {
    if b then [Throw] else []
  }

  function AfterCall(w: Work): Body {
    Logs(w.after) + ThrowIf(w.throwsAfter)
  }

  function BodyOfWork(w: Work): Body {
    Logs(w.before) + (ThrowIf(w.throwsBefore) + ([CallNext(w.catches)] + AfterCall(w)))
  }

  function BodiesOfWork(works: seq<Work>): seq<Body> {
    seq(|works|, i requires 0 <= i < |works| => BodyOfWork(works[i]))
  }

  /** What can be seen of a part of a run, and whether an exception leaves it. */
  datatype Peel = Peel(events: seq<Event>, thrown: bool)

  /** Layers from `k` inwards, around the handler. An exception from inside ends a layer that does not catch it; one
      that does goes on behind its call. Only a layer that comes to its end is finished. */
  function Peeled(works: seq<Work>, handlerThrows: bool, k: nat): Peel
    requires k <= |works|
    decreases |works| - k
  {
    if k == |works| then Peel([HandlerRan], handlerThrows)
    else
      var w := works[k];
      var entry := [Started(k)] + LogEvents(w.before);
      if w.throwsBefore then Peel(entry, true)
      else
        var inner := Peeled(works, handlerThrows, k + 1);
        if inner.thrown && !w.catches then Peel(entry + inner.events, true)
        else
          var exit := LogEvents(w.after) + if w.throwsAfter then [] else [Finished(k)];
          Peel(entry + inner.events + exit, w.throwsAfter)
  }

  lemma ExitRuns(bodies: seq<Body>, handlerThrows: bool, w: Work, c: Chain)
    requires c.i <= |bodies| && !c.thrown
    ensures Run(bodies, handlerThrows, AfterCall(w), c)
         == c.(trace := c.trace + LogEvents(w.after), thrown := w.throwsAfter)
  {
    LogsRun(bodies, handlerThrows, w.after, ThrowIf(w.throwsAfter), c);
    hide Logs, LogEvents;
  }

  lemma CallRuns(bodies: seq<Body>, handlerThrows: bool, w: Work, c: Chain)
    requires c.i <= |bodies| && !c.thrown
    ensures var r := Next(bodies, handlerThrows, c);
            Run(bodies, handlerThrows, [CallNext(w.catches)] + AfterCall(w), c)
            == if r.thrown && !w.catches then r
               else r.(trace := r.trace + LogEvents(w.after), thrown := w.throwsAfter)
  {
    var actions := [CallNext(w.catches)] + AfterCall(w);
    assert actions[1..] == AfterCall(w);
    var r := Next(bodies, handlerThrows, c);
    ExitRuns(bodies, handlerThrows, w, r.(thrown := false));
    hide Next, AfterCall, LogEvents;
  }

  lemma WorkRuns(bodies: seq<Body>, handlerThrows: bool, w: Work, c: Chain)
    requires c.i <= |bodies| && !c.thrown
    ensures var entered := c.(trace := c.trace + LogEvents(w.before));
            Run(bodies, handlerThrows, BodyOfWork(w), c)
            == if w.throwsBefore then entered.(thrown := true)
               else Run(bodies, handlerThrows, [CallNext(w.catches)] + AfterCall(w), entered)
  {
    var entered := c.(trace := c.trace + LogEvents(w.before));
    var call := [CallNext(w.catches)] + AfterCall(w);
    LogsRun(bodies, handlerThrows, w.before, ThrowIf(w.throwsBefore) + call, c);
    hide Logs, LogEvents, Next, AfterCall;
    if w.throwsBefore {
      assert (ThrowIf(true) + call)[0] == Throw;
    } else {
      assert ThrowIf(false) + call == call;
    }
  }

  lemma StartRuns(bodies: seq<Body>, handlerThrows: bool, c: Chain)
    requires c.i <= |bodies| && !c.thrown && c.i != c.last
    ensures Next(bodies, handlerThrows, c)
         == if c.i == |bodies| then c.(last := c.i, trace := c.trace + [HandlerRan], thrown := handlerThrows)
            else
              var started := c.(i := c.i + 1, last := c.i, trace := c.trace + [Started(c.i)]);
              var r := Run(bodies, handlerThrows, bodies[c.i], started);
              if r.thrown then r else r.(trace := r.trace + [Finished(c.i)])
  {
    hide Run;
  }

  lemma {:induction false} LayersPeel(works: seq<Work>, handlerThrows: bool, c: Chain)
    requires c.i <= |works| && !c.thrown && c.i != c.last
    ensures var p, r := Peeled(works, handlerThrows, c.i), Next(BodiesOfWork(works), handlerThrows, c);
            r.trace == c.trace + p.events && r.thrown == p.thrown
    decreases |works| - c.i
  {
    hide Next, Run, LogEvents, BodyOfWork, AfterCall;
    var bodies := BodiesOfWork(works);
    StartRuns(bodies, handlerThrows, c);
    if c.i < |works| {
      var w, k := works[c.i], c.i;
      var started := c.(i := k + 1, last := k, trace := c.trace + [Started(k)]);
      var entered := started.(trace := started.trace + LogEvents(w.before));
      WorkRuns(bodies, handlerThrows, w, started);
      CallRuns(bodies, handlerThrows, w, entered);
      LayersPeel(works, handlerThrows, entered);
      PeelTrace(works, handlerThrows, c, Next(bodies, handlerThrows, entered));
    }
  }

  /** The trace of a layer in parts, and in one piece. */
  lemma PeelTrace(works: seq<Work>, handlerThrows: bool, c: Chain, r: Chain)
    requires c.i < |works|
    requires var w := works[c.i];
             r.trace == c.trace + [Started(c.i)] + LogEvents(w.before) + Peeled(works, handlerThrows, c.i + 1).events
    ensures var w := works[c.i];
            var inner := Peeled(works, handlerThrows, c.i + 1);
            var p := Peeled(works, handlerThrows, c.i);
            && (w.throwsBefore ==> c.trace + [Started(c.i)] + LogEvents(w.before) == c.trace + p.events)
            && (!w.throwsBefore && inner.thrown && !w.catches ==> r.trace == c.trace + p.events)
            && (!w.throwsBefore && !(inner.thrown && !w.catches) ==>
                  (if w.throwsAfter then r.trace + LogEvents(w.after)
                   else r.trace + LogEvents(w.after) + [Finished(c.i)]) == c.trace + p.events)
  {
    hide LogEvents;
    var w, inner := works[c.i], Peeled(works, handlerThrows, c.i + 1);
    var p := Peeled(works, handlerThrows, c.i);
    if !w.throwsBefore && !(inner.thrown && !w.catches) {
      assert p.events == [Started(c.i)] + LogEvents(w.before) + inner.events
                         + (LogEvents(w.after) + if w.throwsAfter then [] else [Finished(c.i)]);
    }
    hide Peeled;
  }

  /** With one call each, whoever throws and whoever catches, a run does what peeling its layers says. */
  lemma OneCallEachIsPeeled(works: seq<Work>, handlerThrows: bool)
    ensures var p, r := Peeled(works, handlerThrows, 0), Next(BodiesOfWork(works), handlerThrows, Fresh);
            r.trace == p.events && r.thrown == p.thrown
  {
    hide Next, Peeled, BodiesOfWork;
    LayersPeel(works, handlerThrows, Fresh);
  }

  predicate ThrowsNothing(w: Work) {
    !w.throwsBefore && !w.throwsAfter
  }

  lemma NothingFinished(notes: seq<int>)
    ensures forall j: nat :: Finished(j) !in LogEvents(notes)
  {
  }

  /** The events of a layer that throws nothing itself, for who is finished. */
  lemma LayerFinishes(works: seq<Work>, k: nat)
    requires k < |works| && ThrowsNothing(works[k])
    ensures var inner, p := Peeled(works, true, k + 1), Peeled(works, true, k);
            && p.thrown == (inner.thrown && !works[k].catches)
            && forall j: nat :: Finished(j) in p.events <==> Finished(j) in inner.events || (j == k && !p.thrown)
  {
    var w, inner := works[k], Peeled(works, true, k + 1);
    var entry, exit := [Started(k)] + LogEvents(w.before), LogEvents(w.after) + [Finished(k)];
    assert Peeled(works, true, k) == if inner.thrown && !w.catches then Peel(entry + inner.events, true)
                                     else Peel(entry + inner.events + exit, false);
    NothingFinished(w.before);
    NothingFinished(w.after);
    hide Peeled, LogEvents;
  }

  /** The handler's exception goes outwards to the innermost layer that catches: from there on everything is finished,
      and nothing inside it. */
  lemma {:induction false} ExceptionStopsAtCatcher(works: seq<Work>, k: nat, m: nat)
    requires k <= m < |works| && works[m].catches
    requires forall j :: 0 <= j < |works| ==> ThrowsNothing(works[j])
    requires forall j :: m < j < |works| ==> !works[j].catches
    ensures !Peeled(works, true, k).thrown
    ensures forall j: nat :: Finished(j) in Peeled(works, true, k).events <==> k <= j <= m
    decreases m - k
  {
    hide Peeled, ThrowsNothing;
    if k < m {
      ExceptionStopsAtCatcher(works, k + 1, m);
    } else {
      NobodyCatches(works, m + 1);
    }
    LayerFinishes(works, k);
  }

  lemma {:induction false} NobodyCatches(works: seq<Work>, k: nat)
    requires k <= |works|
    requires forall j :: 0 <= j < |works| ==> ThrowsNothing(works[j])
    requires forall j :: k <= j < |works| ==> !works[j].catches
    ensures Peeled(works, true, k).thrown
    ensures forall j: nat :: Finished(j) !in Peeled(works, true, k).events
    decreases |works| - k
  {
    hide Peeled, ThrowsNothing;
    if k < |works| {
      NobodyCatches(works, k + 1);
      LayerFinishes(works, k);
    } else {
      HandlerAlone(works);
    }
  }

  lemma HandlerAlone(works: seq<Work>)
    ensures Peeled(works, true, |works|).thrown
    ensures forall j: nat :: Finished(j) !in Peeled(works, true, |works|).events
  {
  }
}
