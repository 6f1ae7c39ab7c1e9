/** What every event does in every run of the client's request pipeline: the operation that follows, what is told to
    whom, and what becomes of the queue. */
module ClientEvents {
  import opened ClientSession

  // ------------------------------------------------------------- the operation that follows

  /** The stages of one request in order, then the next request. */
  function NextOperations(s: State, e: Event): multiset<Operation>
    requires e.Run? || e.TimerEnded? || HasFront(s)
  {
    match e
    case Run(_) =>
      if s.requests == [] then multiset{if s.linked then Write(|s.contexts|) else Resolve(|s.contexts|)}
      else if s.pending then s.ops
      else multiset{Write(s.requests[0])}
    case Resolved(op, ok, _) => if ok then multiset{Connect(op.r)} else multiset{}
    case Connected(op, ok, _) => if ok then multiset{Write(op.r)} else multiset{}
    case Written(op, ok, _) => if ok then multiset{Read(op.r)} else multiset{}
    case ReadEnded(op, EndOfStream, _) => multiset{Resolve(op.r)}
    case ReadEnded(_, Failed, _) => multiset{}
    case ReadEnded(_, Complete, throws) =>
      if |s.requests| == 1 || (throws && s.contexts[s.requests[0]].hasCallback) then multiset{}
      else multiset{Write(s.requests[1])}
    case TimerEnded(_, _, _) => s.ops
  }

  /** A handler for the front request is only ever run for the request in front. */
  lemma FrontOf(s: State, e: Event)
    requires Invariant(s) && Enabled(s, e) && !e.Run? && !e.TimerEnded?
    ensures HasFront(s) && s.ops == multiset{e.op} && e.op.r == s.requests[0] == |s.answered| && !s.broken
    ensures s.pending && (e.ReadEnded? ==> s.wire == [s.requests[0]])
    ensures s.contexts[s.requests[0]].hasCallback ==> !s.contexts[s.requests[0]].tooLate
  {
    TheOneOperation(s, e.op);
    assert ContextProper(s, s.requests[0]);
  }

  lemma RunFollows(s: State, sub: Submission)
    requires Invariant(s)
    ensures OnRun(s, sub).ops == NextOperations(s, Run(sub))
  {
    hide Delivered, InOrder;
    assert s.requests == [] || !s.pending ==> s.ops == multiset{};
  }

  lemma OperationFollows(s: State, e: Event)
    requires Invariant(s) && WellFormed(s) && Enabled(s, e) && (e.Resolved? || e.Connected? || e.Written?)
    ensures HasFront(s) && Step(s, e).ops == NextOperations(s, e)
  {
    FrontOf(s, e);
    hide Invariant, WellFormed;
    var code := if e.Resolved? then ResolveFailed else if e.Connected? then ConnectFailed else WriteFailed;
    FailTouchesLittle(Ended(s, e.op), s.requests[0], code, e.throws);
    hide Fail;
    assert Ended(s, e.op).ops == multiset{};
  }

  lemma ReadFollows(s: State, op: Operation, end: ReadEnd, throws: bool)
    requires Invariant(s) && WellFormed(s) && op in s.ops && op.Read?
    ensures HasFront(s) && Step(s, ReadEnded(op, end, throws)).ops == NextOperations(s, ReadEnded(op, end, throws))
  {
    FrontOf(s, ReadEnded(op, end, throws));
    hide Invariant, WellFormed;
    var ended := Ended(s, op);
    assert ended.ops == multiset{};
    FailTouchesLittle(ended, s.requests[0], ReadFailed, throws);
    if end.Complete? {
      Answered(ended, throws);
    }
    hide Fail, OnResponse;
  }

  lemma TimerFollows(s: State, id: nat, expired: bool, throws: bool)
    requires id < |s.contexts|
    ensures var r := OnTimer(s, id, expired, throws);
            r.ops == s.ops && r.requests == s.requests && r.answered == s.answered && r.broken == s.broken
  {
    FailTouchesLittle(s.(contexts := s.contexts[id := s.contexts[id].(waiting := false)]), id, TimedOut, throws);
    hide Fail;
  }

  /** In every run, one stage follows the other without a skip: resolve, connect, write and read for the request in
      front, then the write of the next one; an end of stream starts over, a failure starts nothing. */
  lemma OneStageFollowsTheOther(states: seq<State>, events: seq<Event>, i: nat)
    requires IsRun(states, events) && i < |events|
    ensures events[i].Run? || events[i].TimerEnded? || HasFront(states[i])
    ensures states[i + 1].ops == NextOperations(states[i], events[i])
  {
    InvariantHolds(states, events, i);
    var s, e := states[i], events[i];
    hide Invariant, WellFormed, NextOperations;
    match e
    case Run(sub) =>
      RunSteps(s, sub);
      RunFollows(s, sub);
    case ReadEnded(op, end, throws) => ReadFollows(s, op, end, throws);
    case TimerEnded(id, expired, throws) =>
      TimerSteps(s, id, expired, throws);
      hide Step, OnTimer;
      TimerFollows(s, id, expired, throws);
      assert NextOperations(s, e) == s.ops by { TimerStartsNothing(s, e); }
    case _ => OperationFollows(s, e);
  }

  lemma TimerStartsNothing(s: State, e: Event)
    requires e.TimerEnded?
    ensures NextOperations(s, e) == s.ops
  {
  }

  // ------------------------------------------------------------------- what is told

  /** What a handler has to report, and for which request. */
  datatype News = Nothing | Tell(id: nat, answer: Answer)

  function NewsOf(s: State, e: Event): News
    requires e.Run? || e.TimerEnded? || HasFront(s)
  {
    match e
    case Resolved(_, false, _) => Tell(s.requests[0], Error(ResolveFailed))
    case Connected(_, false, _) => Tell(s.requests[0], Error(ConnectFailed))
    case Written(_, false, _) => Tell(s.requests[0], Error(WriteFailed))
    case ReadEnded(_, Failed, _) => Tell(s.requests[0], Error(ReadFailed))
    case ReadEnded(_, Complete, _) => Tell(s.requests[0], Response(s.requests[0]))
    case TimerEnded(id, true, _) => Tell(id, Error(TimedOut))
    case _ => Nothing
  }

  /** A callback that is there is told, and is gone unless it throws. Without one, an error makes the handler throw,
      and a response is kept by the session. */
  ghost predicate Reported(s: State, r: State, news: News, throws: bool) {
    match news
    case Nothing => r.calls == s.calls && r.thrown == s.thrown
    case Tell(id, answer) =>
      && id < |s.contexts| == |r.contexts|
      && if s.contexts[id].hasCallback
         then r.calls == s.calls + [Call(id, answer, throws)] && r.thrown == s.thrown + (if throws then 1 else 0)
              && r.contexts[id].hasCallback == throws
         else r.calls == s.calls && r.thrown == s.thrown + (if answer.Error? then 1 else 0)
  }

  lemma FailReports(s: State, id: nat, code: Code, throws: bool)
    requires id < |s.contexts| && (s.contexts[id].hasCallback ==> !s.contexts[id].tooLate)
    ensures Reported(s, Fail(s, id, code, throws), Tell(id, Error(code)), throws)
  {
  }

  lemma ResponseReports(s: State, throws: bool)
    requires HasFront(s) && s.wire == [s.requests[0]]
    requires s.contexts[s.requests[0]].hasCallback ==> !s.contexts[s.requests[0]].tooLate
    ensures Reported(s, OnResponse(s, throws), Tell(s.requests[0], Response(s.requests[0])), throws)
  {
  }

  lemma TimerReports(s: State, id: nat, expired: bool, throws: bool)
    requires id < |s.contexts| && !s.contexts[id].tooLate
    ensures Reported(s, OnTimer(s, id, expired, throws), NewsOf(s, TimerEnded(id, expired, throws)), throws)
  {
    FailReports(s.(contexts := s.contexts[id := s.contexts[id].(waiting := false)]), id, TimedOut, throws);
    hide Fail;
  }

  lemma OperationReports(s: State, e: Event)
    requires Invariant(s) && WellFormed(s) && Enabled(s, e) && (e.Resolved? || e.Connected? || e.Written?)
    ensures HasFront(s) && Reported(s, Step(s, e), NewsOf(s, e), e.throws)
  {
    FrontOf(s, e);
    hide Invariant, WellFormed;
    var code := if e.Resolved? then ResolveFailed else if e.Connected? then ConnectFailed else WriteFailed;
    FailReports(Ended(s, e.op), s.requests[0], code, e.throws);
    hide Fail;
  }

  lemma ReadReports(s: State, op: Operation, end: ReadEnd, throws: bool)
    requires Invariant(s) && WellFormed(s) && op in s.ops && op.Read?
    ensures HasFront(s)
    ensures Reported(s, Step(s, ReadEnded(op, end, throws)), NewsOf(s, ReadEnded(op, end, throws)), throws)
  {
    FrontOf(s, ReadEnded(op, end, throws));
    hide Invariant, WellFormed;
    FailReports(Ended(s, op), s.requests[0], ReadFailed, throws);
    if end.Complete? {
      ResponseReports(Ended(s, op), throws);
    }
    hide Fail, OnResponse;
  }

  /** In every run, a failed operation is reported to the request in front with its own code, a response to the request
      it answers, a time-out to the request it was set for, and nothing else is reported to anyone. */
  lemma EveryEventReports(states: seq<State>, events: seq<Event>, i: nat)
    requires IsRun(states, events) && i < |events|
    ensures events[i].Run? || events[i].TimerEnded? || HasFront(states[i])
    ensures Reported(states[i], states[i + 1], NewsOf(states[i], events[i]),
                     if events[i].Run? then false else events[i].throws)
  {
    InvariantHolds(states, events, i);
    var s, e := states[i], events[i];
    match e
    case Run(sub) =>
      hide Invariant, WellFormed;
    case ReadEnded(op, end, throws) =>
      hide Invariant, WellFormed, NewsOf, Reported;
      ReadReports(s, op, end, throws);
    case TimerEnded(id, expired, throws) =>
      assert ContextProper(s, id);
      TimerSteps(s, id, expired, throws);
      hide Invariant, WellFormed, Step, NewsOf, Reported;
      TimerReports(s, id, expired, throws);
    case _ =>
      hide Invariant, WellFormed, NewsOf, Reported;
      OperationReports(s, e);
  }

  // -------------------------------------------------------------- the queue and the end

  predicate FailsOperation(e: Event) {
    match e
    case Resolved(_, ok, _) => !ok
    case Connected(_, ok, _) => !ok
    case Written(_, ok, _) => !ok
    case ReadEnded(_, end, _) => end.Failed?
    case _ => false
  }

  ghost predicate QueueFollows(s: State, r: State, e: Event) {
    && r.broken == (s.broken || FailsOperation(e))
    && match e
       case Run(_) => r.requests == s.requests + [|s.contexts|] && r.answered == s.answered
       case ReadEnded(_, Complete, _) =>
         s.requests != [] && r.requests == s.requests[1..] && r.answered == s.answered + [s.requests[0]]
       case _ => r.requests == s.requests && r.answered == s.answered
  }

  lemma OperationKeepsQueue(s: State, e: Event)
    requires Invariant(s) && WellFormed(s) && Enabled(s, e) && (e.Resolved? || e.Connected? || e.Written?)
    ensures QueueFollows(s, Step(s, e), e)
  {
    FrontOf(s, e);
    hide Invariant, WellFormed;
    var code := if e.Resolved? then ResolveFailed else if e.Connected? then ConnectFailed else WriteFailed;
    FailTouchesLittle(Ended(s, e.op), s.requests[0], code, e.throws);
    hide Fail;
  }

  lemma ReadMovesQueue(s: State, op: Operation, end: ReadEnd, throws: bool)
    requires Invariant(s) && WellFormed(s) && op in s.ops && op.Read?
    ensures QueueFollows(s, Step(s, ReadEnded(op, end, throws)), ReadEnded(op, end, throws))
  {
    FrontOf(s, ReadEnded(op, end, throws));
    hide Invariant, WellFormed;
    FailTouchesLittle(Ended(s, op), s.requests[0], ReadFailed, throws);
    if end.Complete? {
      Answered(Ended(s, op), throws);
    }
    hide Fail, OnResponse;
  }

  /** In every run, a submission goes to the end of the queue, a complete response takes the front away, nothing else
      moves it; and the session is broken exactly since an operation failed. */
  lemma QueueMovesWithEvents(states: seq<State>, events: seq<Event>, i: nat)
    requires IsRun(states, events) && i < |events|
    ensures QueueFollows(states[i], states[i + 1], events[i])
  {
    InvariantHolds(states, events, i);
    var s, e := states[i], events[i];
    match e
    case Run(sub) =>
      hide Invariant, WellFormed;
    case ReadEnded(op, end, throws) =>
      hide Invariant, WellFormed, QueueFollows;
      ReadMovesQueue(s, op, end, throws);
    case TimerEnded(id, expired, throws) =>
      TimerSteps(s, id, expired, throws);
      hide Invariant, WellFormed, Step, OnTimer;
      TimerFollows(s, id, expired, throws);
    case _ =>
      hide Invariant, WellFormed, QueueFollows;
      OperationKeepsQueue(s, e);
  }

  // ----------------------------------------------------------------- the submissions

  /** The submissions among the first `i` events. */
  function Submissions(events: seq<Event>, i: nat): seq<Submission>
    requires i <= |events|
  {
    if i == 0 then []
    else Submissions(events, i - 1) + if events[i - 1].Run? then [events[i - 1].sub] else []
  }

  predicate TimerHasEnded(events: seq<Event>, i: nat, id: nat)
    requires i <= |events|
  {
    i > 0 && (TimerHasEnded(events, i - 1, id) || (events[i - 1].TimerEnded? && events[i - 1].id == id))
  }

  /** The part of a context that its submission and its timer decide. */
  ghost predicate Fixed(c: Context, sub: Submission, ended: bool) {
    c.host == sub.host && c.asynchronous == sub.asynchronous && c.waiting == (sub.timed && !ended)
  }

  lemma FailFixes(s: State, id: nat, code: Code, throws: bool)
    requires id < |s.contexts|
    ensures var r := Fail(s, id, code, throws);
            |r.contexts| == |s.contexts|
            && forall j :: 0 <= j < |s.contexts| ==> SameOrigin(s.contexts[j], r.contexts[j])
  {
  }

  ghost predicate SameOrigin(c: Context, d: Context) {
    c.host == d.host && c.asynchronous == d.asynchronous && c.waiting == d.waiting
  }

  lemma ResponseFixes(s: State, throws: bool)
    requires HasFront(s) && s.wire == [s.requests[0]]
    ensures var r := OnResponse(s, throws);
            |r.contexts| == |s.contexts|
            && forall j :: 0 <= j < |s.contexts| ==> SameOrigin(s.contexts[j], r.contexts[j])
  {
  }

  lemma CompletionFixes(s: State, e: Event)
    requires Invariant(s) && WellFormed(s) && Enabled(s, e) && !e.Run? && !e.TimerEnded?
    ensures var r := Step(s, e);
            |r.contexts| == |s.contexts|
            && forall j :: 0 <= j < |s.contexts| ==> SameOrigin(s.contexts[j], r.contexts[j])
  {
    FrontOf(s, e);
    hide Invariant, WellFormed;
    var ended := Ended(s, e.op);
    var code := if e.Resolved? then ResolveFailed else if e.Connected? then ConnectFailed
                else if e.Written? then WriteFailed else ReadFailed;
    FailFixes(ended, s.requests[0], code, e.throws);
    if e.ReadEnded? && e.end.Complete? {
      ResponseFixes(ended, e.throws);
    }
    hide Fail, OnResponse;
  }

  lemma TimerFixes(s: State, id: nat, expired: bool, throws: bool)
    requires id < |s.contexts|
    ensures var r := OnTimer(s, id, expired, throws);
            && |r.contexts| == |s.contexts| && SameOrigin(s.contexts[id].(waiting := false), r.contexts[id])
            && forall j :: 0 <= j < |s.contexts| && j != id ==> SameOrigin(s.contexts[j], r.contexts[j])
  {
    FailFixes(s.(contexts := s.contexts[id := s.contexts[id].(waiting := false)]), id, TimedOut, throws);
    hide Fail;
  }

  ghost predicate ContextsFollow(s: State, r: State, e: Event) {
    match e
    case Run(sub) => r.contexts == s.contexts + [NewContext(sub)]
    case TimerEnded(id, _, _) =>
      && |r.contexts| == |s.contexts| && id < |s.contexts|
      && forall j :: 0 <= j < |s.contexts| ==>
           SameOrigin(if j == id then s.contexts[j].(waiting := false) else s.contexts[j], r.contexts[j])
    case _ =>
      |r.contexts| == |s.contexts| && forall j :: 0 <= j < |s.contexts| ==> SameOrigin(s.contexts[j], r.contexts[j])
  }

  lemma ContextsStep(s: State, e: Event)
    requires Invariant(s) && WellFormed(s) && Enabled(s, e)
    ensures ContextsFollow(s, Step(s, e), e)
  {
    match e
    case Run(_) => hide Invariant, WellFormed;
    case TimerEnded(id, expired, throws) =>
      TimerSteps(s, id, expired, throws);
      hide Invariant, WellFormed, Step, OnTimer, SameOrigin;
      TimerFixes(s, id, expired, throws);
    case _ =>
      hide Invariant, WellFormed, Step, SameOrigin;
      CompletionFixes(s, e);
  }

  lemma StepOfRun(states: seq<State>, events: seq<Event>, i: nat)
    requires IsRun(states, events) && i < |events|
    ensures ContextsFollow(states[i], states[i + 1], events[i])
  {
    InvariantHolds(states, events, i);
    hide Invariant, WellFormed, ContextsFollow;
    ContextsStep(states[i], events[i]);
    hide Step;
  }

  lemma NothingSubmitted(states: seq<State>, events: seq<Event>)
    requires IsRun(states, events)
    ensures states[0].contexts == []
  {
  }

  /** No timer ends for a request that has not been submitted. */
  lemma {:induction false} NeverEnded(states: seq<State>, events: seq<Event>, i: nat, id: nat)
    requires IsRun(states, events) && i < |states| && |states[i].contexts| <= id
    ensures !TimerHasEnded(events, i, id)
  {
    hide IsRun;
    if i > 0 {
      assert |states| == |events| + 1 by { RunLength(states, events); }
      StepOfRun(states, events, i - 1);
      NeverEnded(states, events, i - 1, id);
    }
  }

  lemma RunLength(states: seq<State>, events: seq<Event>)
    requires IsRun(states, events)
    ensures |states| == |events| + 1
  {
  }

  ghost predicate AllFixed(s: State, subs: seq<Submission>, events: seq<Event>, i: nat)
    requires i <= |events|
  {
    && |s.contexts| == |subs|
    && forall id :: 0 <= id < |subs| ==> Fixed(s.contexts[id], subs[id], TimerHasEnded(events, i, id))
  }

  lemma AllFixedStep(s: State, r: State, events: seq<Event>, i: nat, subs: seq<Submission>)
    requires i < |events| && ContextsFollow(s, r, events[i]) && AllFixed(s, subs, events, i)
    requires events[i].Run? ==> !TimerHasEnded(events, i, |subs|)
    ensures AllFixed(r, subs + if events[i].Run? then [events[i].sub] else [], events, i + 1)
  {
    var e := events[i];
    var all := subs + if e.Run? then [e.sub] else [];
    forall id | 0 <= id < |all| ensures Fixed(r.contexts[id], all[id], TimerHasEnded(events, i + 1, id)) {
      assert TimerHasEnded(events, i + 1, id)
          == (TimerHasEnded(events, i, id) || (e.TimerEnded? && e.id == id));
      if id < |subs| {
        assert Fixed(s.contexts[id], subs[id], TimerHasEnded(events, i, id));
      }
    }
  }

  /** In every run, the requests are the submissions in order: host and kind are as submitted, and a timer is waited
      for exactly when a limit was given and the timer's handler has not run. */
  lemma {:induction false} RequestsAreSubmissions(states: seq<State>, events: seq<Event>, i: nat)
    requires IsRun(states, events) && i < |states|
    ensures |states| == |events| + 1
    ensures AllFixed(states[i], Submissions(events, i), events, i)
  {
    RunLength(states, events);
    NothingSubmitted(states, events);
    hide IsRun;
    if i > 0 {
      RequestsAreSubmissions(states, events, i - 1);
      StepOfRun(states, events, i - 1);
      var s, subs := states[i - 1], Submissions(events, i - 1);
      if events[i - 1].Run? {
        NeverEnded(states, events, i - 1, |s.contexts|);
      }
      assert |s.contexts| == |subs|;
      AllFixedStep(s, states[i], events, i - 1, subs);
      hide ContextsFollow, AllFixed, TimerHasEnded;
    }
  }

  // ------------------------------------------------------------------ the connection

  /** A connection was established before step `i`, and no host has been resolved since. */
  predicate ConnectedBefore(states: seq<State>, events: seq<Event>, i: nat)
    requires i < |states| && i <= |events|
  {
    i > 0 &&
    match events[i - 1]
    case Connected(_, true, _) => true
    case ReadEnded(_, EndOfStream, _) => false
    case _ => ConnectedBefore(states, events, i - 1)
  }

  /** A submission resolves a host only where there is no connection, and an end of stream always does. */
  ghost predicate LinkFollows(s: State, r: State, e: Event) {
    r.linked == match e
                case Connected(_, true, _) => true
                case ReadEnded(_, EndOfStream, _) => false
                case _ => s.linked
  }

  lemma LinkStep(s: State, e: Event)
    requires Invariant(s) && WellFormed(s) && Enabled(s, e)
    ensures LinkFollows(s, Step(s, e), e)
  {
    match e
    case Run(_) => hide Invariant, WellFormed;
    case TimerEnded(id, expired, throws) =>
      TimerSteps(s, id, expired, throws);
      hide Invariant, WellFormed, Step;
      TimerKeepsLink(s, id, expired, throws);
    case ReadEnded(op, end, throws) => ReadChangesLink(s, op, end, throws);
    case _ => OperationLinks(s, e);
  }

  lemma TimerKeepsLink(s: State, id: nat, expired: bool, throws: bool)
    requires id < |s.contexts|
    ensures OnTimer(s, id, expired, throws).linked == s.linked
  {
    FailTouchesLittle(s.(contexts := s.contexts[id := s.contexts[id].(waiting := false)]), id, TimedOut, throws);
    hide Fail;
  }

  lemma ReadChangesLink(s: State, op: Operation, end: ReadEnd, throws: bool)
    requires Invariant(s) && WellFormed(s) && op in s.ops && op.Read?
    ensures LinkFollows(s, Step(s, ReadEnded(op, end, throws)), ReadEnded(op, end, throws))
  {
    FrontOf(s, ReadEnded(op, end, throws));
    hide Invariant, WellFormed;
    FailTouchesLittle(Ended(s, op), s.requests[0], ReadFailed, throws);
    if end.Complete? {
      Answered(Ended(s, op), throws);
    }
    hide Fail, OnResponse;
  }

  lemma OperationLinks(s: State, e: Event)
    requires Invariant(s) && WellFormed(s) && Enabled(s, e) && (e.Resolved? || e.Connected? || e.Written?)
    ensures LinkFollows(s, Step(s, e), e)
  {
    FrontOf(s, e);
    hide Invariant, WellFormed;
    var code := if e.Resolved? then ResolveFailed else if e.Connected? then ConnectFailed else WriteFailed;
    FailTouchesLittle(Ended(s, e.op), s.requests[0], code, e.throws);
    hide Fail;
  }

  /** In every run, a connection once established is kept, through responses and idle times, until a stream ends: only
      then, or before the first connection, is a host resolved. */
  lemma {:induction false} ConnectionIsKept(states: seq<State>, events: seq<Event>, i: nat)
    requires IsRun(states, events) && i < |states|
    ensures |states| == |events| + 1 && (states[i].linked <==> ConnectedBefore(states, events, i))
  {
    hide Step;
    if i > 0 {
      ConnectionIsKept(states, events, i - 1);
      InvariantHolds(states, events, i - 1);
      hide Invariant, WellFormed, Enabled;
      LinkStep(states[i - 1], events[i - 1]);
    }
  }
}
