/** The request pipeline of the client: a queue and a flag, driven by completion handlers. */
module ClientSession {
  import opened Common

  // ------------------------------------------------------------- specification

  /** What a caller of `run` gives: the host of the URL, whether there is a callback, and whether there is a limit
      of time. */
  datatype Submission = Submission(host: nat, asynchronous: bool, timed: bool)

  /** A request context. `asynchronous` remembers that a callback was given; `hasCallback` is whether it is
      still there; `waiting` is a timer wait whose handler has not run yet. */
  datatype Context = Context(host: nat, asynchronous: bool, hasCallback: bool, tooLate: bool, waiting: bool)

  function NewContext(sub: Submission): Context {
    Context(sub.host, sub.asynchronous, sub.asynchronous, false, sub.timed)
  }

  /** A started operation and the request that was at the front when it was started. */
  datatype Operation = Resolve(r: nat) | Connect(r: nat) | Write(r: nat) | Read(r: nat)

  datatype Code = ResolveFailed | ConnectFailed | WriteFailed | ReadFailed | TimedOut

  datatype Answer = Response(of: nat) | Error(code: Code)

  /** An invocation of a callback: what it was told, and whether it left by an exception. */
  datatype Call = Call(id: nat, answer: Answer, threw: bool)

  /** Requests are named by the number of the `run` call that submitted them. `linked` says that a connection is
      established: whenever the queue is empty, that is when the socket is open. `peer` is the
      request whose host was resolved last: the connection goes there. `wire` holds the requests that
      were written on the current connection and whose response has not been read. `stored` is the request whose
      response the session holds; there is none once a response is in the hands of a callback. The last four
      components record what has happened. */
  datatype State = State(contexts: seq<Context>, requests: seq<nat>, pending: bool, ops: multiset<Operation>,
                         linked: bool, peer: nat, wire: seq<nat>, stored: Option<nat>,
                         calls: seq<Call>, answered: seq<nat>, thrown: nat, broken: bool)

  const Fresh := State([], [], false, multiset{}, false, 0, [], None, [], [], 0, false)

  datatype ReadEnd = Complete | EndOfStream | Failed

  /** `throws` is what the callback does if the handler invokes one: whether an exception leaves it. */
  datatype Event =
    | Run(sub: Submission)
    | Resolved(op: Operation, ok: bool, throws: bool)
    | Connected(op: Operation, ok: bool, throws: bool)
    | Written(op: Operation, ok: bool, throws: bool)
    | ReadEnded(op: Operation, end: ReadEnd, throws: bool)
    | TimerEnded(id: nat, expired: bool, throws: bool)

  /** An operation completes once; a timer handler runs once, with or without an error, and may report
      expiry although the timer has been cancelled since. */
  predicate Enabled(s: State, e: Event) {
    match e
    case Run(_) => true
    case Resolved(op, _, _) => op in s.ops && op.Resolve?
    case Connected(op, _, _) => op in s.ops && op.Connect?
    case Written(op, _, _) => op in s.ops && op.Write?
    case ReadEnded(op, _, _) => op in s.ops && op.Read?
    case TimerEnded(id, _, _) => id < |s.contexts| && s.contexts[id].waiting
  }

  predicate HasFront(s: State) {
    s.requests != [] && s.requests[0] < |s.contexts|
  }

  /** What the handlers rely on when they look at the front of the queue and at the response. */
  ghost predicate WellFormed(s: State) {
    forall op :: op in s.ops ==> HasFront(s) && (op.Read? ==> s.wire != [])
  }

  function Started(s: State, op: Operation): State {
    s.(pending := true, ops := s.ops + multiset{op})
  }

  /** A new connection forgets what was written on the old one. */
  function DoResolve(s: State): State
    requires s.requests != []
  {
    Started(s, Resolve(s.requests[0])).(linked := false, peer := s.requests[0], wire := [])
  }

  function DoWrite(s: State): State {
    if s.requests == [] then s.(pending := false) else Started(s, Write(s.requests[0]))
  }

  /** A callback is dropped once it has returned; it stays when it throws. */
  function Told(s: State, id: nat, answer: Answer, throws: bool): State
    requires id < |s.contexts|
  {
    var told := s.(calls := s.calls + [Call(id, answer, throws)]);
    if throws then told.(thrown := s.thrown + 1)
    else told.(contexts := s.contexts[id := s.contexts[id].(hasCallback := false)])
  }

  /** A request without a callback makes the handler throw. */
  function Fail(s: State, id: nat, code: Code, throws: bool): State
    requires id < |s.contexts|
  {
    var c := s.contexts[id];
    if !c.hasCallback then s.(thrown := s.thrown + 1)
    else if c.tooLate then s
    else Told(s, id, Error(code), throws)
  }

  function FailFront(s: State, code: Code, throws: bool): State
    requires HasFront(s)
  {
    Fail(s, s.requests[0], code, throws).(broken := true)
  }

  function OnRun(s: State, sub: Submission): State {
    var connectionRequired := s.requests == [] && !s.linked;
    var id := |s.contexts|;
    var queued := s.(contexts := s.contexts + [NewContext(sub)],
                     requests := s.requests + [id]);
    var resolving := if connectionRequired then DoResolve(queued) else queued;
    if resolving.pending then resolving else DoWrite(resolving)
  }

  function Ended(s: State, op: Operation): State {
    s.(ops := s.ops - multiset{op})
  }

  function OnResolved(s: State, op: Operation, ok: bool, throws: bool): State
    requires HasFront(s)
  {
    if ok then s.(ops := s.ops + multiset{Connect(op.r)}) else FailFront(s, ResolveFailed, throws)
  }

  function OnConnected(s: State, ok: bool, throws: bool): State
    requires HasFront(s)
  {
    if ok then DoWrite(s.(linked := true)) else FailFront(s, ConnectFailed, throws)
  }

  function OnWritten(s: State, op: Operation, ok: bool, throws: bool): State
    requires HasFront(s)
  {
    if ok then s.(ops := s.ops + multiset{Read(s.requests[0])}, wire := s.wire + [op.r])
    else FailFront(s, WriteFailed, throws)
  }

  function Popped(s: State): State
    requires HasFront(s) && s.wire != []
  {
    s.(requests := s.requests[1..], answered := s.answered + [s.requests[0]], wire := s.wire[1..], pending := false)
  }

  /** The front request is done: it is popped, and its callback, if it is still there, is told. */
  function OnResponse(s: State, throws: bool): State
    requires HasFront(s) && s.wire != []
  {
    var id, response := s.requests[0], s.wire[0];
    if !s.contexts[id].hasCallback then Popped(s).(stored := Some(response))
    else if s.contexts[id].tooLate then Popped(s)
    else Told(Popped(s), id, Response(response), throws).(stored := None)
  }

  /** An exception of the callback leaves the handler before the next write. */
  function OnRead(s: State, end: ReadEnd, throws: bool): State
    requires HasFront(s) && s.wire != []
  {
    match end
    case EndOfStream => DoResolve(s)
    case Failed => FailFront(s, ReadFailed, throws)
    case Complete =>
      var r := OnResponse(s, throws);
      if r.thrown > s.thrown then r else DoWrite(r)
  }

  /** An exception leaves the handler before the request is marked. */
  function OnTimer(s: State, id: nat, expired: bool, throws: bool): State
    requires id < |s.contexts|
  {
    var fired := s.(contexts := s.contexts[id := s.contexts[id].(waiting := false)]);
    if !expired || s.contexts[id].tooLate then fired
    else
      var failed := Fail(fired, id, TimedOut, throws);
      if failed.thrown > s.thrown then failed
      else failed.(contexts := failed.contexts[id := failed.contexts[id].(tooLate := true)])
  }

  function Step(s: State, e: Event): State
    requires WellFormed(s) && Enabled(s, e)
  {
    match e
    case Run(sub) => OnRun(s, sub)
    case Resolved(op, ok, throws) => OnResolved(Ended(s, op), op, ok, throws)
    case Connected(op, ok, throws) => OnConnected(Ended(s, op), ok, throws)
    case Written(op, ok, throws) => OnWritten(Ended(s, op), op, ok, throws)
    case ReadEnded(op, end, throws) => OnRead(Ended(s, op), end, throws)
    case TimerEnded(id, expired, throws) => OnTimer(s, id, expired, throws)
  }

  // ------------------------------------------------------------- the session object

  class SessionClient {
    var contexts: seq<Context>
    var requests: seq<nat>
    var pendingRequest: bool
    ghost var response: Option<nat>
    ghost var ops: multiset<Operation>
    var linked: bool
    ghost var peer: nat
    ghost var wire: seq<nat>
    ghost var calls: seq<Call>
    ghost var answered: seq<nat>
    ghost var thrown: nat
    ghost var broken: bool

    ghost function Now(): State
      reads this
    {
      State(contexts, requests, pendingRequest, ops, linked, peer, wire, response, calls, answered, thrown, broken)
    }

    constructor ()
      ensures Now() == Fresh
    {
      contexts, requests, pendingRequest, linked, response := [], [], false, false, None;
      ops, peer, wire, calls, answered, thrown, broken := multiset{}, 0, [], [], [], 0, false;
    }

    method RunRequest(sub: Submission)
      modifies this
      ensures Now() == OnRun(old(Now()), sub)
    {
      var id := |contexts|;
      contexts := contexts + [NewContext(sub)];
      var connectionRequired := requests == [] && !linked;
      requests := requests + [id];
      if connectionRequired {
        StartResolve();
      }
      if !pendingRequest {
        StartWrite();
      }
    }

    method StartResolve()
      requires requests != []
      modifies this
      ensures Now() == DoResolve(old(Now()))
    {
      pendingRequest := true;
      ops := ops + multiset{Resolve(requests[0])};
      linked, peer := false, requests[0];
      wire := [];
    }

    method StartWrite()
      modifies this
      ensures Now() == DoWrite(old(Now()))
    {
      if requests == [] {
        pendingRequest := false;
        return;
      }
      pendingRequest := true;
      ops := ops + multiset{Write(requests[0])};
    }

    /** The callback is invoked, and dropped when it returns. */
    method TellCallback(id: nat, ghost answer: Answer, callbackThrows: bool)
      requires id < |contexts|
      modifies this
      ensures Now() == Told(old(Now()), id, answer, callbackThrows)
    {
      calls := calls + [Call(id, answer, callbackThrows)];
      if callbackThrows {
        thrown := thrown + 1;
        return;
      }
      contexts := contexts[id := contexts[id].(hasCallback := false)];
    }

    /** `fail`: a callback is told; without one the handler is left by an exception. */
    method FailRequest(id: nat, code: Code, callbackThrows: bool) returns (throws: bool)
      requires id < |contexts|
      modifies this
      ensures Now() == Fail(old(Now()), id, code, callbackThrows) && throws == (thrown > old(thrown))
    {
      if contexts[id].hasCallback {
        if contexts[id].tooLate {
          return false;
        }
        TellCallback(id, Error(code), callbackThrows);
        return callbackThrows;
      }
      thrown := thrown + 1;
      return true;
    }

    /** An operation has failed: its request stays at the front, and the flag stays set. */
    method FailFrontRequest(code: Code, callbackThrows: bool)
      requires HasFront(Now())
      modifies this
      ensures Now() == FailFront(old(Now()), code, callbackThrows)
    {
      hide Fail;
      var _ := FailRequest(requests[0], code, callbackThrows);
      broken := true;
    }

    method HandleResolved(op: Operation, ok: bool, callbackThrows: bool)
      requires HasFront(Now()) && op in ops && op.Resolve?
      modifies this
      ensures Now() == OnResolved(Ended(old(Now()), op), op, ok, callbackThrows)
    {
      hide FailFront;
      ops := ops - multiset{op};
      if !ok {
        FailFrontRequest(ResolveFailed, callbackThrows);
        return;
      }
      ops := ops + multiset{Connect(op.r)};
    }

    method HandleConnected(op: Operation, ok: bool, callbackThrows: bool)
      requires HasFront(Now()) && op in ops && op.Connect?
      modifies this
      ensures Now() == OnConnected(Ended(old(Now()), op), ok, callbackThrows)
    {
      hide FailFront;
      ops := ops - multiset{op};
      if !ok {
        FailFrontRequest(ConnectFailed, callbackThrows);
        return;
      }
      linked := true;
      StartWrite();
    }

    method HandleWritten(op: Operation, ok: bool, callbackThrows: bool)
      requires HasFront(Now()) && op in ops && op.Write?
      modifies this
      ensures Now() == OnWritten(Ended(old(Now()), op), op, ok, callbackThrows)
    {
      hide FailFront;
      ops := ops - multiset{op};
      if !ok {
        FailFrontRequest(WriteFailed, callbackThrows);
        return;
      }
      wire := wire + [op.r];
      ops := ops + multiset{Read(requests[0])};
    }

    method HandleRead(op: Operation, end: ReadEnd, callbackThrows: bool)
      requires HasFront(Now()) && wire != [] && op in ops && op.Read?
      modifies this
      ensures Now() == OnRead(Ended(old(Now()), op), end, callbackThrows)
    {
      hide FailFront, OnResponse;
      ops := ops - multiset{op};
      match end
      case EndOfStream =>
        StartResolve();
      case Failed =>
        FailFrontRequest(ReadFailed, callbackThrows);
      case Complete =>
        var throws := FinishFront(callbackThrows);
        if !throws {
          StartWrite();
        }
    }

    method PopFront() returns (id: nat)
      requires HasFront(Now()) && wire != []
      modifies this
      ensures id == old(requests[0]) && Now() == Popped(old(Now()))
    {
      id := requests[0];
      requests := requests[1..];
      pendingRequest := false;
      answered, wire := answered + [id], wire[1..];
    }

    /** The front request is popped and told, and the flag is cleared. */
    method FinishFront(callbackThrows: bool) returns (throws: bool)
      requires HasFront(Now()) && wire != []
      modifies this
      ensures Now() == OnResponse(old(Now()), callbackThrows) && throws == (thrown > old(thrown))
    {
      hide Told;
      ghost var answer := wire[0];
      var id := PopFront();
      if contexts[id].hasCallback {
        if contexts[id].tooLate {
          return false;
        }
        ToldThrows(Now(), id, Response(answer), callbackThrows);
        TellCallback(id, Response(answer), callbackThrows);
        response := None;
        return callbackThrows;
      }
      response := Some(answer);
      return false;
    }

    method HandleTimer(id: nat, expired: bool, callbackThrows: bool)
      requires id < |contexts| && contexts[id].waiting
      modifies this
      ensures Now() == OnTimer(old(Now()), id, expired, callbackThrows)
    {
      hide Fail;
      contexts := contexts[id := contexts[id].(waiting := false)];
      if expired && !contexts[id].tooLate {
        FailTouchesLittle(Now(), id, TimedOut, callbackThrows);
        var throws := FailRequest(id, TimedOut, callbackThrows);
        if !throws {
          contexts := contexts[id := contexts[id].(tooLate := true)];
        }
      }
    }

    /** A time-out whose callback submits requests of its own while it is invoked: the timer handler holds no lock. */
    method HandleTimeOut(id: nat, retries: seq<Submission>, callbackThrows: bool)
      requires id < |contexts| && contexts[id].waiting && contexts[id].hasCallback && !contexts[id].tooLate
      modifies this
      ensures Now() == Submitted(OnTimer(old(Now()), id, true, callbackThrows), retries)
    {
      hide OnRun, OnTimer;
      ghost var before := Now();
      contexts := contexts[id := contexts[id].(waiting := false)];
      calls := calls + [Call(id, Error(TimedOut), callbackThrows)];
      assert Now() == Invoked(before, id, callbackThrows);
      for k := 0 to |retries|
        invariant Now() == Submitted(Invoked(before, id, callbackThrows), retries[..k])
      {
        assert retries[..k + 1][..k] == retries[..k];
        RunRequest(retries[k]);
      }
      assert retries[..|retries|] == retries;
      SubmittingTouchesLittle(Invoked(before, id, callbackThrows), retries);
      TimeOutThenSubmissions(before, id, retries, callbackThrows);
      ghost var called := Now();
      if callbackThrows {
        thrown := thrown + 1;
        return;
      }
      contexts := contexts[id := contexts[id].(hasCallback := false, tooLate := true)];
    }

    /** Whatever comes next: its handler makes the step of the specification, and the invariant of every run holds. */
    method Handle(e: Event)
      requires Invariant(Now()) && WellFormed(Now()) && Enabled(Now(), e)
      modifies this
      ensures Now() == Step(old(Now()), e)
      ensures Invariant(Now()) && WellFormed(Now())
    {
      ghost var before := Now();
      StepKeepsInvariant(before, e);
      hide Invariant, OnRun, OnResolved, OnConnected, OnWritten, OnRead, OnTimer;
      match e
      case Run(sub) => RunRequest(sub);
      case Resolved(op, ok, throws) => HandleResolved(op, ok, throws);
      case Connected(op, ok, throws) => HandleConnected(op, ok, throws);
      case Written(op, ok, throws) => HandleWritten(op, ok, throws);
      case ReadEnded(op, end, throws) => HandleRead(op, end, throws);
      case TimerEnded(id, expired, throws) => HandleTimer(id, expired, throws);
    }
  }

  // ------------------------------------------------------------------ invariants

  /** Requests wait although nothing is outstanding and nothing has failed. */
  predicate Stalled(s: State) {
    s.requests != [] && !s.pending
  }

  /** A request is written and read on an established connection, and its response is awaited after the write. */
  predicate Stage(s: State, op: Operation) {
    && s.linked == (op.Write? || op.Read?) && s.wire == (if op.Read? then [op.r] else [])
    && (s.linked || s.peer == op.r)
  }

  /** What is in progress: exactly one operation while the flag is set and nothing has failed, always for
      the front request, and a response is awaited for it alone. */
  ghost predicate OneAtATime(s: State) {
    && (s.requests == [] ==> !s.pending && s.wire == [] && !s.broken)
    && (Stalled(s) ==> s.linked && s.wire == [] && !s.broken)
    && if !s.pending || s.broken then s.ops == multiset{}
       else exists op :: s.ops == multiset{op} && op.r == s.requests[0] && Stage(s, op)
  }

  ghost predicate InOrder(s: State) {
    s.answered + s.requests == UpTo(|s.contexts|)
  }

  /** The callback of a request has been given its response. */
  predicate Responded(s: State, id: nat) {
    Call(id, Response(id), true) in s.calls || Call(id, Response(id), false) in s.calls
  }

  /** A callback is only told the response of its own request, once that is answered; a time-out, after which the
      request is marked unless the callback threw; or the failure of the front operation, which is final. */
  ghost predicate CallProper(s: State, call: Call) {
    && call.id < |s.contexts| && s.contexts[call.id].asynchronous
    && (!call.threw ==> !s.contexts[call.id].hasCallback)
    && match call.answer
       case Response(of) => of == call.id < |s.answered|
       case Error(TimedOut) => !s.contexts[call.id].waiting && s.contexts[call.id].tooLate == !call.threw
       case Error(_) => s.broken && s.requests != [] && call.id == s.requests[0]
  }

  /** A callback is invoked again only after it threw, and never told the same thing twice; responses are given
      in the order of submission. */
  ghost predicate CallsProper(s: State) {
    && (forall call :: call in s.calls ==> CallProper(s, call))
    && (forall j, k :: 0 <= j < k < |s.calls| && s.calls[j].id == s.calls[k].id ==>
          s.calls[j].threw && s.calls[j].answer != s.calls[k].answer)
    && forall j, k :: 0 <= j < k < |s.calls| && s.calls[j].answer.Response? && s.calls[k].answer.Response? ==>
         s.calls[j].id < s.calls[k].id
  }

  /** A callback has returned. */
  ghost predicate Returned(s: State, id: nat) {
    exists call :: call in s.calls && call.id == id && !call.threw
  }

  ghost predicate ContextProper(s: State, id: nat)
    requires id < |s.contexts|
  {
    var c := s.contexts[id];
    && (c.hasCallback ==> c.asynchronous)
    && (c.asynchronous && !c.hasCallback ==> Returned(s, id))
    && (c.tooLate ==> c.asynchronous && !c.hasCallback && !c.waiting && Call(id, Error(TimedOut), false) in s.calls)
    && (c.asynchronous && id < |s.answered| ==> c.tooLate || Responded(s, id))
  }

  ghost predicate ContextsProper(s: State) {
    forall id :: 0 <= id < |s.contexts| ==> ContextProper(s, id)
  }

  /** The session holds the response of the request answered last, unless a callback was given it. */
  ghost predicate StoredProper(s: State) {
    s.stored == if s.answered == [] then None
                else
                  var last := s.answered[|s.answered| - 1];
                  if Responded(s, last) then None else Some(last)
  }

  ghost predicate Delivered(s: State) {
    CallsProper(s) && ContextsProper(s) && StoredProper(s)
  }

  ghost predicate Invariant(s: State) {
    OneAtATime(s) && InOrder(s) && s.peer <= |s.answered| && Delivered(s)
  }

  lemma InOrderFront(s: State)
    requires InOrder(s)
    ensures |s.contexts| == |s.answered| + |s.requests|
    ensures forall i :: 0 <= i < |s.answered| ==> s.answered[i] == i
    ensures forall i :: 0 <= i < |s.requests| ==> s.requests[i] == |s.answered| + i
  {
    forall i | 0 <= i < |s.answered| ensures s.answered[i] == i {
      assert (s.answered + s.requests)[i] == s.answered[i];
    }
    forall i | 0 <= i < |s.requests| ensures s.requests[i] == |s.answered| + i {
      assert (s.answered + s.requests)[|s.answered| + i] == s.requests[i];
    }
  }

  lemma InvariantIsWellFormed(s: State)
    requires Invariant(s)
    ensures WellFormed(s)
  {
    InOrderFront(s);
  }

  /** Taking the one operation in progress out: what every completion handler starts from. */
  lemma TheOneOperation(s: State, op: Operation)
    requires OneAtATime(s) && InOrder(s) && op in s.ops
    ensures s.ops == multiset{op} && Ended(s, op).ops == multiset{} && !s.broken && s.pending
    ensures HasFront(s) && op.r == s.requests[0] == |s.answered| && Stage(s, op)
  {
    InOrderFront(s);
    if s.pending && !s.broken {
      var only :| s.ops == multiset{only} && only.r == s.requests[0] && Stage(s, only);
      assert op == only;
    }
  }

  // ----------------------------------------------------------- what is delivered

  lemma ToldThrows(s: State, id: nat, answer: Answer, throws: bool)
    requires id < |s.contexts|
    ensures var t := Told(s, id, answer, throws);
            && t == s.(contexts := t.contexts, calls := s.calls + [Call(id, answer, throws)], thrown := t.thrown)
            && t.contexts == s.contexts[id := s.contexts[id].(hasCallback := s.contexts[id].hasCallback && throws)]
            && t.thrown == s.thrown + if throws then 1 else 0
  {
    assert s.contexts == s.contexts[id := s.contexts[id]];
  }

  lemma FailTouchesLittle(s: State, id: nat, code: Code, throws: bool)
    requires id < |s.contexts|
    ensures var f := Fail(s, id, code, throws);
            |f.contexts| == |s.contexts| && s.thrown <= f.thrown
            && f == s.(contexts := f.contexts, calls := f.calls, thrown := f.thrown)
  {
  }

  /** Nothing is delivered or failed: only the queue grows, or an operation makes progress. */
  lemma DeliveredCarriesOver(s: State, t: State)
    requires Delivered(s)
    requires t.contexts == s.contexts && t.calls == s.calls && t.answered == s.answered && t.stored == s.stored
    requires s.broken ==> t.broken && s.requests != [] && t.requests != [] && t.requests[0] == s.requests[0]
    ensures Delivered(t)
  {
    forall call | call in t.calls ensures CallProper(t, call) {
      assert CallProper(s, call);
    }
    forall id | 0 <= id < |t.contexts| ensures ContextProper(t, id) {
      assert ContextProper(s, id);
    }
  }

  lemma RunKeepsDelivered(s: State, sub: Submission)
    requires Delivered(s) && (s.broken ==> s.requests != []) && |s.answered| <= |s.contexts|
    ensures Delivered(OnRun(s, sub))
  {
    var r := OnRun(s, sub);
    assert r.contexts == s.contexts + [NewContext(sub)];
    assert r.requests == s.requests + [|s.contexts|] && r.calls == s.calls && r.answered == s.answered;
    assert r.stored == s.stored && r.broken == s.broken;
    hide OnRun;
    forall call | call in r.calls ensures CallProper(r, call) {
      assert CallProper(s, call);
    }
    forall id | 0 <= id < |r.contexts| ensures ContextProper(r, id) {
      assert id < |s.contexts| ==> ContextProper(s, id);
    }
  }

  /** One more invocation, of a callback that is still there. */
  lemma CallRecorded(s: State, r: State, call: Call)
    requires CallsProper(s) && ContextsProper(s) && call.id < |s.contexts| && s.contexts[call.id].hasCallback
    requires r.calls == s.calls + [call] && |r.contexts| == |s.contexts| && |s.answered| <= |r.answered|
    requires forall id :: 0 <= id < |s.contexts| && id != call.id ==> r.contexts[id] == s.contexts[id]
    requires r.contexts[call.id].asynchronous && r.contexts[call.id].hasCallback == call.threw
    requires s.contexts[call.id].waiting || (r.contexts[call.id].waiting == s.contexts[call.id].waiting
                                             && r.contexts[call.id].tooLate == s.contexts[call.id].tooLate)
    requires CallProper(r, call)
    requires s.broken ==> r.broken && r.requests == s.requests
    requires forall k :: 0 <= k < |s.calls| && s.calls[k].id == call.id ==> s.calls[k].answer != call.answer
    requires call.answer.Response? ==>
               forall k :: 0 <= k < |s.calls| && s.calls[k].answer.Response? ==> s.calls[k].id < call.id
    ensures CallsProper(r)
  {
    forall c | c in r.calls ensures CallProper(r, c) {
      if c in s.calls {
        assert CallProper(s, c);
      }
    }
    assert forall k :: 0 <= k < |s.calls| ==> CallProper(s, s.calls[k]);
  }

  /** The contexts beside it: only the one whose callback was invoked has changed. */
  lemma ContextsRecorded(s: State, r: State, call: Call)
    requires ContextsProper(s) && call.id < |s.contexts| && s.contexts[call.id].hasCallback
    requires r.calls == s.calls + [call] && |r.contexts| == |s.contexts| && |s.answered| <= |r.answered|
    requires forall id :: 0 <= id < |s.contexts| && id != call.id ==> r.contexts[id] == s.contexts[id]
    requires r.contexts[call.id].asynchronous && r.contexts[call.id].hasCallback == call.threw
    requires r.contexts[call.id].tooLate ==>
               call == Call(call.id, Error(TimedOut), false) && !r.contexts[call.id].waiting
    requires |r.answered| > |s.answered| ==>
               |r.answered| == |s.answered| + 1 && call.id == |s.answered| && call.answer == Response(call.id)
    ensures ContextsProper(r)
  {
    assert call in r.calls;
    forall id | 0 <= id < |r.contexts| ensures ContextProper(r, id) {
      assert ContextProper(s, id);
      if Returned(s, id) {
        var c :| c in s.calls && c.id == id && !c.threw;
        assert c in r.calls;
      }
    }
  }

  lemma ErrorKeepsStored(s: State, r: State, call: Call)
    requires StoredProper(s) && r.calls == s.calls + [call] && call.answer.Error?
    requires r.answered == s.answered && r.stored == s.stored
    ensures StoredProper(r)
  {
  }

  lemma FailFrontKeepsDelivered(s: State, code: Code, throws: bool)
    requires Delivered(s) && HasFront(s) && !s.broken && code != TimedOut
    ensures Delivered(FailFront(s, code, throws))
  {
    var id, r := s.requests[0], FailFront(s, code, throws);
    var call := Call(id, Error(code), throws);
    assert ContextProper(s, id);
    if s.contexts[id].hasCallback {
      forall k | 0 <= k < |s.calls| ensures s.calls[k].answer != call.answer {
        assert CallProper(s, s.calls[k]);
      }
      hide FailFront, CallsProper, ContextsProper, StoredProper;
      FailedFront(s, code, throws);
      CallRecorded(s, r, call);
      ContextsRecorded(s, r, call);
      ErrorKeepsStored(s, r, call);
    } else {
      DeliveredCarriesOver(s, r);
    }
  }

  lemma FailedFront(s: State, code: Code, throws: bool)
    requires HasFront(s) && s.contexts[s.requests[0]].hasCallback && !s.contexts[s.requests[0]].tooLate
    ensures var id := s.requests[0];
            var r := FailFront(s, code, throws);
            && r == s.(calls := s.calls + [Call(id, Error(code), throws)], broken := true,
                       contexts := r.contexts, thrown := r.thrown)
            && r.contexts == s.contexts[id := s.contexts[id].(hasCallback := throws)]
  {
    var id := s.requests[0];
    assert s.contexts[id].hasCallback ==> s.contexts == s.contexts[id := s.contexts[id]];
  }

  /** A timer handler that invokes no callback. */
  lemma WaitEnded(s: State, r: State, id: nat)
    requires Delivered(s) && id < |s.contexts|
    requires r == s.(contexts := s.contexts[id := s.contexts[id].(waiting := false)], thrown := r.thrown)
    ensures Delivered(r)
  {
    forall call | call in r.calls ensures CallProper(r, call) {
      assert CallProper(s, call);
    }
    forall j | 0 <= j < |r.contexts| ensures ContextProper(r, j) {
      assert ContextProper(s, j);
      assert Returned(s, j) ==> Returned(r, j);
    }
  }

  lemma TimerFired(s: State, id: nat, expired: bool, throws: bool)
    requires id < |s.contexts| && !s.contexts[id].tooLate
    ensures var c, r := s.contexts[id].(waiting := false), OnTimer(s, id, expired, throws);
            if expired && c.hasCallback
            then r == s.(calls := s.calls + [Call(id, Error(TimedOut), throws)], thrown := r.thrown,
                         contexts := s.contexts[id := c.(hasCallback := throws, tooLate := !throws)])
            else r == s.(contexts := s.contexts[id := c], thrown := r.thrown)
  {
  }

  lemma TimerKeepsDelivered(s: State, id: nat, expired: bool, throws: bool)
    requires Delivered(s) && id < |s.contexts| && s.contexts[id].waiting
    ensures Delivered(OnTimer(s, id, expired, throws))
  {
    var r := OnTimer(s, id, expired, throws);
    assert ContextProper(s, id);
    TimerFired(s, id, expired, throws);
    if expired && s.contexts[id].hasCallback {
      var call := Call(id, Error(TimedOut), throws);
      forall k | 0 <= k < |s.calls| && s.calls[k].id == id ensures s.calls[k].answer != call.answer {
        assert CallProper(s, s.calls[k]);
      }
      hide OnTimer, CallsProper, ContextsProper, StoredProper;
      CallRecorded(s, r, call);
      ContextsRecorded(s, r, call);
      ErrorKeepsStored(s, r, call);
    } else {
      WaitEnded(s, r, id);
    }
  }

  /** A request that has lost its callback before it is answered was told of a time-out, or failed. */
  lemma LostCallback(s: State, id: nat)
    requires Delivered(s) && |s.answered| <= id < |s.contexts|
    requires s.contexts[id].asynchronous && !s.contexts[id].hasCallback
    ensures s.contexts[id].tooLate || (s.broken && s.requests != [] && id == s.requests[0])
  {
    assert ContextProper(s, id);
    var call :| call in s.calls && call.id == id && !call.threw;
    assert CallProper(s, call);
  }

  lemma ResponseTold(s: State, throws: bool)
    requires Delivered(s) && HasFront(s) && s.requests[0] == |s.answered| && s.wire == [s.requests[0]] && !s.broken
    requires s.contexts[s.requests[0]].hasCallback
    ensures Delivered(OnResponse(s, throws))
  {
    var id, r := s.requests[0], OnResponse(s, throws);
    var call := Call(id, Response(id), throws);
    assert ContextProper(s, id);
    assert r.calls == s.calls + [call] && r.contexts == s.contexts[id := s.contexts[id].(hasCallback := throws)];
    assert r.answered == s.answered + [id] && r.stored == None && call in r.calls;
    forall k | 0 <= k < |s.calls| ensures s.calls[k].answer.Response? ==> s.calls[k].id < id {
      assert CallProper(s, s.calls[k]);
    }
    hide OnResponse, CallsProper, ContextsProper;
    CallRecorded(s, r, call);
    ContextsRecorded(s, r, call);
  }

  lemma ResponseKept(s: State, throws: bool)
    requires Delivered(s) && HasFront(s) && s.requests[0] == |s.answered| && s.wire == [s.requests[0]] && !s.broken
    requires !s.contexts[s.requests[0]].hasCallback
    ensures Delivered(OnResponse(s, throws))
  {
    var id, r := s.requests[0], OnResponse(s, throws);
    forall call | call in r.calls ensures CallProper(r, call) && call.answer != Response(id) {
      assert CallProper(s, call);
    }
    if s.contexts[id].asynchronous {
      LostCallback(s, id);
    }
    forall j | 0 <= j < |r.contexts| ensures ContextProper(r, j) {
      assert ContextProper(s, j);
      assert Returned(s, j) ==> Returned(r, j);
    }
  }

  lemma ResponseKeepsDelivered(s: State, throws: bool)
    requires Delivered(s) && HasFront(s) && s.requests[0] == |s.answered| && s.wire == [s.requests[0]] && !s.broken
    ensures Delivered(OnResponse(s, throws))
  {
    hide Delivered;
    if s.contexts[s.requests[0]].hasCallback {
      ResponseTold(s, throws);
    } else {
      ResponseKept(s, throws);
    }
  }

  // ----------------------------------------------------------- what is in progress

  lemma RunKeepsOneAtATime(s: State, sub: Submission)
    requires OneAtATime(s)
    ensures OneAtATime(OnRun(s, sub)) && !Stalled(OnRun(s, sub))
  {
    var r := OnRun(s, sub);
    if !s.pending {
      var next := if s.requests != [] || s.linked then Write(r.requests[0]) else Resolve(r.requests[0]);
      assert r.ops == multiset{next} && Stage(r, next);
    }
  }

  lemma RunKeepsInvariant(s: State, sub: Submission)
    requires Invariant(s)
    ensures Invariant(OnRun(s, sub))
  {
    InOrderFront(s);
    hide Delivered, OneAtATime;
    var id, r := |s.contexts|, OnRun(s, sub);
    RunKeepsOneAtATime(s, sub);
    assert s.broken ==> s.requests != [] by { BrokenIsQueued(s); }
    RunKeepsDelivered(s, sub);
    UpToGrows(id);
    hide UpTo;
    Associative(s.answered, s.requests, [id]);
  }

  lemma BrokenIsQueued(s: State)
    requires OneAtATime(s)
    ensures s.broken ==> s.requests != [] && s.pending && s.ops == multiset{}
  {
  }

  lemma FailureKeepsInvariant(s: State, op: Operation, code: Code, throws: bool)
    requires Invariant(s) && op in s.ops && code != TimedOut
    ensures HasFront(s) && Invariant(FailFront(Ended(s, op), code, throws))
  {
    TheOneOperation(s, op);
    DeliveredCarriesOver(s, Ended(s, op));
    FailFrontKeepsDelivered(Ended(s, op), code, throws);
    FailTouchesLittle(Ended(s, op), s.requests[0], code, throws);
    hide Delivered, Fail;
  }

  lemma ProgressKeepsInvariant(s: State, op: Operation, t: State, next: Operation)
    requires Invariant(s) && op in s.ops && t.ops == Ended(s, op).ops + multiset{next} && t.pending
    requires t.contexts == s.contexts && t.calls == s.calls && t.answered == s.answered && t.requests == s.requests
    requires t.broken == s.broken && next.r == op.r && Stage(t, next) && t.stored == s.stored
    requires t.peer == s.peer || t.peer == op.r
    ensures Invariant(t)
  {
    TheOneOperation(s, op);
    DeliveredCarriesOver(s, t);
    hide Delivered;
    assert t.ops == multiset{next};
  }

  lemma OperationKeepsInvariant(s: State, e: Event)
    requires Invariant(s) && WellFormed(s) && Enabled(s, e) && (e.Resolved? || e.Connected? || e.Written?)
    ensures Invariant(Step(s, e))
  {
    var op := e.op;
    TheOneOperation(s, op);
    hide Invariant, FailFront;
    match e
    case Resolved(_, ok, throws) =>
      if ok {
        ProgressKeepsInvariant(s, op, Step(s, e), Connect(op.r));
      } else {
        FailureKeepsInvariant(s, op, ResolveFailed, throws);
      }
    case Connected(_, ok, throws) =>
      if ok {
        ProgressKeepsInvariant(s, op, Step(s, e), Write(op.r));
      } else {
        FailureKeepsInvariant(s, op, ConnectFailed, throws);
      }
    case Written(_, ok, throws) =>
      if ok {
        ProgressKeepsInvariant(s, op, Step(s, e), Read(op.r));
      } else {
        FailureKeepsInvariant(s, op, WriteFailed, throws);
      }
  }

  /** What a response leaves in progress: nothing, before the next write is started. */
  lemma Answered(s: State, throws: bool)
    requires HasFront(s) && s.wire == [s.requests[0]]
    ensures var r := OnResponse(s, throws);
            && r.requests == s.requests[1..] && r.answered == s.answered + [s.requests[0]] && r.wire == []
            && r.ops == s.ops && r.broken == s.broken && r.linked == s.linked && r.peer == s.peer && !r.pending
            && |r.contexts| == |s.contexts|
            && (r.thrown > s.thrown <==>
                  throws && s.contexts[s.requests[0]].hasCallback && !s.contexts[s.requests[0]].tooLate)
  {
  }

  lemma CompleteKeepsInvariant(s: State, op: Operation, throws: bool)
    requires Invariant(s) && op in s.ops && op.Read?
    ensures HasFront(s) && s.wire != [] && Invariant(OnRead(Ended(s, op), Complete, throws))
  {
    var e := Ended(s, op);
    TheOneOperation(s, op);
    DeliveredCarriesOver(s, e);
    ResponseKeepsDelivered(e, throws);
    Answered(e, throws);
    var popped, r := OnResponse(e, throws), OnRead(e, Complete, throws);
    hide Delivered, OnResponse;
    WriteKeepsDelivered(popped);
    assert s.requests == [op.r] + s.requests[1..];
    Associative(s.answered, [op.r], s.requests[1..]);
    assert InOrder(r);
    if r.pending {
      assert r.ops == multiset{Write(r.requests[0])};
    }
  }

  lemma WriteKeepsDelivered(s: State)
    requires Delivered(s) && !s.broken
    ensures Delivered(DoWrite(s))
  {
    DeliveredCarriesOver(s, DoWrite(s));
  }

  lemma ReadKeepsInvariant(s: State, op: Operation, end: ReadEnd, throws: bool)
    requires Invariant(s) && WellFormed(s) && op in s.ops && op.Read?
    ensures Invariant(Step(s, ReadEnded(op, end, throws)))
  {
    TheOneOperation(s, op);
    hide Invariant, FailFront, OnResponse;
    match end
    case EndOfStream => ProgressKeepsInvariant(s, op, Step(s, ReadEnded(op, end, throws)), Resolve(op.r));
    case Failed => FailureKeepsInvariant(s, op, ReadFailed, throws);
    case Complete => CompleteKeepsInvariant(s, op, throws);
  }

  lemma TimerKeepsInvariant(s: State, id: nat, expired: bool, throws: bool)
    requires Invariant(s) && id < |s.contexts| && s.contexts[id].waiting
    ensures Invariant(OnTimer(s, id, expired, throws))
  {
    TimerKeepsDelivered(s, id, expired, throws);
    assert !s.contexts[id].tooLate by { assert ContextProper(s, id); }
    TimerFired(s, id, expired, throws);
    hide Delivered, OnTimer;
  }

  lemma StepKeepsInvariant(s: State, e: Event)
    requires Invariant(s) && WellFormed(s) && Enabled(s, e)
    ensures Invariant(Step(s, e)) && WellFormed(Step(s, e))
  {
    hide Invariant, WellFormed;
    match e {
      case Run(sub) => RunKeepsInvariant(s, sub);
      case ReadEnded(op, end, throws) => ReadKeepsInvariant(s, op, end, throws);
      case TimerEnded(id, expired, throws) => TimerKeepsInvariant(s, id, expired, throws);
      case _ => OperationKeepsInvariant(s, e);
    }
    InvariantIsWellFormed(Step(s, e));
  }

  // ------------------------------------------------------------------ every run

  /** The states of a run from a fresh session, one more than its events. */
  ghost predicate IsRun(states: seq<State>, events: seq<Event>) {
    && |states| == |events| + 1 && states[0] == Fresh
    && forall i :: 0 <= i < |events| ==>
         WellFormed(states[i]) && Enabled(states[i], events[i]) && states[i + 1] == Step(states[i], events[i])
  }

  lemma FreshInvariant()
    ensures Invariant(Fresh)
  {
    UpToGrows(0);
  }

  lemma {:induction false} InvariantHolds(states: seq<State>, events: seq<Event>, i: nat)
    requires IsRun(states, events) && i < |states|
    ensures Invariant(states[i]) && WellFormed(states[i])
  {
    hide Invariant, WellFormed, Step;
    if i == 0 {
      FreshInvariant();
      InvariantIsWellFormed(Fresh);
    } else {
      InvariantHolds(states, events, i - 1);
      StepKeepsInvariant(states[i - 1], events[i - 1]);
    }
  }

  /** The last thing that could stall or revive the pipeline was a callback that threw on its response while
      other requests were waiting; no request has been submitted since. */
  ghost predicate StalledBy(states: seq<State>, events: seq<Event>, i: nat)
    requires |states| == |events| + 1 && i < |states|
  {
    i > 0 &&
    var s := states[i - 1];
    match events[i - 1]
    case Run(_) => false
    case ReadEnded(_, Complete, true) => |s.requests| > 1 && HasFront(s) && s.contexts[s.requests[0]].hasCallback
    case _ => StalledBy(states, events, i - 1)
  }

  lemma StallsExactly(s: State, e: Event)
    requires Invariant(s) && WellFormed(s) && Enabled(s, e)
    ensures Stalled(Step(s, e)) <==>
              match e
              case Run(_) => false
              case ReadEnded(_, Complete, true) =>
                |s.requests| > 1 && HasFront(s) && s.contexts[s.requests[0]].hasCallback
              case _ => Stalled(s)
  {
    match e
    case Run(sub) => RunKeepsOneAtATime(s, sub);
    case TimerEnded(id, expired, throws) =>
      assert !s.contexts[id].tooLate by { assert ContextProper(s, id); }
      TimerFired(s, id, expired, throws);
      hide OnTimer;
    case ReadEnded(op, end, throws) =>
      TheOneOperation(s, op);
      FailTouchesLittle(Ended(s, op), s.requests[0], ReadFailed, throws);
      if end.Complete? {
        Answered(Ended(s, op), throws);
        assert ContextProper(s, s.requests[0]);
      }
      hide OnResponse, Fail;
    case _ => OperationDoesNotStall(s, e);
  }

  lemma OperationDoesNotStall(s: State, e: Event)
    requires Invariant(s) && WellFormed(s) && Enabled(s, e) && (e.Resolved? || e.Connected? || e.Written?)
    ensures Stalled(Step(s, e)) == Stalled(s) == false
  {
    TheOneOperation(s, e.op);
    hide Invariant;
    FailTouchesLittle(Ended(s, e.op), s.requests[0],
                      if e.Resolved? then ResolveFailed else if e.Connected? then ConnectFailed else WriteFailed,
                      e.throws);
    hide Fail;
  }

  lemma {:induction false} StallHolds(states: seq<State>, events: seq<Event>, i: nat)
    requires IsRun(states, events) && i < |states|
    ensures Stalled(states[i]) <==> StalledBy(states, events, i)
  {
    hide Step, Stalled;
    if i == 0 {
      assert !Stalled(Fresh) by { NothingStalled(); }
    } else {
      StallHolds(states, events, i - 1);
      InvariantHolds(states, events, i - 1);
      hide Invariant, WellFormed;
      StallsExactly(states[i - 1], events[i - 1]);
    }
  }

  lemma NothingStalled()
    ensures !Stalled(Fresh)
  {
  }

  /** At most one operation is outstanding, always on behalf of the front request; a write or read has a
      connection, and a read follows the write. The flag is set exactly while there are requests, except between a
      callback that threw on its response and the next submission. What the handlers rely on always holds: any
      enabled event can come next. */
  lemma OneOperationForTheFront(states: seq<State>, events: seq<Event>, i: nat)
    requires IsRun(states, events) && i < |states|
    ensures WellFormed(states[i])
    ensures states[i].pending ==> states[i].requests != []
    ensures (states[i].pending <==> states[i].requests != []) <==> !StalledBy(states, events, i)
    ensures |states[i].ops| <= 1
    ensures forall op :: op in states[i].ops ==>
              states[i].requests != [] && op.r == states[i].requests[0] && Stage(states[i], op)
  {
    hide Step, StalledBy;
    InvariantHolds(states, events, i);
    StallHolds(states, events, i);
  }

  /** Requests are answered in the order of submission, none lost and none twice. A callback is still there
      exactly while every invocation of it threw. A callback is given the response of its own request once that is
      answered, unless it was told of a time-out; it is never told the same thing twice. */
  lemma CallbacksGetTheirOwnResponse(states: seq<State>, events: seq<Event>, i: nat)
    requires IsRun(states, events) && i < |states|
    ensures var s := states[i];
            && s.answered + s.requests == UpTo(|s.contexts|)
            && CallsProper(s)
            && forall id :: 0 <= id < |s.contexts| && s.contexts[id].asynchronous ==>
                 && (s.contexts[id].hasCallback <==> forall call :: call in s.calls && call.id == id ==> call.threw)
                 && (s.contexts[id].tooLate <==> Call(id, Error(TimedOut), false) in s.calls)
                 && (id in s.answered ==> s.contexts[id].tooLate || Responded(s, id))
                 && (s.contexts[id].tooLate ==> Call(id, Response(id), false) !in s.calls)
  {
    hide Step;
    InvariantHolds(states, events, i);
    var s := states[i];
    InOrderFront(s);
    forall id | 0 <= id < |s.contexts| && s.contexts[id].asynchronous
      ensures s.contexts[id].hasCallback <==> forall call :: call in s.calls && call.id == id ==> call.threw
      ensures s.contexts[id].tooLate <==> Call(id, Error(TimedOut), false) in s.calls
      ensures id in s.answered ==> s.contexts[id].tooLate || Responded(s, id)
      ensures s.contexts[id].tooLate ==> Call(id, Response(id), false) !in s.calls
    {
      assert ContextProper(s, id);
      forall call | call in s.calls && call.id == id ensures CallProper(s, call) {
      }
    }
  }

  /** A callback that never throws is invoked exactly once for an answered request: with the response of that
      request, or with the time-out that came before it. */
  lemma AnsweredExactlyOnce(states: seq<State>, events: seq<Event>, i: nat, id: nat) returns (k: nat)
    requires IsRun(states, events) && i < |states| && id in states[i].answered
    requires id < |states[i].contexts| && states[i].contexts[id].asynchronous
    requires forall call :: call in states[i].calls && call.id == id ==> !call.threw
    ensures k < |states[i].calls|
    ensures states[i].calls[k]
         == Call(id, if states[i].contexts[id].tooLate then Error(TimedOut) else Response(id), false)
    ensures forall j :: 0 <= j < |states[i].calls| && states[i].calls[j].id == id ==> j == k
  {
    hide Step, IsRun, StoredProper;
    CallbacksGetTheirOwnResponse(states, events, i);
    var s := states[i];
    var told := Call(id, if s.contexts[id].tooLate then Error(TimedOut) else Response(id), false);
    assert told in s.calls;
    k :| 0 <= k < |s.calls| && s.calls[k] == told;
    forall j | 0 <= j < |s.calls| && s.calls[j].id == id ensures j == k {
      assert s.calls[j] in s.calls;
      assert j < k || j == k || k < j;
    }
  }

  /** The session holds the response of the request that was answered last, unless that request's callback was
      given it. A request without a callback at that time is one that never had one, or one that timed out: the
      response to a time-out is not dropped. */
  lemma StoredIsTheLastUndelivered(states: seq<State>, events: seq<Event>, i: nat)
    requires IsRun(states, events) && i < |states|
    ensures states[i].stored.Some? <==>
              states[i].answered != [] && !Responded(states[i], states[i].answered[|states[i].answered| - 1])
    ensures states[i].stored.Some? ==>
              var last := states[i].answered[|states[i].answered| - 1];
              && states[i].stored.value == last < |states[i].contexts|
              && (states[i].contexts[last].asynchronous ==> states[i].contexts[last].tooLate)
  {
    hide Step;
    InvariantHolds(states, events, i);
    var s := states[i];
    InOrderFront(s);
    if s.answered != [] {
      assert ContextProper(s, |s.answered| - 1);
    }
  }

  /** Requests wait with nothing outstanding exactly after a failed operation, or while a callback that threw has
      stalled them. A failure is final: the front request stays, and nothing is ever started or answered again. */
  lemma {:induction false} FailedOperationIsFinal(states: seq<State>, events: seq<Event>, i: nat, j: nat)
    requires IsRun(states, events) && i <= j < |states|
    ensures states[i].requests != [] ==>
              (states[i].ops == multiset{} <==> states[i].broken || StalledBy(states, events, i))
    ensures states[i].broken ==>
              && states[j].broken && states[j].ops == multiset{} && states[j].answered == states[i].answered
              && states[i].requests != [] && states[j].requests != [] && states[j].requests[0] == states[i].requests[0]
    decreases j - i
  {
    hide Step, StalledBy;
    StallHolds(states, events, i);
    InvariantHolds(states, events, i);
    if states[i].broken && i < j {
      FailedOperationIsFinal(states, events, i, j - 1);
      InvariantHolds(states, events, j - 1);
      hide Delivered, InOrder;
      BrokenStays(states[j - 1], events[j - 1]);
    }
  }

  lemma BrokenStays(s: State, e: Event)
    requires WellFormed(s) && Enabled(s, e) && s.broken && s.ops == multiset{} && s.requests != [] && s.pending
    ensures var r := Step(s, e);
            r.broken && r.ops == multiset{} && r.answered == s.answered && r.pending && r.requests != []
            && r.requests[0] == s.requests[0]
  {
    hide OnResponse, FailFront;
  }

  /** A callback that is gone while its request is still queued was told of a time-out, or of the failure of
      the front operation. Where a handler finds a callback, `too_late` is never set: its tests of that mark
      beside a callback always pass. */
  lemma TooLateMarksTimeOuts(states: seq<State>, events: seq<Event>, i: nat, id: nat)
    requires IsRun(states, events) && i < |states| && id < |states[i].contexts|
    ensures states[i].contexts[id].hasCallback ==> !states[i].contexts[id].tooLate
    ensures states[i].contexts[id].tooLate ==> states[i].contexts[id].asynchronous && !states[i].contexts[id].waiting
    ensures states[i].contexts[id].asynchronous && !states[i].contexts[id].hasCallback && id in states[i].requests ==>
              states[i].contexts[id].tooLate || (states[i].broken && id == states[i].requests[0])
  {
    hide Step;
    InvariantHolds(states, events, i);
    var s := states[i];
    InOrderFront(s);
    assert ContextProper(s, id);
    if s.contexts[id].asynchronous && !s.contexts[id].hasCallback && id in s.requests {
      LostCallback(s, id);
    }
  }

  /** In every run, a timer handler is left by an exception exactly when it reports expiry for a synchronous
      request, for one whose callback has returned from its response or from a failure of the front operation, or
      for one whose callback throws on being told. */
  lemma TimerThrowsExactlyWhen(states: seq<State>, events: seq<Event>, i: nat)
    requires IsRun(states, events) && i < |events| && events[i].TimerEnded?
    ensures var s, e := states[i], events[i];
            && states[i + 1].thrown <= s.thrown + 1
            && (states[i + 1].thrown == s.thrown + 1 <==>
                  && e.expired
                  && (s.contexts[e.id].asynchronous ==>
                        || e.throws
                        || exists call ::
                             call in s.calls && call.id == e.id && !call.threw && call.answer != Error(TimedOut)))
  {
    InvariantHolds(states, events, i);
    var s, e := states[i], events[i];
    assert ContextProper(s, e.id);
    forall call | call in s.calls && call.id == e.id ensures CallProper(s, call) {
    }
    assert states[i + 1] == OnTimer(s, e.id, e.expired, e.throws);
  }

  // ------------------------------------------------- what exceptions and late timers do

  lemma Extended(states: seq<State>, events: seq<Event>, e: Event, s: State)
    requires IsRun(states, events) && states[|events|] == s && Enabled(s, e)
    ensures WellFormed(s) && IsRun(states + [Step(s, e)], events + [e])
  {
    InvariantHolds(states, events, |events|);
    hide WellFormed, Enabled, Step, Invariant;
    var states', events' := states + [Step(s, e)], events + [e];
    forall i | 0 <= i < |events'|
      ensures WellFormed(states'[i]) && Enabled(states'[i], events'[i])
      ensures states'[i + 1] == Step(states'[i], events'[i])
    {
      if i < |events| {
        assert states'[i] == states[i] && states'[i + 1] == states[i + 1] && events'[i] == events[i];
      }
    }
  }

  const Timed := Submission(0, true, true)
  const Untimed := Submission(0, true, false)

  /** A timed request, submitted first and with a callback, whose response is awaited. */
  const Awaiting: State :=
    State([Context(0, true, true, false, true)], [0], true, multiset{Read(0)}, true, 0, [0], None, [], [], 0, false)

  lemma FirstSubmission()
    ensures OnRun(Fresh, Timed)
         == Awaiting.(ops := multiset{Resolve(0)}, linked := false, wire := [])
  {
  }

  lemma Resolves(s: State, throws: bool)
    requires s == Awaiting.(ops := multiset{Resolve(0)}, linked := false, wire := []) && WellFormed(s)
    ensures Step(s, Resolved(Resolve(0), true, throws)) == s.(ops := multiset{Connect(0)})
  {
    assert s.ops - multiset{Resolve(0)} == multiset{};
  }

  lemma Connects(s: State, throws: bool)
    requires s == Awaiting.(ops := multiset{Connect(0)}, linked := false, wire := []) && WellFormed(s)
    ensures Step(s, Connected(Connect(0), true, throws)) == s.(ops := multiset{Write(0)}, linked := true)
  {
    assert s.ops - multiset{Connect(0)} == multiset{};
  }

  lemma Writes(s: State, throws: bool)
    requires s == Awaiting.(ops := multiset{Write(0)}, wire := []) && WellFormed(s)
    ensures Step(s, Written(Write(0), true, throws)) == Awaiting
  {
    assert s.ops - multiset{Write(0)} == multiset{};
  }

  lemma ReachAwaiting() returns (states: seq<State>, events: seq<Event>)
    ensures IsRun(states, events) && states[|events|] == Awaiting
  {
    hide Step, WellFormed;
    states, events := [Fresh], [];
    var e1, e2 := Run(Timed), Resolved(Resolve(0), true, false);
    var e3, e4 := Connected(Connect(0), true, false), Written(Write(0), true, false);
    var s1 := Awaiting.(ops := multiset{Resolve(0)}, linked := false, wire := []);
    var s2 := s1.(ops := multiset{Connect(0)});
    var s3 := s1.(ops := multiset{Write(0)}, linked := true);
    Extended(states, events, e1, Fresh);
    assert Step(Fresh, e1) == s1 by { FirstStep(); }
    states, events := states + [s1], events + [e1];
    Extended(states, events, e2, s1);
    Resolves(s1, false);
    states, events := states + [s2], events + [e2];
    Extended(states, events, e3, s2);
    Connects(s2, false);
    states, events := states + [s3], events + [e3];
    Extended(states, events, e4, s3);
    Writes(s3, false);
    states, events := states + [Awaiting], events + [e4];
  }

  lemma FirstStep()
    requires WellFormed(Fresh)
    ensures Step(Fresh, Run(Timed)) == Awaiting.(ops := multiset{Resolve(0)}, linked := false, wire := [])
  {
    FirstSubmission();
    hide OnRun;
  }

  lemma Reads(s: State, throws: bool)
    requires s.ops == multiset{Read(0)} && WellFormed(s)
    ensures HasFront(s) && s.wire != []
    ensures Step(s, ReadEnded(Read(0), Complete, throws)) == OnRead(s.(ops := multiset{}), Complete, throws)
  {
    assert Read(0) in s.ops;
    assert s.ops - multiset{Read(0)} == multiset{};
    hide OnRead;
  }

  /** A request that was answered in time, but whose timer had expired before it was cancelled, makes the timer
      handler throw after its callback was given the response. */
  lemma LateTimerThrows() returns (states: seq<State>, events: seq<Event>)
    ensures IsRun(states, events) && |events| >= 2
    ensures events[|events| - 2..] == [ReadEnded(Read(0), Complete, false), TimerEnded(0, true, false)]
    ensures states[|events|].calls == [Call(0, Response(0), false)]
    ensures states[|events| - 1].thrown == 0 && states[|events|].thrown == 1
  {
    hide Step, WellFormed;
    states, events := ReachAwaiting();
    var e1, e2 := ReadEnded(Read(0), Complete, false), TimerEnded(0, true, false);
    Extended(states, events, e1, Awaiting);
    Reads(Awaiting, false);
    var s := Step(Awaiting, e1);
    states, events := states + [s], events + [e1];
    AwaitingRead(false);
    Extended(states, events, e2, s);
    var t := Step(s, e2);
    assert t == OnTimer(s, 0, true, false) by { TimerSteps(s, 0, true, false); }
    states, events := states + [t], events + [e2];
  }

  lemma TimerSteps(s: State, id: nat, expired: bool, throws: bool)
    requires WellFormed(s) && Enabled(s, TimerEnded(id, expired, throws))
    ensures Step(s, TimerEnded(id, expired, throws)) == OnTimer(s, id, expired, throws)
  {
  }

  /** What the response makes of the awaiting request, with nothing else to do. */
  lemma AwaitingRead(throws: bool)
    ensures OnRead(Awaiting.(ops := multiset{}), Complete, throws)
         == Awaiting.(ops := multiset{}, requests := [], answered := [0], wire := [], pending := false,
                      calls := [Call(0, Response(0), throws)], thrown := if throws then 1 else 0,
                      contexts := [Context(0, true, throws, false, true)])
  {
  }

  /** A callback that throws on being told of its time-out is invoked again, with the response. */
  lemma ThrowingCallbackIsInvokedAgain() returns (states: seq<State>, events: seq<Event>)
    ensures IsRun(states, events) && |events| >= 2
    ensures events[|events| - 2..] == [TimerEnded(0, true, true), ReadEnded(Read(0), Complete, false)]
    ensures states[|events|].calls == [Call(0, Error(TimedOut), true), Call(0, Response(0), false)]
  {
    hide Step, WellFormed;
    states, events := ReachAwaiting();
    var e1, e2 := TimerEnded(0, true, true), ReadEnded(Read(0), Complete, false);
    Extended(states, events, e1, Awaiting);
    TimerSteps(Awaiting, 0, true, true);
    var s := Step(Awaiting, e1);
    assert s == Awaiting.(contexts := [Context(0, true, true, false, false)],
                          calls := [Call(0, Error(TimedOut), true)], thrown := 1);
    states, events := states + [s], events + [e1];
    Extended(states, events, e2, s);
    Reads(s, false);
    var t := Step(s, e2);
    states, events := states + [t], events + [e2];
  }

  /** A callback that throws on its response leaves the next request waiting, with nothing outstanding and the flag
      cleared; the submission after that one writes it. */
  lemma ThrowingCallbackStalls() returns (states: seq<State>, events: seq<Event>)
    ensures IsRun(states, events) && |events| >= 3
    ensures events[|events| - 3..] == [Run(Untimed), ReadEnded(Read(0), Complete, true), Run(Untimed)]
    ensures var s, t := states[|events| - 1], states[|events|];
            && s.requests == [1] && !s.pending && s.ops == multiset{} && !s.broken
            && t.requests == [1, 2] && t.pending && t.ops == multiset{Write(1)}
  {
    hide Step, WellFormed;
    states, events := ReachAwaiting();
    var e1, e2 := Run(Untimed), ReadEnded(Read(0), Complete, true);
    Extended(states, events, e1, Awaiting);
    RunSteps(Awaiting, Untimed);
    var s := Awaiting.(contexts := Awaiting.contexts + [Context(0, true, true, false, false)], requests := [0, 1]);
    assert Step(Awaiting, e1) == s;
    states, events := states + [s], events + [e1];
    Extended(states, events, e2, s);
    Reads(s, true);
    var t := OnRead(s.(ops := multiset{}), Complete, true);
    Answered(s.(ops := multiset{}), true);
    assert t.requests == [1] && !t.pending && t.linked && t.ops == multiset{} && !t.broken;
    states, events := states + [t], events + [e2];
    Extended(states, events, e1, t);
    RunSteps(t, Untimed);
    assert |t.contexts| == 2;
    hide OnRead;
    states, events := states + [OnRun(t, Untimed)], events + [e1];
  }

  lemma RunSteps(s: State, sub: Submission)
    requires WellFormed(s)
    ensures Step(s, Run(sub)) == OnRun(s, sub)
  {
  }

  // ------------------------------------------------- submissions by a time-out callback

  /** Several submissions, one after the other. */
  function Submitted(s: State, retries: seq<Submission>): State {
    if retries == [] then s
    else OnRun(Submitted(s, retries[..|retries| - 1]), retries[|retries| - 1])
  }

  /** The timer handler at the point where the callback is running. */
  function Invoked(s: State, id: nat, throws: bool): State
    requires id < |s.contexts|
  {
    s.(contexts := s.contexts[id := s.contexts[id].(waiting := false)],
       calls := s.calls + [Call(id, Error(TimedOut), throws)])
  }

  /** What the handler does after the callback. */
  function Settled(s: State, id: nat, throws: bool): State
    requires id < |s.contexts|
  {
    if throws then s.(thrown := s.thrown + 1)
    else s.(contexts := s.contexts[id := s.contexts[id].(hasCallback := false, tooLate := true)])
  }

  lemma TimerIsSettled(s: State, id: nat, throws: bool)
    requires id < |s.contexts| && s.contexts[id].hasCallback && !s.contexts[id].tooLate
    ensures OnTimer(s, id, true, throws) == Settled(Invoked(s, id, throws), id, throws)
  {
  }

  /** A submission looks at the queue and the connection only. */
  lemma RunLooksAtQueue(s: State, t: State, sub: Submission)
    requires t == s.(contexts := t.contexts, thrown := t.thrown) && |t.contexts| == |s.contexts|
    ensures OnRun(s, sub).contexts == s.contexts + [NewContext(sub)] && OnRun(s, sub).thrown == s.thrown
    ensures OnRun(t, sub) == OnRun(s, sub).(contexts := t.contexts + [NewContext(sub)], thrown := t.thrown)
  {
    hide NewContext;
  }

  lemma SettledAfterRun(s: State, id: nat, sub: Submission, throws: bool)
    requires id < |s.contexts|
    ensures |OnRun(s, sub).contexts| > |s.contexts|
    ensures Settled(OnRun(s, sub), id, throws) == OnRun(Settled(s, id, throws), sub)
  {
    RunLooksAtQueue(s, Settled(s, id, throws), sub);
    hide OnRun, NewContext;
    if !throws {
      var c := s.contexts[id].(hasCallback := false, tooLate := true);
      assert (s.contexts + [NewContext(sub)])[id := c] == s.contexts[id := c] + [NewContext(sub)];
    }
  }

  lemma {:induction false} SubmittingTouchesLittle(s: State, retries: seq<Submission>)
    ensures |Submitted(s, retries).contexts| >= |s.contexts|
  {
    if retries != [] {
      SubmittingTouchesLittle(s, retries[..|retries| - 1]);
    }
  }

  lemma {:induction false} SettledAfterAll(s: State, id: nat, retries: seq<Submission>, throws: bool)
    requires id < |s.contexts|
    ensures |Submitted(s, retries).contexts| >= |s.contexts|
    ensures Settled(Submitted(s, retries), id, throws) == Submitted(Settled(s, id, throws), retries)
  {
    hide OnRun, Settled;
    SubmittingTouchesLittle(s, retries);
    if retries != [] {
      var n := |retries| - 1;
      SettledAfterAll(s, id, retries[..n], throws);
      SettledAfterRun(Submitted(s, retries[..n]), id, retries[n], throws);
    }
  }

  /** Submitting from inside a time-out callback comes to the same as submitting right after the timer handler, so
      what is proved about every run holds for it. */
  lemma TimeOutThenSubmissions(s: State, id: nat, retries: seq<Submission>, throws: bool)
    requires id < |s.contexts| && s.contexts[id].hasCallback && !s.contexts[id].tooLate
    ensures var called := Submitted(Invoked(s, id, throws), retries);
            && id < |called.contexts|
            && Settled(called, id, throws) == Submitted(OnTimer(s, id, true, throws), retries)
  {
    hide OnRun, OnTimer, Settled, Submitted;
    TimerIsSettled(s, id, throws);
    SettledAfterAll(Invoked(s, id, throws), id, retries, throws);
  }

  // ------------------------------------------------------------------- progress

  /** Completions that the queued requests still take: four each, less what the one in front has had. */
  function StepsLeft(s: State): nat {
    if s.requests == [] then 0
    else
      var r := s.requests[0];
      var had := if Read(r) in s.ops then 3 else if Write(r) in s.ops then 2 else if Connect(r) in s.ops then 1 else 0;
      4 * |s.requests| - had
  }

  /** A completion without an error, and without an exception of a callback it invokes. */
  predicate Succeeds(s: State, e: Event) {
    match e
    case Resolved(_, ok, _) => ok
    case Connected(_, ok, _) => ok
    case Written(_, ok, _) => ok
    case ReadEnded(_, end, throws) => end.Complete? && !(throws && HasFront(s) && s.contexts[s.requests[0]].hasCallback)
    case _ => false
  }

  /** Nothing has failed and nothing is stalled. */
  ghost predicate Working(s: State) {
    !s.broken && !Stalled(s)
  }

  lemma WorkingHasOne(s: State)
    requires Invariant(s) && Working(s) && s.requests != []
    ensures |s.ops| == 1
  {
    hide Delivered, InOrder;
  }

  lemma OperationIsProgress(s: State, e: Event)
    requires Invariant(s) && WellFormed(s) && Enabled(s, e) && Succeeds(s, e) && !e.ReadEnded?
    ensures Working(Step(s, e)) && StepsLeft(Step(s, e)) < StepsLeft(s)
  {
    var op := e.op;
    TheOneOperation(s, op);
    hide Invariant, WellFormed, FailFront;
    var r := op.r;
    var next := if e.Resolved? then Connect(r) else if e.Connected? then Write(r) else Read(r);
    assert Step(s, e).ops == multiset{next} && Step(s, e).requests == s.requests;
  }

  lemma ResponseIsProgress(s: State, op: Operation, throws: bool)
    requires Invariant(s) && WellFormed(s) && op in s.ops && op.Read?
    requires Succeeds(s, ReadEnded(op, Complete, throws))
    ensures var r := Step(s, ReadEnded(op, Complete, throws)); Working(r) && StepsLeft(r) < StepsLeft(s)
  {
    TheOneOperation(s, op);
    var e := Ended(s, op);
    Answered(e, throws);
    var popped, r := OnResponse(e, throws), OnRead(e, Complete, throws);
    hide Invariant, WellFormed, OnResponse;
    assert r == DoWrite(popped) && r.requests == s.requests[1..];
    if r.requests != [] {
      assert r.ops == multiset{Write(r.requests[0])};
    }
  }

  lemma TimerKeepsSteps(s: State, id: nat, expired: bool, throws: bool)
    requires id < |s.contexts| && Working(s)
    ensures var r := OnTimer(s, id, expired, throws); Working(r) && StepsLeft(r) == StepsLeft(s)
  {
    FailTouchesLittle(s.(contexts := s.contexts[id := s.contexts[id].(waiting := false)]), id, TimedOut, throws);
    var r := OnTimer(s, id, expired, throws);
    hide Fail;
    assert r.requests == s.requests && r.ops == s.ops && r.pending == s.pending && r.broken == s.broken;
  }

  lemma SuccessIsProgress(s: State, e: Event)
    requires Invariant(s) && WellFormed(s) && Enabled(s, e) && Succeeds(s, e)
    ensures Working(Step(s, e)) && StepsLeft(Step(s, e)) < StepsLeft(s)
  {
    hide Invariant, WellFormed, Working, StepsLeft;
    if e.ReadEnded? {
      ResponseIsProgress(s, e.op, e.throws);
    } else {
      OperationIsProgress(s, e);
    }
  }

  /** The completions among the events from `i` to `j`, which are the events that do not come from a timer. */
  function Completions(events: seq<Event>, i: nat, j: nat): nat
    requires i <= j <= |events|
  {
    if i == j then 0 else Completions(events, i, j - 1) + if events[j - 1].TimerEnded? then 0 else 1
  }

  /** Progress: as long as completions succeed and their callbacks do not throw, one operation is outstanding while
      requests remain, and every completion brings the end nearer. Once as many have come as `StepsLeft` says, every
      request has been answered, whatever the timers do in between. */
  lemma {:induction false} RequestsDrain(states: seq<State>, events: seq<Event>, i: nat, j: nat)
    requires IsRun(states, events) && i <= j < |states|
    requires !states[i].broken && !StalledBy(states, events, i)
    requires forall k :: i <= k < j ==> Succeeds(states[k], events[k]) || events[k].TimerEnded?
    ensures !states[j].broken && !StalledBy(states, events, j)
    ensures states[j].requests != [] ==> |states[j].ops| == 1
    ensures Completions(events, i, j) + StepsLeft(states[j]) <= StepsLeft(states[i])
    ensures Completions(events, i, j) >= StepsLeft(states[i]) ==> states[j].answered == UpTo(|states[j].contexts|)
    decreases j - i
  {
    hide Step, StalledBy, Succeeds, WellFormed;
    StallHolds(states, events, j);
    InvariantHolds(states, events, j);
    if i < j {
      var s, e := states[j - 1], events[j - 1];
      RequestsDrain(states, events, i, j - 1);
      StallHolds(states, events, j - 1);
      InvariantHolds(states, events, j - 1);
      if e.TimerEnded? {
        TimerSteps(s, e.id, e.expired, e.throws);
        TimerIds(s, e);
        hide Invariant, StepsLeft, OnTimer;
        TimerKeepsSteps(s, e.id, e.expired, e.throws);
      } else {
        hide Invariant, StepsLeft;
        SuccessIsProgress(s, e);
      }
    }
    assert Working(states[j]);
    NothingLeft(states[j]);
  }

  lemma TimerIds(s: State, e: Event)
    requires e.TimerEnded? && Enabled(s, e)
    ensures e.id < |s.contexts|
  {
  }

  lemma NothingLeft(s: State)
    requires Invariant(s) && Working(s)
    ensures s.requests != [] ==> |s.ops| == 1 && StepsLeft(s) > 0
    ensures s.requests == [] ==> s.answered == UpTo(|s.contexts|)
  {
    if s.requests != [] {
      WorkingHasOne(s);
    } else {
      assert s.answered + [] == s.answered;
    }
  }

  // ---------------------------------------------------------------- the connection

  /** The request whose host was resolved last: the one that found the queue empty and the socket closed, or the
      one that was in front at the end of a stream. */
  ghost function ResolvedFor(states: seq<State>, events: seq<Event>, i: nat): nat
    requires |states| == |events| + 1 && i < |states|
  {
    if i == 0 then 0
    else
      var s := states[i - 1];
      match events[i - 1]
      case Run(_) => if s.requests == [] && !s.linked then |s.contexts| else ResolvedFor(states, events, i - 1)
      case ReadEnded(op, EndOfStream, _) => op.r
      case _ => ResolvedFor(states, events, i - 1)
  }

  lemma PeerChanges(s: State, e: Event)
    requires Invariant(s) && WellFormed(s) && Enabled(s, e)
    ensures Step(s, e).peer == match e
                               case Run(_) => if s.requests == [] && !s.linked then |s.contexts| else s.peer
                               case ReadEnded(op, EndOfStream, _) => op.r
                               case _ => s.peer
  {
    match e
    case Run(_) =>
    case TimerEnded(id, expired, throws) =>
      TimerSteps(s, id, expired, throws);
      hide Invariant, Step;
      TimerKeepsPeer(s, id, expired, throws);
    case ReadEnded(op, end, throws) => ReadChangesPeer(s, op, end, throws);
    case _ => OperationKeepsPeer(s, e);
  }

  lemma TimerKeepsPeer(s: State, id: nat, expired: bool, throws: bool)
    requires id < |s.contexts|
    ensures OnTimer(s, id, expired, throws).peer == s.peer
  {
    FailTouchesLittle(s.(contexts := s.contexts[id := s.contexts[id].(waiting := false)]), id, TimedOut, throws);
    hide Fail;
  }

  lemma ReadChangesPeer(s: State, op: Operation, end: ReadEnd, throws: bool)
    requires Invariant(s) && WellFormed(s) && op in s.ops && op.Read?
    ensures Step(s, ReadEnded(op, end, throws)).peer == if end.EndOfStream? then op.r else s.peer
  {
    TheOneOperation(s, op);
    FailTouchesLittle(Ended(s, op), s.requests[0], ReadFailed, throws);
    if end.Complete? {
      Answered(Ended(s, op), throws);
    }
    hide Invariant, Fail, OnResponse;
  }

  lemma OperationKeepsPeer(s: State, e: Event)
    requires Invariant(s) && WellFormed(s) && Enabled(s, e) && (e.Resolved? || e.Connected? || e.Written?)
    ensures Step(s, e).peer == s.peer
  {
    TheOneOperation(s, e.op);
    hide Invariant;
    FailTouchesLittle(Ended(s, e.op), s.requests[0],
                      if e.Resolved? then ResolveFailed else if e.Connected? then ConnectFailed else WriteFailed,
                      e.throws);
    hide Fail;
  }

  lemma {:induction false} PeerHolds(states: seq<State>, events: seq<Event>, i: nat)
    requires IsRun(states, events) && i < |states|
    ensures states[i].peer == ResolvedFor(states, events, i)
  {
    hide Step;
    if i > 0 {
      PeerHolds(states, events, i - 1);
      InvariantHolds(states, events, i - 1);
      hide Invariant, WellFormed, Enabled;
      PeerChanges(states[i - 1], events[i - 1]);
    }
  }

  /** The connection that an operation uses leads to the host of its own request. */
  predicate AtOwnHost(s: State, op: Operation) {
    s.peer < |s.contexts| && op.r < |s.contexts| && s.contexts[op.r].host == s.contexts[s.peer].host
  }

  /** A session keeps its connection for requests to other hosts: a request is written to its own host if and only if
      that is the host of the request that the connection was resolved for. */
  lemma WrittenToItsOwnHostExactlyWhen(states: seq<State>, events: seq<Event>, i: nat, op: Operation)
    requires IsRun(states, events) && i < |states| && op in states[i].ops
    ensures ResolvedFor(states, events, i) <= op.r < |states[i].contexts|
    ensures op.Resolve? || op.Connect? ==> ResolvedFor(states, events, i) == op.r
    ensures AtOwnHost(states[i], op)
       <==> states[i].contexts[op.r].host == states[i].contexts[ResolvedFor(states, events, i)].host
  {
    PeerHolds(states, events, i);
    InvariantHolds(states, events, i);
    InOrderFront(states[i]);
    TheOneOperation(states[i], op);
    hide Step, ResolvedFor, Invariant, IsRun;
  }

  /** The usual case: a session that is used for one host writes every request to it. */
  lemma OneHostIsAlwaysItsOwn(states: seq<State>, events: seq<Event>, i: nat, op: Operation)
    requires IsRun(states, events) && i < |states| && op in states[i].ops
    requires forall j, k :: 0 <= j < |states[i].contexts| && 0 <= k < |states[i].contexts| ==>
               states[i].contexts[j].host == states[i].contexts[k].host
    ensures AtOwnHost(states[i], op)
  {
    hide AtOwnHost, ResolvedFor, IsRun;
    WrittenToItsOwnHostExactlyWhen(states, events, i, op);
  }

  /** A request to another host, submitted behind one that is being answered, is written to the first one's host. */
  lemma OtherHostIsNotReached() returns (states: seq<State>, events: seq<Event>)
    ensures IsRun(states, events) && |events| >= 2
    ensures events[|events| - 2..] == [Run(Submission(1, true, false)), ReadEnded(Read(0), Complete, false)]
    ensures states[|events|].ops == multiset{Write(1)} && |states[|events|].contexts| == 2
    ensures states[|events|].peer == 0
    ensures states[|events|].contexts[0].host == 0 && states[|events|].contexts[1].host == 1
    ensures !AtOwnHost(states[|events|], Write(1))
  {
    hide Step, WellFormed;
    states, events := ReachAwaiting();
    var other := Submission(1, true, false);
    var e1, e2 := Run(other), ReadEnded(Read(0), Complete, false);
    Extended(states, events, e1, Awaiting);
    RunSteps(Awaiting, other);
    var s := Awaiting.(contexts := Awaiting.contexts + [Context(1, true, true, false, false)], requests := [0, 1]);
    assert Step(Awaiting, e1) == s;
    states, events := states + [s], events + [e1];
    Extended(states, events, e2, s);
    Reads(s, false);
    var t := OnRead(s.(ops := multiset{}), Complete, false);
    assert t.ops == multiset{Write(1)} && t.peer == 0;
    assert Write(1) in t.ops;
    states, events := states + [t], events + [e2];
  }
}
