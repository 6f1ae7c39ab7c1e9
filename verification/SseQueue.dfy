/** The write queue of a server-sent-event connection: a bounded queue with a single writer on a strand. */
module SseQueue {
  import Common
  import EventStream

  // ------------------------------------------------------------- specification

  /** Handlers waiting on the strand, which runs them one at a time in the order they were posted. */
  datatype Task = SendTask(payload: string) | CloseTask | WriteDone(ok: bool) | TimerDone(expired: bool)

  /** The connection between two steps. `inFlight` is a write whose outcome is not decided yet. The last
      five components record what has happened: payloads given to `send`, payloads accepted by the queue,
      payloads written, whether a write has failed, and how many had been accepted at the first refusal
      (-1 before). */
  datatype State = State(strand: seq<Task>, queue: seq<string>, open: bool, inFlight: bool, timerArmed: bool,
                         posted: seq<string>, accepted: seq<string>, completed: seq<string>, failed: bool, cut: int)

  /** `sse_session::run`: the response head is the first payload; then the heartbeat is armed. */
  function Initial(head: string): State {
    State([SendTask(head)], [], true, false, true, [head], [], [], false, -1)
  }

  /** What can happen next: calls from any thread, the system finishing an operation, and the strand
      running its next handler. */
  datatype Event = CallSend(payload: string) | CallClose | WriteFinishes(ok: bool) | TimerFinishes(expired: bool) | RunTask

  /** A write on a closed socket cannot succeed; only closing cancels the timer. */
  predicate Enabled(s: State, e: Event) {
    match e
    case WriteFinishes(ok) => s.inFlight && (ok ==> s.open)
    case TimerFinishes(expired) => s.timerArmed && (!expired ==> !s.open)
    case RunTask => s.strand != []
    case _ => true
  }

  function PostSend(s: State, payload: string): State {
    s.(strand := s.strand + [SendTask(payload)], posted := s.posted + [payload])
  }

  function DoWrite(s: State): State {
    if s.queue == [] then s else s.(inFlight := true)
  }

  function OnSend(s: State, payload: string): State {
    if |s.queue| > 1024 then
      s.(strand := s.strand + [CloseTask], cut := if s.cut == -1 then |s.accepted| else s.cut)
    else
      var pushed := s.(queue := s.queue + [payload], accepted := s.accepted + [payload]);
      if s.queue == [] then DoWrite(pushed) else pushed
  }

  function OnWritten(s: State, ok: bool): State {
    if !ok then s.(open := false, failed := true)
    else if s.queue == [] then s
    else DoWrite(s.(queue := s.queue[1..], completed := s.completed + [s.queue[0]]))
  }

  function OnTimer(s: State, expired: bool): State {
    if expired && s.open then PostSend(s, EventStream.Heartbeat).(timerArmed := true) else s
  }

  function Step(s: State, e: Event): State
    requires Enabled(s, e)
  {
    match e
    case CallSend(payload) => PostSend(s, payload)
    case CallClose => s.(strand := s.strand + [CloseTask])
    case WriteFinishes(ok) => s.(inFlight := false, strand := s.strand + [WriteDone(ok)])
    case TimerFinishes(expired) => s.(timerArmed := false, strand := s.strand + [TimerDone(expired)])
    case RunTask =>
      var popped := s.(strand := s.strand[1..]);
      match s.strand[0]
      case SendTask(payload) => OnSend(popped, payload)
      case CloseTask => popped.(open := false)
      case WriteDone(ok) => OnWritten(popped, ok)
      case TimerDone(expired) => OnTimer(popped, expired)
  }

  // ------------------------------------------------------------- the stream object

  class SseStreamImpl {
    var strand: seq<Task>
    var queue: seq<string>
    var open: bool
    var inFlight: bool
    var timerArmed: bool
    ghost var posted: seq<string>
    ghost var accepted: seq<string>
    ghost var completed: seq<string>
    ghost var failed: bool
    ghost var cut: int

    ghost function Now(): State
      reads this
    {
      State(strand, queue, open, inFlight, timerArmed, posted, accepted, completed, failed, cut)
    }

    /** The part of `sse_session::run` that sets the connection up. */
    constructor (head: string)
      ensures Now() == Initial(head)
    {
      strand, queue, open, inFlight, timerArmed := [], [], true, false, false;
      posted, accepted, completed, failed, cut := [], [], [], false, -1;
      new;
      Send(head);
      StartHeartbeat();
    }

    method Send(payload: string)
      modifies this
      ensures Now() == PostSend(old(Now()), payload)
    {
      strand := strand + [SendTask(payload)];
      posted := posted + [payload];
    }

    method Close()
      modifies this
      ensures Now() == Step(old(Now()), CallClose)
    {
      strand := strand + [CloseTask];
    }

    method StartHeartbeat()
      modifies this
      ensures Now() == old(Now()).(timerArmed := true)
    {
      timerArmed := true;
    }

    method StartWrite()
      modifies this
      ensures Now() == DoWrite(old(Now()))
    {
      if queue == [] {
        return;
      }
      inFlight := true;
    }

    /** The handler that `send` posts: back pressure, then the push, then a write if the queue was idle. */
    method HandleSend(payload: string)
      modifies this
      ensures Now() == OnSend(old(Now()), payload)
    {
      if |queue| > 1024 {
        Close();
        cut := if cut == -1 then |accepted| else cut;
        return;
      }
      var idle := queue == [];
      queue := queue + [payload];
      accepted := accepted + [payload];
      if idle {
        StartWrite();
      }
    }

    /** The completion handler of a write, which pops without looking. */
    method HandleWritten(ok: bool)
      requires ok ==> queue != []
      modifies this
      ensures Now() == OnWritten(old(Now()), ok)
    {
      if !ok {
        open := false;
        failed := true;
        return;
      }
      completed := completed + [queue[0]];
      queue := queue[1..];
      StartWrite();
    }

    method HandleTimer(expired: bool)
      modifies this
      ensures Now() == OnTimer(old(Now()), expired)
    {
      if expired && open {
        Send(EventStream.Heartbeat);
        StartHeartbeat();
      }
    }

    /** The strand runs the handler at its head. */
    method RunNext()
      requires strand != [] && SingleWriter(Now())
      modifies this
      ensures Now() == Step(old(Now()), RunTask)
    {
      var task := strand[0];
      strand := strand[1..];
      match task
      case SendTask(payload) => HandleSend(payload);
      case CloseTask => open := false;
      case WriteDone(ok) => HandleWritten(ok);
      case TimerDone(expired) => HandleTimer(expired);
    }
  }

  // ------------------------------------------------------------------ invariants

  function WritesDone(strand: seq<Task>): nat {
    if strand == [] then 0 else (if strand[0].WriteDone? then 1 else 0) + WritesDone(strand[1..])
  }

  function Sends(strand: seq<Task>): seq<string> {
    if strand == [] then [] else (if strand[0].SendTask? then [strand[0].payload] else []) + Sends(strand[1..])
  }

  /** Writes whose completion handler has not run yet. */
  function Outstanding(s: State): nat {
    (if s.inFlight then 1 else 0) + WritesDone(s.strand)
  }

  /** One writer at a time, and the queue is non-empty exactly while it writes or after it failed. */
  ghost predicate SingleWriter(s: State) {
    && Outstanding(s) + (if s.failed then 1 else 0) == (if s.queue == [] then 0 else 1)
    && |s.queue| <= 1025 && (s.failed ==> !s.open)
    && s.completed + s.queue == s.accepted
  }

  /** A completion handler that will run before the close request at the head of its kind. */
  predicate DoneBeforeClose(strand: seq<Task>) {
    strand != [] && !strand[0].CloseTask? && (strand[0].WriteDone? || DoneBeforeClose(strand[1..]))
  }

  /** How many more writes can succeed once a close request is on its way. */
  function StillToSucceed(s: State): nat {
    if s.open then 1 + (if DoneBeforeClose(s.strand) then 1 else 0)
    else if WriteDone(true) in s.strand then 1 else 0
  }

  /** Until a payload is refused, nothing is missing; from then on too few writes can succeed to reach past
      the payloads accepted before. */
  ghost predicate NoGap(s: State) {
    if s.cut == -1 then s.accepted + Sends(s.strand) == s.posted
    else
      && 0 <= s.cut <= |s.accepted| && s.cut <= |s.posted| && s.accepted[..s.cut] == s.posted[..s.cut]
      && (s.open ==> CloseTask in s.strand)
      && |s.completed| + StillToSucceed(s) < s.cut
  }

  function TimersDone(strand: seq<Task>): nat {
    if strand == [] then 0 else (if strand[0].TimerDone? then 1 else 0) + TimersDone(strand[1..])
  }

  /** While the connection is open, one heartbeat is due: its timer runs, or its handler waits for the strand. */
  ghost predicate HeartbeatDue(s: State) {
    s.open ==> (if s.timerArmed then 1 else 0) + TimersDone(s.strand) == 1 && TimerDone(false) !in s.strand
  }

  ghost predicate Invariant(s: State) {
    SingleWriter(s) && NoGap(s)
  }

  lemma {:induction false} Appended(strand: seq<Task>, t: Task)
    ensures WritesDone(strand + [t]) == WritesDone(strand) + (if t.WriteDone? then 1 else 0)
    ensures Sends(strand + [t]) == Sends(strand) + (if t.SendTask? then [t.payload] else [])
    ensures CloseTask in strand ==> DoneBeforeClose(strand + [t]) == DoneBeforeClose(strand)
  {
    if strand != [] {
      Appended(strand[1..], t);
      assert (strand + [t])[1..] == strand[1..] + [t];
    } else {
      assert (strand + [t])[1..] == [];
    }
  }

  lemma {:induction false} NoWriteDone(strand: seq<Task>)
    requires WritesDone(strand) == 0
    ensures !DoneBeforeClose(strand) && forall t :: t in strand ==> !t.WriteDone?
  {
    if strand != [] {
      NoWriteDone(strand[1..]);
    }
  }

  lemma PostKeepsInvariant(s: State, payload: string)
    requires Invariant(s)
    ensures Invariant(PostSend(s, payload))
  {
    hide WritesDone, Sends, DoneBeforeClose;
    Appended(s.strand, SendTask(payload));
    if s.cut == -1 {
      Common.Associative(s.accepted, Sends(s.strand), [payload]);
    }
  }

  lemma CallKeepsInvariant(s: State, e: Event)
    requires Invariant(s) && (e.CallSend? || e.CallClose?)
    ensures Invariant(Step(s, e))
  {
    hide WritesDone, Sends, DoneBeforeClose;
    match e
    case CallSend(payload) => PostKeepsInvariant(s, payload);
    case CallClose =>
      Appended(s.strand, CloseTask);
      assert Sends(s.strand) + [] == Sends(s.strand);
  }

  lemma CompletionKeepsInvariant(s: State, e: Event)
    requires Invariant(s) && Enabled(s, e) && (e.WriteFinishes? || e.TimerFinishes?)
    ensures Invariant(Step(s, e))
  {
    hide WritesDone, Sends, DoneBeforeClose;
    Appended(s.strand, if e.WriteFinishes? then WriteDone(e.ok) else TimerDone(e.expired));
  }

  /** Popping a handler that is neither a completion nor a close request. */
  lemma Popped(s: State)
    requires s.strand != [] && (s.strand[0].SendTask? || s.strand[0].TimerDone?)
    ensures var rest := s.strand[1..];
            && WritesDone(s.strand) == WritesDone(rest) && DoneBeforeClose(s.strand) == DoneBeforeClose(rest)
            && Sends(s.strand) == (if s.strand[0].SendTask? then [s.strand[0].payload] else []) + Sends(rest)
            && (CloseTask in s.strand <==> CloseTask in rest)
            && (WriteDone(true) in s.strand <==> WriteDone(true) in rest)
  {
  }

  lemma AcceptKeepsInvariant(s: State)
    requires Invariant(s) && s.strand != [] && s.strand[0].SendTask? && |s.queue| <= 1024
    ensures Invariant(Step(s, RunTask))
  {
    Popped(s);
    hide WritesDone, Sends, DoneBeforeClose;
    Common.Associative(s.completed, s.queue, [s.strand[0].payload]);
    Common.Associative(s.accepted, [s.strand[0].payload], Sends(s.strand[1..]));
  }

  lemma RefuseKeepsInvariant(s: State)
    requires Invariant(s) && s.strand != [] && s.strand[0].SendTask? && |s.queue| > 1024
    ensures Invariant(Step(s, RunTask))
  {
    var rest, r := s.strand[1..], Step(s, RunTask);
    assert r == s.(strand := rest + [CloseTask], cut := if s.cut == -1 then |s.accepted| else s.cut);
    Popped(s);
    hide Step, WritesDone, Sends, DoneBeforeClose;
    Appended(rest, CloseTask);
    assert SingleWriter(r);
    if s.cut == -1 {
      assert s.posted[..|s.accepted|] == s.accepted == s.accepted[..|s.accepted|];
    }
    assert NoGap(r);
  }

  lemma CloseKeepsInvariant(s: State)
    requires Invariant(s) && s.strand != [] && s.strand[0].CloseTask?
    ensures Invariant(Step(s, RunTask))
  {
  }

  lemma WrittenKeepsInvariant(s: State)
    requires Invariant(s) && s.strand != [] && s.strand[0].WriteDone?
    ensures Invariant(Step(s, RunTask))
  {
    var rest, r := s.strand[1..], Step(s, RunTask);
    assert WritesDone(s.strand) == 1 + WritesDone(rest) && Sends(s.strand) == Sends(rest);
    assert DoneBeforeClose(s.strand);
    NoWriteDone(rest);
    assert r == OnWritten(s.(strand := rest), s.strand[0].ok);
    hide Step, WritesDone, Sends, DoneBeforeClose;
    assert s.queue == [s.queue[0]] + s.queue[1..];
    Common.Associative(s.completed, [s.queue[0]], s.queue[1..]);
    assert SingleWriter(r);
    assert NoGap(r);
  }

  lemma TimerKeepsInvariant(s: State)
    requires Invariant(s) && s.strand != [] && s.strand[0].TimerDone?
    ensures Invariant(Step(s, RunTask))
  {
    var popped := s.(strand := s.strand[1..]);
    Popped(s);
    hide WritesDone, Sends, DoneBeforeClose;
    assert [] + Sends(popped.strand) == Sends(popped.strand);
    PostKeepsInvariant(popped, EventStream.Heartbeat);
  }

  lemma StepKeepsInvariant(s: State, e: Event)
    requires Invariant(s) && Enabled(s, e)
    ensures Invariant(Step(s, e))
  {
    match e
    case CallSend(_) => CallKeepsInvariant(s, e);
    case CallClose => CallKeepsInvariant(s, e);
    case WriteFinishes(_) => CompletionKeepsInvariant(s, e);
    case TimerFinishes(_) => CompletionKeepsInvariant(s, e);
    case RunTask =>
      hide Step, Invariant;
      match s.strand[0]
      case SendTask(_) => if |s.queue| <= 1024 { AcceptKeepsInvariant(s); } else { RefuseKeepsInvariant(s); }
      case CloseTask => CloseKeepsInvariant(s);
      case WriteDone(_) => WrittenKeepsInvariant(s);
      case TimerDone(_) => TimerKeepsInvariant(s);
  }

  lemma PostedGrows(s: State, e: Event)
    requires Enabled(s, e)
    ensures s.posted <= Step(s, e).posted
  {
  }

  lemma FailureStays(s: State, e: Event)
    requires SingleWriter(s) && Enabled(s, e) && s.failed
    ensures Step(s, e).failed && Step(s, e).completed == s.completed
  {
    if s.strand != [] {
      assert WritesDone(s.strand) >= if s.strand[0].WriteDone? then 1 else 0;
    }
    hide WritesDone;
  }

  lemma InitialInvariant(head: string)
    ensures Invariant(Initial(head))
  {
    var strand := [SendTask(head)];
    assert strand[1..] == [];
    assert Sends(strand) == [head] && WritesDone(strand) == 0;
  }

  lemma {:induction false} TimerAppended(strand: seq<Task>, t: Task)
    ensures TimersDone(strand + [t]) == TimersDone(strand) + (if t.TimerDone? then 1 else 0)
  {
    if strand != [] {
      TimerAppended(strand[1..], t);
      assert (strand + [t])[1..] == strand[1..] + [t];
    } else {
      assert (strand + [t])[1..] == [];
    }
  }

  lemma PostingKeepsHeartbeatDue(s: State, e: Event)
    requires HeartbeatDue(s) && Enabled(s, e) && !e.RunTask?
    ensures HeartbeatDue(Step(s, e))
  {
    hide TimersDone;
    match e
    case CallSend(payload) => TimerAppended(s.strand, SendTask(payload));
    case CallClose => TimerAppended(s.strand, CloseTask);
    case WriteFinishes(ok) => TimerAppended(s.strand, WriteDone(ok));
    case TimerFinishes(expired) => TimerAppended(s.strand, TimerDone(expired));
  }

  lemma HandlerKeepsHeartbeatDue(s: State)
    requires HeartbeatDue(s) && s.strand != []
    ensures HeartbeatDue(Step(s, RunTask))
  {
    var rest := s.strand[1..];
    assert TimersDone(s.strand) == (if s.strand[0].TimerDone? then 1 else 0) + TimersDone(rest);
    hide TimersDone;
    match s.strand[0]
    case SendTask(_) => TimerAppended(rest, CloseTask);
    case TimerDone(_) => TimerAppended(rest, SendTask(EventStream.Heartbeat));
    case _ =>
  }

  // ------------------------------------------------------------------ every run

  /** The states of a run, one more than its events. */
  ghost predicate Run(head: string, states: seq<State>, events: seq<Event>) {
    && |states| == |events| + 1 && states[0] == Initial(head)
    && forall i :: 0 <= i < |events| ==> Enabled(states[i], events[i]) && states[i + 1] == Step(states[i], events[i])
  }

  lemma {:induction false} InvariantHolds(head: string, states: seq<State>, events: seq<Event>, i: nat)
    requires Run(head, states, events) && i < |states|
    ensures Invariant(states[i]) && [head] <= states[i].posted
  {
    hide Invariant, Step;
    if i == 0 {
      InitialInvariant(head);
    } else {
      InvariantHolds(head, states, events, i - 1);
      StepKeepsInvariant(states[i - 1], events[i - 1]);
      PostedGrows(states[i - 1], events[i - 1]);
    }
  }

  /** The heartbeat never dies while the connection is open. */
  lemma {:induction false} HeartbeatIsAlwaysDue(head: string, states: seq<State>, events: seq<Event>, i: nat)
    requires Run(head, states, events) && i < |states|
    ensures HeartbeatDue(states[i])
  {
    hide Step, HeartbeatDue, Enabled;
    if i == 0 {
      assert HeartbeatDue(Initial(head)) by { HeartbeatStarts(head); }
    } else {
      HeartbeatIsAlwaysDue(head, states, events, i - 1);
      if events[i - 1].RunTask? {
        assert states[i - 1].strand != [] by { EnabledTask(states[i - 1]); }
        HandlerKeepsHeartbeatDue(states[i - 1]);
      } else {
        PostingKeepsHeartbeatDue(states[i - 1], events[i - 1]);
      }
    }
  }

  lemma EnabledTask(s: State)
    requires Enabled(s, RunTask)
    ensures s.strand != []
  {
  }

  lemma HeartbeatStarts(head: string)
    ensures HeartbeatDue(Initial(head))
  {
    assert [SendTask(head)][1..] == [];
  }

  /** The payload that is being written, or whose write was cut off. */
  function InHand(s: State): seq<string> {
    if s.queue == [] then [] else [s.queue[0]]
  }

  /** What has been written is a prefix of what was sent, the response head first, and what is being written or
      was cut off comes next: however the queue overflows and the connection closes, no payload is skipped. */
  lemma ReceivedIsPrefixOfSent(head: string, states: seq<State>, events: seq<Event>, i: nat)
    requires Run(head, states, events) && i < |states|
    ensures states[i].completed <= states[i].posted && [head] <= states[i].posted
    ensures states[i].completed + states[i].queue == states[i].accepted
    ensures states[i].completed + InHand(states[i]) <= states[i].posted
  {
    hide Step, Sends, WritesDone, DoneBeforeClose;
    InvariantHolds(head, states, events, i);
    var s := states[i];
    if s.cut != -1 {
      assert s.completed == s.accepted[..s.cut][..|s.completed|];
      assert s.queue != [] ==> s.posted[..s.cut][|s.completed|] == s.accepted[..s.cut][|s.completed|] == s.queue[0];
    }
  }

  /** Everything that was sent has been written if and only if no payload was refused, none waits for the strand
      and none is queued. */
  lemma EverythingIsDeliveredExactlyWhen(head: string, states: seq<State>, events: seq<Event>, i: nat)
    requires Run(head, states, events) && i < |states|
    ensures states[i].completed == states[i].posted
       <==> states[i].cut == -1 && states[i].queue == [] && Sends(states[i].strand) == []
  {
    hide Step, Sends, WritesDone, DoneBeforeClose;
    InvariantHolds(head, states, events, i);
    var s := states[i];
    if s.cut == -1 {
      assert |s.posted| == |s.completed| + |s.queue| + |Sends(s.strand)|;
    }
  }

  /** The queue is bounded, has one writer, and is non-empty exactly while a write is outstanding or after
      one has failed. */
  lemma QueueIsBoundedWithOneWriter(head: string, states: seq<State>, events: seq<Event>, i: nat)
    requires Run(head, states, events) && i < |states|
    ensures |states[i].queue| <= 1025 && Outstanding(states[i]) <= 1
    ensures states[i].queue != [] <==> Outstanding(states[i]) == 1 || states[i].failed
    ensures states[i].failed ==> Outstanding(states[i]) == 0 && !states[i].open
  {
    hide Step;
    InvariantHolds(head, states, events, i);
  }

  /** A payload whose turn has come is refused exactly when 1025 are queued, and a refusal asks for the close. */
  lemma RefusedExactlyWhenFull(head: string, states: seq<State>, events: seq<Event>, i: nat)
    requires Run(head, states, events) && i < |events|
    requires events[i].RunTask? && states[i].strand != [] && states[i].strand[0].SendTask?
    ensures var s, r := states[i], states[i + 1];
            if |s.queue| == 1025 then r.accepted == s.accepted && r.queue == s.queue && CloseTask in r.strand
            else r.accepted == s.accepted + [s.strand[0].payload] && (Outstanding(r) == 1 || s.failed)
  {
    hide Step;
    InvariantHolds(head, states, events, i);
    InvariantHolds(head, states, events, i + 1);
    RefusedWhenFull(states[i]);
  }

  lemma RefusedWhenFull(s: State)
    requires s.strand != [] && s.strand[0].SendTask? && |s.queue| <= 1025
    ensures var r := Step(s, RunTask);
            if |s.queue| == 1025 then r.accepted == s.accepted && r.queue == s.queue && CloseTask in r.strand
            else r.accepted == s.accepted + [s.strand[0].payload] && r.queue != [] && r.failed == s.failed
  {
  }

  /** After a failed write no further write ever starts: nothing is outstanding and nothing is received. */
  lemma {:induction false} FailureIsFinal(head: string, states: seq<State>, events: seq<Event>, i: nat, j: nat)
    requires Run(head, states, events) && i <= j < |states| && states[i].failed
    ensures states[j].failed && Outstanding(states[j]) == 0 && states[j].completed == states[i].completed
    decreases j - i
  {
    hide Step;
    InvariantHolds(head, states, events, j);
    if i < j {
      FailureIsFinal(head, states, events, i, j - 1);
      InvariantHolds(head, states, events, j - 1);
      FailureStays(states[j - 1], events[j - 1]);
    }
  }
}
