/** What every event does in every run of an event-stream connection: what is sent and by whom, which handlers the
    strand runs, when the socket closes, and what a completed write is worth. */
module SseEvents {
  import opened SseQueue
  import EventStream

  predicate Runs(s: State, e: Event, t: Task) {
    e.RunTask? && s.strand != [] && s.strand[0] == t
  }

  /** A payload is sent by a call, or by the handler of an expired timer that finds the socket open. */
  function Sent(s: State, e: Event): seq<string> {
    if e.CallSend? then [e.payload]
    else if Runs(s, e, TimerDone(true)) && s.open then [EventStream.Heartbeat]
    else []
  }

  /** The handlers that an event posts to the strand. */
  function Posts(s: State, e: Event): seq<Task> {
    match e
    case CallSend(payload) => [SendTask(payload)]
    case CallClose => [CloseTask]
    case WriteFinishes(ok) => [WriteDone(ok)]
    case TimerFinishes(expired) => [TimerDone(expired)]
    case RunTask =>
      if s.strand != [] && s.strand[0].SendTask? && |s.queue| > 1024 then [CloseTask]
      else if Runs(s, e, TimerDone(true)) && s.open then [SendTask(EventStream.Heartbeat)]
      else []
  }

  predicate Closes(s: State, e: Event) {
    Runs(s, e, CloseTask) || Runs(s, e, WriteDone(false))
  }

  /** The four functions say what a step does. */
  ghost predicate Follows(s: State, r: State, e: Event) {
    && r.posted == s.posted + Sent(s, e)
    && (e.RunTask? ==> s.strand != [])
    && r.strand == (if e.RunTask? then s.strand[1..] else s.strand) + Posts(s, e)
    && r.open == (s.open && !Closes(s, e))
    && r.timerArmed == ((s.timerArmed && !e.TimerFinishes?) || (Runs(s, e, TimerDone(true)) && s.open))
    && (if Runs(s, e, WriteDone(true))
        then s.queue != [] && r.completed == s.completed + [s.queue[0]] && r.queue == s.queue[1..]
        else r.completed == s.completed)
  }

  lemma TaskFollows(s: State)
    requires s.strand != [] && SingleWriter(s)
    ensures Follows(s, Step(s, RunTask), RunTask)
  {
    var popped := s.(strand := s.strand[1..]);
    assert s.posted + [] == s.posted && popped.strand + [] == popped.strand;
    assert s.strand[0] == WriteDone(true) ==> s.queue != [] by {
      assert WritesDone(s.strand) >= if s.strand[0].WriteDone? then 1 else 0;
    }
    hide WritesDone;
  }

  lemma StepFollows(s: State, e: Event)
    requires Enabled(s, e) && SingleWriter(s)
    ensures Follows(s, Step(s, e), e)
  {
    hide SingleWriter;
    if e.RunTask? {
      TaskFollows(s);
    } else {
      assert s.posted + [] == s.posted;
    }
  }

  lemma RunFollows(head: string, states: seq<State>, events: seq<Event>, i: nat)
    requires Run(head, states, events) && i < |events|
    ensures Follows(states[i], states[i + 1], events[i])
  {
    InvariantHolds(head, states, events, i);
    hide Follows, NoGap, SingleWriter, Step;
    StepFollows(states[i], events[i]);
  }

  // ------------------------------------------------------------------- what is sent

  /** Everything that was sent before step `i`, in order. */
  function SentBefore(head: string, states: seq<State>, events: seq<Event>, i: nat): seq<string>
    requires i < |states| && i <= |events|
  {
    if i == 0 then [head] else SentBefore(head, states, events, i - 1) + Sent(states[i - 1], events[i - 1])
  }

  /** In every run, what was sent is the response head, then in order the payload of every call and one heartbeat for
      every expired timer whose handler found the connection open. */
  lemma {:induction false} PostedIsWhatWasSent(head: string, states: seq<State>, events: seq<Event>, i: nat)
    requires Run(head, states, events) && i < |states|
    ensures i <= |events| && states[i].posted == SentBefore(head, states, events, i)
  {
    hide Follows, Step;
    if i > 0 {
      PostedIsWhatWasSent(head, states, events, i - 1);
      RunFollows(head, states, events, i - 1);
      assert states[i].posted == states[i - 1].posted + Sent(states[i - 1], events[i - 1]) by {
        FollowsPosted(states[i - 1], states[i], events[i - 1]);
      }
    }
  }

  lemma FollowsPosted(s: State, r: State, e: Event)
    requires Follows(s, r, e)
    ensures r.posted == s.posted + Sent(s, e)
    ensures r.open == (s.open && !Closes(s, e))
    ensures r.timerArmed == ((s.timerArmed && !e.TimerFinishes?) || (Runs(s, e, TimerDone(true)) && s.open))
    ensures |r.completed| == |s.completed| + if Runs(s, e, WriteDone(true)) then 1 else 0
  {
  }

  // ------------------------------------------------------------ what the strand runs

  function PostedBefore(head: string, states: seq<State>, events: seq<Event>, i: nat): seq<Task>
    requires i < |states| && i <= |events|
  {
    if i == 0 then [SendTask(head)]
    else PostedBefore(head, states, events, i - 1) + Posts(states[i - 1], events[i - 1])
  }

  function RunsBefore(events: seq<Event>, i: nat): nat
    requires i <= |events|
  {
    if i == 0 then 0 else RunsBefore(events, i - 1) + if events[i - 1].RunTask? then 1 else 0
  }

  lemma Dropped(posted: seq<Task>, n: nat, strand: seq<Task>, more: seq<Task>)
    requires n <= |posted| && strand == posted[n..]
    ensures (posted + more)[n..] == strand + more
    ensures strand != [] ==> n + 1 <= |posted| && (posted + more)[n + 1..] == strand[1..] + more
  {
  }

  /** In every run, the strand runs the handlers posted to it in order and each once: those that have not run are the
      ones that wait. */
  lemma {:induction false} StrandRunsInOrder(head: string, states: seq<State>, events: seq<Event>, i: nat)
    requires Run(head, states, events) && i < |states|
    ensures i <= |events| && RunsBefore(events, i) <= |PostedBefore(head, states, events, i)|
    ensures states[i].strand == PostedBefore(head, states, events, i)[RunsBefore(events, i)..]
  {
    hide Step, Posts;
    if i > 0 {
      StrandRunsInOrder(head, states, events, i - 1);
      RunFollows(head, states, events, i - 1);
      Dropped(PostedBefore(head, states, events, i - 1), RunsBefore(events, i - 1), states[i - 1].strand,
              Posts(states[i - 1], events[i - 1]));
    }
  }

  // -------------------------------------------------------------------- the socket

  /** Some handler before step `i` closed the socket. */
  predicate ClosedBefore(states: seq<State>, events: seq<Event>, i: nat)
    requires i < |states| && i <= |events|
  {
    i > 0 && (ClosedBefore(states, events, i - 1) || Closes(states[i - 1], events[i - 1]))
  }

  /** In every run, the socket is closed exactly since the strand ran a close request or the handler of a failed
      write, on an idle connection too. */
  lemma {:induction false} ClosedExactlySince(head: string, states: seq<State>, events: seq<Event>, i: nat)
    requires Run(head, states, events) && i < |states|
    ensures i <= |events| && (states[i].open <==> !ClosedBefore(states, events, i))
  {
    hide Follows, Step, Closes;
    if i > 0 {
      ClosedExactlySince(head, states, events, i - 1);
      RunFollows(head, states, events, i - 1);
      FollowsPosted(states[i - 1], states[i], events[i - 1]);
    }
  }

  /** In every run, a closed connection stays closed, and the heartbeat ends with it: once its timer has finished, none
      is armed again. */
  lemma {:induction false} HeartbeatEndsWithConnection(head: string, states: seq<State>, events: seq<Event>,
                                                       i: nat, j: nat)
    requires Run(head, states, events) && i <= j < |states| && !states[i].open
    ensures !states[j].open && (!states[i].timerArmed ==> !states[j].timerArmed)
    decreases j - i
  {
    hide Follows, Step, Closes;
    if i < j {
      HeartbeatEndsWithConnection(head, states, events, i, j - 1);
      RunFollows(head, states, events, j - 1);
      FollowsPosted(states[j - 1], states[j], events[j - 1]);
    }
  }

  // -------------------------------------------------------------------- the writes

  function WritesBefore(states: seq<State>, events: seq<Event>, i: nat): nat
    requires i < |states| && i <= |events|
  {
    if i == 0 then 0
    else WritesBefore(states, events, i - 1) + if Runs(states[i - 1], events[i - 1], WriteDone(true)) then 1 else 0
  }

  /** In every run, every successful write completes one payload, and nothing else does: none is written twice. */
  lemma {:induction false} OneWriteForEveryPayload(head: string, states: seq<State>, events: seq<Event>, i: nat)
    requires Run(head, states, events) && i < |states|
    ensures i <= |events| && |states[i].completed| == WritesBefore(states, events, i)
  {
    hide Follows, Step;
    if i > 0 {
      OneWriteForEveryPayload(head, states, events, i - 1);
      RunFollows(head, states, events, i - 1);
      FollowsPosted(states[i - 1], states[i], events[i - 1]);
    }
  }
}
