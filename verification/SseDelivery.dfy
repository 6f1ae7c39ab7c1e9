/** What the peer of an event-stream connection gets to see: printer and queue together. */
module SseDelivery {
  import opened EventStream
  import SseQueue

  /** The payloads of a list of calls and heartbeats; a send without data writes nothing. */
  function Payloads(items: seq<Item>): seq<string> {
    if items == [] then []
    else (if Written(items[0]) == "" then [] else [Written(items[0])]) + Payloads(items[1..])
  }

  function Bytes(payloads: seq<string>): string {
    if payloads == [] then "" else payloads[0] + Bytes(payloads[1..])
  }

  /** A prefix of the payloads is what a prefix of the calls writes. */
  lemma {:induction false} PrefixOfPayloads(items: seq<Item>, received: seq<string>) returns (k: nat)
    requires received <= Payloads(items)
    ensures k <= |items| && Bytes(received) == Stream(items[..k])
  {
    hide Written;
    if received == [] {
      k := 0;
    } else if Written(items[0]) == "" {
      k := PrefixOfPayloads(items[1..], received);
      k := k + 1;
      assert items[..k][1..] == items[1..][..k - 1];
      assert "" + Stream(items[1..][..k - 1]) == Stream(items[1..][..k - 1]);
    } else {
      assert Payloads(items)[1..] == Payloads(items[1..]);
      k := PrefixOfPayloads(items[1..], received[1..]);
      k := k + 1;
      assert items[..k][1..] == items[1..][..k - 1];
    }
  }

  lemma {:induction false} ExpectedPrefix(items: seq<Item>, k: nat, lastId: string)
    requires k <= |items|
    ensures Expected(items[..k], lastId) <= Expected(items, lastId)
  {
    if k > 0 {
      var first := items[0];
      assert items[..k][1..] == items[1..][..k - 1];
      ExpectedPrefix(items[1..], k - 1, if first.Sent? && first.data != "" && first.id != "" then first.id else lastId);
    }
  }

  lemma {:induction false} BytesConcat(a: seq<string>, b: seq<string>)
    ensures Bytes(a + b) == Bytes(a) + Bytes(b)
  {
    if a == [] {
      assert a + b == b;
    } else {
      assert (a + b)[1..] == a[1..] + b;
      BytesConcat(a[1..], b);
    }
  }

  /** A text that breaks off anywhere dispatches a prefix of the events of the whole: an unfinished line is
      discarded, and so is an event without its blank line. */
  lemma {:induction false} InterpretedPrefix(b: Buffers, text: string, k: nat)
    requires k <= |text|
    ensures Interpreted(b, text[..k]) <= Interpreted(b, text)
    decreases k
  {
    hide Interpreted;
    var part := text[..k];
    var i := LineEnd(part);
    if i < k {
      LineEndIs(text, i);
      LineTaken(b, part, i);
      LineTaken(b, text, i);
      var n, m, b' := NextLine(part, i), NextLine(text, i), After(b, part[..i]);
      assert part[..i] == text[..i];
      hide After, Told, LineEnd;
      if n == m {
        PartOfRest(text, k, n);
        InterpretedPrefix(b', text[n..], k - n);
      } else {
        assert part[n..] == "";
        NothingWhole(b', "");
      }
    } else {
      NothingWhole(b, part);
    }
  }

  /** What a whole line leaves in the buffers, and what it dispatches. */
  function After(b: Buffers, line: string): Buffers {
    if line == "" then Buffers("", "", b.lastId) else FieldLine(b, line)
  }

  function Told(b: Buffers, line: string): seq<Event> {
    if line == "" then Dispatched(b) else []
  }

  lemma LineTaken(b: Buffers, text: string, i: nat)
    requires i < |text| && i == LineEnd(text)
    ensures Interpreted(b, text) == Told(b, text[..i]) + Interpreted(After(b, text[..i]), text[NextLine(text, i)..])
  {
    hide Dispatched, FieldLine;
  }

  lemma NothingWhole(b: Buffers, text: string)
    requires LineEnd(text) == |text|
    ensures Interpreted(b, text) == []
  {
  }

  lemma PartOfRest(text: string, k: nat, n: nat)
    requires n <= k <= |text|
    ensures text[..k][n..] == text[n..][..k - n]
  {
  }

  /** What may have reached the peer: all that was written, and any part of the payload that is being written or
      whose write failed midway. */
  ghost predicate MayHaveReceived(s: SseQueue.State, text: string) {
    Bytes(s.completed) <= text <= Bytes(s.completed + SseQueue.InHand(s))
  }

  /** In every state of every run, whatever was sent and however the connection ends, in the middle of a payload
      too: the peer has received a part of the response head, or the head followed by a text whose interpretation
      is a prefix of the events sent. */
  lemma PeerSeesPrefixOfEvents(head: string, states: seq<SseQueue.State>, events: seq<SseQueue.Event>, i: nat,
                               items: seq<Item>, received: string)
    requires SseQueue.Run(head, states, events) && i < |states|
    requires states[i].posted == [head] + Payloads(items)
    requires forall item :: item in items ==> Printable(item)
    requires MayHaveReceived(states[i], received)
    ensures received <= head ||
            (head <= received && Interpreted(Buffers("", "", ""), received[|head|..]) <= Expected(items, ""))
  {
    hide Interpreted, Expected, Printable, Payloads, SseQueue.Run;
    SseQueue.ReceivedIsPrefixOfSent(head, states, events, i);
    var s := states[i];
    var written := s.completed + SseQueue.InHand(s);
    if s.completed == [] {
      OnePayload(head);
      assert written == [] || written == [head];
    } else {
      var after := written[1..];
      assert written == [head] + after && after <= Payloads(items);
      assert s.completed == [head] + s.completed[1..];
      hide Bytes;
      BytesConcat([head], after);
      BytesConcat([head], s.completed[1..]);
      OnePayload(head);
      var rest := received[|head|..];
      assert rest == Bytes(after)[..|rest|];
      BrokenOff(after, rest, items);
    }
  }

  lemma OnePayload(payload: string)
    ensures Bytes([payload]) == payload && Bytes([]) == ""
  {
    assert payload + "" == payload;
  }

  lemma BrokenOff(after: seq<string>, rest: string, items: seq<Item>)
    requires after <= Payloads(items) && rest <= Bytes(after)
    requires forall item :: item in items ==> Printable(item)
    ensures Interpreted(Buffers("", "", ""), rest) <= Expected(items, "")
  {
    hide Interpreted, Expected, Stream, Printable, Payloads, Bytes;
    var k := PrefixOfPayloads(items, after);
    PrintableStream(items[..k], "");
    ExpectedPrefix(items, k, "");
    InterpretedPrefix(Buffers("", "", ""), Bytes(after), |rest|);
    assert Bytes(after)[..|rest|] == rest;
  }

  /** A connection on which nothing was refused, and nothing waits or is queued, has delivered every event. */
  lemma PeerSeesEveryEvent(head: string, states: seq<SseQueue.State>, events: seq<SseQueue.Event>, i: nat,
                           items: seq<Item>)
    requires SseQueue.Run(head, states, events) && i < |states|
    requires states[i].posted == [head] + Payloads(items)
    requires forall item :: item in items ==> Printable(item)
    requires states[i].cut == -1 && states[i].queue == [] && SseQueue.Sends(states[i].strand) == []
    ensures var received := Bytes(states[i].completed);
            head <= received && Interpreted(Buffers("", "", ""), received[|head|..]) == Expected(items, "")
  {
    hide Interpreted, Expected, Printable, Payloads, Bytes, SseQueue.Run, SseQueue.Sends;
    SseQueue.EverythingIsDeliveredExactlyWhen(head, states, events, i);
    BytesConcat([head], Payloads(items));
    OnePayload(head);
    PayloadsAreStream(items);
    PrintableStream(items, "");
    assert Bytes(states[i].completed)[|head|..] == Bytes(Payloads(items));
  }

  lemma {:induction false} PayloadsAreStream(items: seq<Item>)
    ensures Bytes(Payloads(items)) == Stream(items)
  {
    hide Written;
    if items != [] {
      PayloadsAreStream(items[1..]);
      var first, rest := Written(items[0]), Payloads(items[1..]);
      BytesConcat(if first == "" then [] else [first], rest);
      OnePayload(first);
      assert "" + Stream(items[1..]) == Stream(items[1..]);
    }
  }
}
