/** The event printer, against the interpretation of an event stream by the WHATWG HTML Standard. */
module EventStream {
  import opened Common
  import Text

  // ------------------------------------- sections 9.2.5 and 9.2.6 of the HTML Standard

  datatype Event = Event(eventType: string, lastEventId: string, data: string)

  datatype Buffers = Buffers(data: string, eventType: string, lastId: string)

  predicate EndsLine(c: char) { c == '\r' || c == '\n' }

  /** The end of the first line, or of the text when that is not a whole line. */
  function LineEnd(text: string): (i: nat)
    ensures i <= |text|
    ensures forall j :: 0 <= j < i ==> !EndsLine(text[j])
    ensures i < |text| ==> EndsLine(text[i])
  {
    if text == "" || EndsLine(text[0]) then 0 else 1 + LineEnd(text[1..])
  }

  /** Lines end with CRLF, LF or CR. */
  function NextLine(text: string, i: nat): (n: nat)
    requires i < |text|
    ensures i < n <= |text|
  {
    if text[i] == '\r' && i + 1 < |text| && text[i + 1] == '\n' then i + 2 else i + 1
  }

  function Field(b: Buffers, name: string, value: string): Buffers {
    if name == "event" then b.(eventType := value)
    else if name == "data" then b.(data := b.data + value + "\n")
    else if name == "id" then if '\0' in value then b else b.(lastId := value)
    else b
  }

  function WithoutLeadingSpace(value: string): string {
    if value != "" && value[0] == ' ' then value[1..] else value
  }

  /** A line that is not blank. */
  function FieldLine(b: Buffers, line: string): Buffers
    requires line != ""
  {
    var colon := Text.Find(line, ':', 0);
    if colon == 0 then b
    else if colon < |line| then Field(b, line[..colon], WithoutLeadingSpace(line[colon + 1..]))
    else Field(b, line, "")
  }

  /** What a blank line dispatches. */
  function Dispatched(b: Buffers): seq<Event> {
    if b.data == "" then []
    else [Event(if b.eventType == "" then "message" else b.eventType, b.lastId, ChopLineFeed(b.data))]
  }

  function ChopLineFeed(data: string): string {
    if data != "" && data[|data| - 1] == '\n' then data[..|data| - 1] else data
  }

  /** The events dispatched while a text is interpreted; an unfinished line at its end is discarded. */
  function Interpreted(b: Buffers, text: string): seq<Event>
    decreases |text|
  {
    var i := LineEnd(text);
    if i == |text| then []
    else
      var rest := text[NextLine(text, i)..];
      if i == 0 then Dispatched(b) + Interpreted(Buffers("", "", b.lastId), rest)
      else Interpreted(FieldLine(b, text[..i]), rest)
  }

  // ------------------------------------------------------------------ the printer

  /** What the `getline` loop reads: the lines of `data`, no empty one after a final line feed. */
  function Lines(data: string): seq<string>
    decreases |data|
  {
    if data == "" then []
    else
      var end := Text.Find(data, '\n', 0);
      if end == |data| then [data] else [data[..end]] + Lines(data[end + 1..])
  }

  function LineText(name: string, value: string): string {
    name + ": " + value + "\n"
  }

  function DataText(lines: seq<string>): string {
    if lines == [] then "" else LineText("data", lines[0]) + DataText(lines[1..])
  }

  function HeaderText(name: string, value: string): string {
    if value == "" then "" else LineText(name, value)
  }

  function Payload(id: string, event: string, data: string): string {
    HeaderText("id", id) + HeaderText("event", event) + DataText(Lines(data)) + "\n"
  }

  const Heartbeat := ": heartbeat\n\n"

  /** `sse_stream::send`; nothing is sent for empty data. */
  method Send(id: string, event: string, data: string) returns (payload: Option<string>)
    ensures payload == if data == "" then None else Some(Payload(id, event, data))
  {
    hide Lines, DataText, LineText;
    if data == "" {
      return None;
    }
    var out := "";
    if id != "" {
      out := out + LineText("id", id);
    }
    if event != "" {
      out := out + LineText("event", event);
    }
    ghost var header := HeaderText("id", id) + HeaderText("event", event);
    ghost var rest := DataText(Lines(data));
    assert out == header && data[0..] == data;
    var pos := 0;
    while pos < |data|
      invariant pos <= |data| + 1
      invariant rest == if pos <= |data| then DataText(Lines(data[pos..])) else ""
      invariant out + rest == header + DataText(Lines(data))
    {
      var end := Text.Find(data, '\n', pos);
      var line := data[pos..end];
      LineRead(data, pos, end);
      rest := if end < |data| then DataText(Lines(data[end + 1..])) else "";
      Common.Associative(out, LineText("data", line), rest);
      out := out + LineText("data", line);
      pos := end + 1;
    }
    NothingLeft(data, pos);
    assert out + rest == out;
    out := out + "\n";
    return Some(out);
  }

  lemma NothingLeft(data: string, pos: nat)
    requires |data| <= pos <= |data| + 1
    ensures pos == |data| ==> DataText(Lines(data[pos..])) == ""
  {
  }

  lemma LinesSplit(data: string, end: nat)
    requires data != "" && end == Text.Find(data, '\n', 0)
    ensures end == |data| ==> Lines(data) == [data]
    ensures end < |data| ==> Lines(data) == [data[..end]] + Lines(data[end + 1..])
    ensures Lines("") == []
  {
    hide Text.Find;
  }

  lemma DataTextOne(line: string, lines: seq<string>)
    ensures DataText([line] + lines) == LineText("data", line) + DataText(lines)
    ensures DataText([]) == "" && [line] + [] == [line]
  {
    hide LineText;
    assert ([line] + lines)[1..] == lines;
  }

  lemma LineRead(data: string, pos: nat, end: nat)
    requires pos < |data| && end == Text.Find(data, '\n', pos)
    ensures DataText(Lines(data[pos..]))
         == LineText("data", data[pos..end]) + if end < |data| then DataText(Lines(data[end + 1..])) else ""
  {
    hide LineText, Lines, DataText;
    var rest, n := data[pos..], end - pos;
    Text.FindIsFirst(rest, '\n', 0, n);
    LinesSplit(rest, n);
    if end < |data| {
      assert rest[..n] == data[pos..end] && rest[n + 1..] == data[end + 1..];
      DataTextOne(data[pos..end], Lines(data[end + 1..]));
    } else {
      assert rest == data[pos..end];
      DataTextOne(rest, []);
    }
  }

  // -------------------------------------------------------------- the round trip

  /** Interpreting a whole line, then the rest. */
  lemma LineInterpreted(b: Buffers, line: string, rest: string)
    requires forall c :: c in line ==> !EndsLine(c)
    ensures Interpreted(b, line + "\n" + rest)
         == if line == "" then Dispatched(b) + Interpreted(Buffers("", "", b.lastId), rest)
            else Interpreted(FieldLine(b, line), rest)
  {
    var text := line + "\n" + rest;
    LineEndIs(text, |line|);
    assert text[..|line|] == line && text[NextLine(text, |line|)..] == rest;
  }

  lemma {:induction false} LineEndIs(text: string, i: nat)
    requires i < |text| && EndsLine(text[i])
    requires forall j :: 0 <= j < i ==> !EndsLine(text[j])
    ensures LineEnd(text) == i
  {
    if i > 0 {
      LineEndIs(text[1..], i - 1);
    }
  }

  lemma FieldInterpreted(b: Buffers, name: string, value: string, rest: string)
    requires name != "" && ':' !in name && forall c :: c in name || c in value ==> !EndsLine(c)
    ensures Interpreted(b, LineText(name, value) + rest) == Interpreted(Field(b, name, value), rest)
  {
    hide Interpreted, Field;
    var line := name + ": " + value;
    assert LineText(name, value) + rest == line + "\n" + rest;
    Text.FindIsFirst(line, ':', 0, |name|);
    assert line[..|name|] == name && line[|name| + 1..] == " " + value;
    LineInterpreted(b, line, rest);
  }

  lemma HeaderInterpreted(b: Buffers, name: string, value: string, rest: string)
    requires name != "" && ':' !in name && forall c :: c in name || c in value ==> !EndsLine(c)
    ensures Interpreted(b, HeaderText(name, value) + rest)
         == Interpreted(if value == "" then b else Field(b, name, value), rest)
  {
    hide Interpreted, Field, LineText;
    FieldInterpreted(b, name, value, rest);
    assert value == "" ==> HeaderText(name, value) + rest == rest;
  }

  /** The data buffer that a list of data lines leaves. */
  function Joined(lines: seq<string>): string {
    if lines == [] then "" else lines[0] + "\n" + Joined(lines[1..])
  }

  lemma {:induction false} DataInterpreted(b: Buffers, lines: seq<string>, rest: string)
    requires forall l, c :: l in lines && c in l ==> !EndsLine(c)
    ensures Interpreted(b, DataText(lines) + rest) == Interpreted(b.(data := b.data + Joined(lines)), rest)
    decreases |lines|
  {
    hide Interpreted, LineText;
    if lines == [] {
      assert DataText(lines) + rest == rest && b.data + Joined(lines) == b.data;
    } else {
      var b' := b.(data := b.data + lines[0] + "\n");
      Common.Associative(LineText("data", lines[0]), DataText(lines[1..]), rest);
      FieldInterpreted(b, "data", lines[0], DataText(lines[1..]) + rest);
      DataInterpreted(b', lines[1..], rest);
      assert b'.data + Joined(lines[1..]) == b.data + Joined(lines);
    }
  }

  /** The lines are the data again, once the final line feed is supplied. */
  lemma {:induction false} LinesJoined(data: string)
    requires data != ""
    ensures Joined(Lines(data)) == ChopLineFeed(data) + "\n"
    decreases |data|
  {
    hide ChopLineFeed, Joined, Lines;
    var end := Text.Find(data, '\n', 0);
    var first := data[..end];
    LinesSplit(data, end);
    if end == |data| {
      JoinedOne(data, []);
      ChopNothing(data);
    } else {
      var rest := data[end + 1..];
      JoinedOne(first, Lines(rest));
      ChopRest(data, first, rest);
      if rest != "" {
        LinesJoined(rest);
        Common.Associative(first + "\n", ChopLineFeed(rest), "\n");
      }
    }
  }

  lemma JoinedOne(line: string, lines: seq<string>)
    ensures Joined([line] + lines) == line + "\n" + Joined(lines)
    ensures Joined([]) == "" && line + "\n" + "" == line + "\n"
    ensures [line] + [] == [line]
  {
    assert ([line] + lines)[1..] == lines;
  }

  lemma ChopNothing(data: string)
    requires '\n' !in data
    ensures ChopLineFeed(data) == data
  {
  }

  lemma ChopRest(data: string, first: string, rest: string)
    requires data == first + "\n" + rest
    ensures ChopLineFeed(data) == if rest == "" then first else first + "\n" + ChopLineFeed(rest)
  {
  }

  lemma {:induction false} LinesWithin(data: string)
    ensures forall l, c :: l in Lines(data) && c in l ==> c in data && c != '\n'
    decreases |data|
  {
    if data != "" {
      var end := Text.Find(data, '\n', 0);
      LinesSplit(data, end);
      hide Lines;
      if end < |data| {
        LinesWithin(data[end + 1..]);
      }
    }
  }

  datatype Item = Sent(id: string, event: string, data: string) | Beat

  /** What is written for one call or one heartbeat. */
  function Written(item: Item): string {
    match item
    case Sent(id, event, data) => if data == "" then "" else Payload(id, event, data)
    case Beat => Heartbeat
  }

  function Stream(items: seq<Item>): string {
    if items == [] then "" else Written(items[0]) + Stream(items[1..])
  }

  /** What the receiver is meant to see: every send with data, its type, the last id sent so far, and
      its data without one final line feed. */
  function Expected(items: seq<Item>, lastId: string): seq<Event> {
    if items == [] then []
    else match items[0]
      case Beat => Expected(items[1..], lastId)
      case Sent(id, event, data) =>
        if data == "" then Expected(items[1..], lastId)
        else
          var running := if id == "" then lastId else id;
          [Event(if event == "" then "message" else event, running, ChopLineFeed(data))]
            + Expected(items[1..], running)
  }

  predicate OneLine(s: string) { '\r' !in s && '\n' !in s }

  /** Nothing in the call collides with the format. */
  predicate Printable(item: Item) {
    item.Sent? && item.data != "" ==>
      OneLine(item.id) && '\0' !in item.id && OneLine(item.event) && '\r' !in item.data
  }

  lemma PayloadParts(h1: string, h2: string, lines: string, rest: string)
    ensures h1 + h2 + lines + "\n" + rest == h1 + (h2 + (lines + ("\n" + rest)))
  {
  }

  lemma BlankLineInterpreted(b: Buffers, data: string, rest: string)
    requires b.data == ChopLineFeed(data) + "\n"
    ensures Interpreted(b, "\n" + rest)
         == [Event(if b.eventType == "" then "message" else b.eventType, b.lastId, ChopLineFeed(data))]
              + Interpreted(Buffers("", "", b.lastId), rest)
  {
    hide Interpreted;
    assert "" + "\n" + rest == "\n" + rest;
    LineInterpreted(b, "", rest);
    assert b.data[..|b.data| - 1] == ChopLineFeed(data);
  }

  lemma PayloadInterpreted(id: string, event: string, data: string, lastId: string, rest: string)
    requires data != "" && Printable(Sent(id, event, data))
    ensures var running := if id == "" then lastId else id;
            var sent := Event(if event == "" then "message" else event, running, ChopLineFeed(data));
            Interpreted(Buffers("", "", lastId), Payload(id, event, data) + rest)
            == [sent] + Interpreted(Buffers("", "", running), rest)
  {
    hide Interpreted, HeaderText, DataText, Lines, Joined, ChopLineFeed;
    var lines := Lines(data);
    var tail := "\n" + rest;
    var h1, h2 := HeaderText("id", id), HeaderText("event", event);
    PayloadParts(h1, h2, DataText(lines), rest);
    var b0 := Buffers("", "", lastId);
    var b1 := if id == "" then b0 else Field(b0, "id", id);
    var b2 := if event == "" then b1 else Field(b1, "event", event);
    HeaderInterpreted(b0, "id", id, h2 + (DataText(lines) + tail));
    HeaderInterpreted(b1, "event", event, DataText(lines) + tail);
    LinesJoined(data);
    LinesWithin(data);
    DataInterpreted(b2, lines, tail);
    assert "" + Joined(lines) == Joined(lines);
    BlankLineInterpreted(b2.(data := Joined(lines)), data, rest);
  }

  lemma BeatInterpreted(lastId: string, rest: string)
    ensures Interpreted(Buffers("", "", lastId), Heartbeat + rest) == Interpreted(Buffers("", "", lastId), rest)
  {
    hide Interpreted;
    var b := Buffers("", "", lastId);
    var comment := ": heartbeat";
    assert Heartbeat + rest == comment + "\n" + ("\n" + rest);
    LineInterpreted(b, comment, "\n" + rest);
    assert "" + "\n" + rest == "\n" + rest;
    LineInterpreted(b, "", rest);
  }

  lemma {:induction false} PrintableStream(items: seq<Item>, lastId: string)
    requires forall item :: item in items ==> Printable(item)
    ensures Interpreted(Buffers("", "", lastId), Stream(items)) == Expected(items, lastId)
  {
    hide Interpreted, Payload;
    if items == [] {
      NothingInterpreted(lastId);
    } else {
      var rest := Stream(items[1..]);
      match items[0]
      case Beat =>
        BeatInterpreted(lastId, rest);
        PrintableStream(items[1..], lastId);
      case Sent(id, event, data) =>
        if data == "" {
          assert Stream(items) == rest;
          PrintableStream(items[1..], lastId);
        } else {
          PayloadInterpreted(id, event, data, lastId, rest);
          PrintableStream(items[1..], if id == "" then lastId else id);
        }
    }
  }

  lemma NothingInterpreted(lastId: string)
    ensures Interpreted(Buffers("", "", lastId), "") == []
  {
  }

  // ------------------------------------------- nothing else can be seen by a receiver

  predicate CleanEvent(e: Event) {
    OneLine(e.eventType) && OneLine(e.lastEventId) && '\0' !in e.lastEventId && '\r' !in e.data
  }

  predicate CleanBuffers(b: Buffers) {
    OneLine(b.eventType) && OneLine(b.lastId) && '\0' !in b.lastId && '\r' !in b.data
  }

  lemma FieldLineKeepsClean(b: Buffers, line: string)
    requires CleanBuffers(b) && line != "" && OneLine(line)
    ensures CleanBuffers(FieldLine(b, line))
  {
  }

  lemma {:induction false} OnlyCleanEvents(b: Buffers, text: string)
    requires CleanBuffers(b)
    ensures forall e :: e in Interpreted(b, text) ==> CleanEvent(e)
    decreases |text|
  {
    var i := LineEnd(text);
    if i < |text| {
      var rest := text[NextLine(text, i)..];
      if i == 0 {
        OnlyCleanEvents(Buffers("", "", b.lastId), rest);
      } else {
        FieldLineKeepsClean(b, text[..i]);
        OnlyCleanEvents(FieldLine(b, text[..i]), rest);
      }
    }
  }

  lemma {:induction false} CleanExpectation(items: seq<Item>, lastId: string)
    requires forall e :: e in Expected(items, lastId) ==> CleanEvent(e)
    ensures forall item :: item in items ==> Printable(item)
  {
    if items != [] {
      var first := items[0];
      var running := if first.Sent? && first.data != "" && first.id != "" then first.id else lastId;
      var all := Expected(items, lastId);
      forall e | e in Expected(items[1..], running) ensures CleanEvent(e) {
        assert e in all;
      }
      CleanExpectation(items[1..], running);
      if first.Sent? && first.data != "" {
        assert CleanEvent(all[0]);
      }
    }
  }

  /** Any sequence of sends, with heartbeats anywhere between them, is seen by the receiver exactly as
      sent if and only if no id holds CR, LF or NUL, no event CR or LF, and no data CR. */
  lemma StreamRoundTrip(items: seq<Item>, lastId: string)
    requires OneLine(lastId) && '\0' !in lastId
    ensures Interpreted(Buffers("", "", lastId), Stream(items)) == Expected(items, lastId)
       <==> forall item :: item in items ==> Printable(item)
  {
    hide Interpreted, Expected, Stream, Printable;
    if forall item :: item in items ==> Printable(item) {
      PrintableStream(items, lastId);
    }
    OnlyCleanEvents(Buffers("", "", lastId), Stream(items));
    if Interpreted(Buffers("", "", lastId), Stream(items)) == Expected(items, lastId) {
      CleanExpectation(items, lastId);
    }
  }
}
