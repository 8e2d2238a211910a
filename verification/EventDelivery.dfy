// What reaches the caller of the event stream: nothing of a holdout but its status,
// and everything a server sends, whatever the pieces its text arrives in.
module EventDelivery {
  import opened Wrappers
  import opened EventFraming
  import opened EventStream

  const HOLDOUT := "validation.holdout.updated"

  // The payload members a holdout notification may carry.
  predicate Harmless(event: Envelope) {
    event.eventType != HOLDOUT ||
    forall key :: key in event.payloadKeys ==> key == "status" || key == "state" || key == "reason_code"
  }

  // ---- one frame ----

  // A frame is refused when it has no data, breaks the contract, or notifies of a
  // holdout with any further payload member. It counts one skew and asks for a resync;
  // cursor and deliveries stay as they are. Three refusals in a row block.
  lemma RefusedFrame(c: Client, d: Decoded)
    requires !c.blocked && (d.NoData? || d.ContractError? || !Harmless(d.event))
    ensures var after := HandleFrame(c, d);
            && after.last == c.last && after.skews == c.skews + 1
            && (after.blocked <==> c.skews + 1 >= 3)
            && after.log == c.log + [Resync, State(if c.skews + 1 >= 3 then "client-update-required"
                                                   else "resynchronizing")]
  {
  }

  // Any other frame ends the run of skews. Beyond the cursor it moves the cursor, is
  // stored, and is delivered unless it demands a resync; a gap resynchronises as well.
  lemma AcceptedFrame(c: Client, d: Decoded)
    requires !c.blocked && d.Frame? && Harmless(d.event)
    ensures var after, event := HandleFrame(c, d), d.event;
            && !after.blocked && after.skews == 0
            && after.last == (if event.sequence > c.last then event.sequence else c.last)
            && (event.sequence <= c.last ==> after.log == c.log)
            && (event.sequence > c.last && event.eventType == "system.resync_required" ==>
                  after.log == c.log + [Store(event.sequence), Resync])
            && (event.sequence > c.last && event.eventType != "system.resync_required" ==>
                  after.log == c.log + [Store(event.sequence), Deliver(event)] +
                    (if c.last > 0 && event.sequence - c.last > 1 then [Resync] else []))
  {
  }

  // ---- every run ----

  ghost predicate HarmlessLog(log: seq<Action>) {
    forall i :: 0 <= i < |log| && log[i].Deliver? ==> Harmless(log[i].event)
  }

  // Over every run of connections, breaks and frames, no holdout notification with any
  // further payload member is ever delivered.
  lemma {:induction false} OnlyHarmlessDelivered(c: Client, steps: seq<Step>)
    requires HarmlessLog(c.log)
    ensures HarmlessLog(RunOf(c, steps).log)
  {
    hide StepOf;
    hide HarmlessLog;
    if steps != [] {
      var n := |steps| - 1;
      OnlyHarmlessDelivered(c, steps[..n]);
      StepHarmless(RunOf(c, steps[..n]), steps[n]);
    }
  }

  lemma StepHarmless(c: Client, step: Step)
    requires HarmlessLog(c.log)
    ensures HarmlessLog(StepOf(c, step).log)
  {
    hide Harmless;
    hide HandleFrame;
    if step.Handling? {
      var d := step.frame;
      if c.blocked {
        BlockedStays(c, d);
      } else if d.Frame? && Harmless(d.event) {
        AcceptedFrame(c, d);
      } else {
        RefusedFrame(c, d);
      }
    }
  }

  lemma BlockedStays(c: Client, d: Decoded)
    requires c.blocked
    ensures HandleFrame(c, d) == c
  {
  }

  // ---- from the server's text to the caller ----

  // An event as the server sends it: its number, its type and its envelope as texts.
  datatype Record = Record(number: string, name: string, json: string)

  function Head(r: Record): string {
    "id: " + r.number
  }

  function Middle(r: Record): string {
    "event: " + r.name
  }

  function Body(r: Record): string {
    "data: " + r.json
  }

  function FrameOf(r: Record): string {
    Head(r) + "\n" + Middle(r) + "\n" + Body(r)
  }

  function Sent(records: seq<Record>): string {
    if records == [] then "" else FrameOf(records[0]) + "\n\n" + Sent(records[1..])
  }

  ghost predicate Plain(r: Record) {
    OneLine(r.number) && OneLine(r.name) && OneLine(r.json)
  }

  lemma LineThen(line: string, rest: string, i: nat)
    requires OneLine(line) && i <= |line|
    ensures LineEnd(line + "\n" + rest, i) == |line|
    decreases |line| - i
  {
    if i < |line| {
      LineThen(line, rest, i + 1);
      assert (line + "\n" + rest)[i] == line[i];
    }
  }

  lemma LinesStep(line: string, rest: string)
    requires OneLine(line)
    ensures Lines(line + "\n" + rest) == [line] + Lines(rest)
  {
    var frame := line + "\n" + rest;
    LineThen(line, rest, 0);
    hide LineEnd;
    assert frame[..|line|] == line && frame[|line| + 1..] == rest && frame[|line|] == '\n';
  }

  lemma LinesLast(line: string)
    requires OneLine(line)
    ensures Lines(line) == [line]
  {
    NoLineEnd(line, 0);
  }

  lemma PlainLines(r: Record)
    requires Plain(r)
    ensures OneLine(Head(r)) && OneLine(Middle(r)) && OneLine(Body(r))
  {
  }

  lemma RecordLines(r: Record)
    requires Plain(r)
    ensures Lines(FrameOf(r)) == [Head(r), Middle(r), Body(r)]
  {
    PlainLines(r);
    hide Lines;
    hide OneLine;
    LinesStep(Head(r), Middle(r) + "\n" + Body(r));
    LinesStep(Middle(r), Body(r));
    LinesLast(Body(r));
    assert FrameOf(r) == Head(r) + "\n" + (Middle(r) + "\n" + Body(r));
  }

  // What the server sends for an event decodes to that event.
  lemma RecordDecodes(wire: Wire, r: Record, event: Envelope)
    requires Plain(r) && event.sequence >= 1
    requires wire.safeInteger(" " + r.number) == Some(event.sequence) && wire.envelope(" " + r.json) == Some(event)
    ensures Decode(wire, FrameOf(r)) == Frame(event.sequence, event)
  {
    RecordLines(r);
    hide Lines;
    var lines := [Head(r), Middle(r), Body(r)];
    StartsDiffer(r);
    hide Plain;
    assert lines[1..] == [Middle(r), Body(r)] && lines[1..][1..] == [Body(r)];
    assert FirstWith(lines[1..][1..], "data:") == Some(Body(r));
    assert FirstWith(lines[1..], "data:") == Some(Body(r));
    assert FirstWith(lines, "data:") == Some(Body(r)) && FirstWith(lines, "id:") == Some(Head(r));
    assert Head(r)[3..] == " " + r.number && Body(r)[5..] == " " + r.json;
  }

  lemma StartsDiffer(r: Record)
    ensures StartsWith(Head(r), "id:") && StartsWith(Body(r), "data:")
    ensures !StartsWith(Head(r), "data:") && !StartsWith(Middle(r), "data:")
  {
    assert Head(r)[0] == 'i' && Middle(r)[0] == 'e' && "data:"[0] == 'd';
    assert Head(r)[..3] == "id:" && Body(r)[..5] == "data:";
  }

  lemma NoInnerSeparator(r: Record, rest: string, k: nat)
    requires Plain(r) && k < |FrameOf(r)|
    ensures SeparatorAt(FrameOf(r) + "\n\n" + rest, k) == 0
  {
    var s, a, b := FrameOf(r) + "\n\n" + rest, |Head(r)|, |Head(r)| + 1 + |Middle(r)|;
    PlainLines(r);
    forall i | 0 <= i < |FrameOf(r)|
      ensures s[i] != '\r' && (s[i] == '\n' ==> i == a || i == b)
    {
      assert s[i] == FrameOf(r)[i];
      if i < a { assert s[i] == Head(r)[i]; }
      else if a < i < b { assert s[i] == Middle(r)[i - a - 1]; }
      else if b < i { assert s[i] == Body(r)[i - b - 1]; }
    }
    assert s[a + 1] == 'e' && s[b + 1] == 'd';
  }

  lemma RecordSplits(r: Record, rest: string)
    requires Plain(r)
    ensures Split(FrameOf(r) + "\n\n" + rest) == Prepend(FrameOf(r), Split(rest))
  {
    var s, at := FrameOf(r) + "\n\n" + rest, |FrameOf(r)|;
    forall k | 0 <= k < at
      ensures SeparatorAt(s, k) == 0
    {
      NoInnerSeparator(r, rest, k);
    }
    assert SeparatorAt(s, at) == 2;
    assert FirstSeparator(s, 0) == at;
    SplitStep(s);
    assert s[..at] == FrameOf(r) && s[at + 2..] == rest;
  }

  predicate LineBreak(s: string) {
    s == "\n" || s == "\r\n"
  }

  lemma BlankLength(line: string, first: string, second: string, rest: string)
    requires LineBreak(first) && LineBreak(second)
    ensures SeparatorAt(line + (first + second) + rest, |line|) == |first + second|
  {
    var s, blank := line + (first + second) + rest, first + second;
    assert forall k :: 0 <= k < |blank| ==> s[|line| + k] == blank[k];
    assert blank[0] == first[0] && blank[|first|] == second[0];
    assert blank[|first| - 1] == '\n' && blank[|blank| - 1] == '\n';
  }

  // Every blank line ends a frame, whichever way its two line ends are spelled.
  lemma BlankEndsFrame(line: string, first: string, second: string, rest: string)
    requires OneLine(line) && LineBreak(first) && LineBreak(second)
    ensures Split(line + (first + second) + rest) == Prepend(line, Split(rest))
  {
    var s, at := line + (first + second) + rest, |line|;
    BlankLength(line, first, second, rest);
    forall k | 0 <= k < at
      ensures SeparatorAt(s, k) == 0
    {
      assert s[k] == line[k];
    }
    hide SeparatorAt;
    hide OneLine;
    hide LineBreak;
    assert FirstSeparator(s, 0) == at;
    hide FirstSeparator;
    SplitStep(s);
    hide Split;
    assert s[..at] == line && s[at + |first + second|..] == rest;
  }

  // Either spelling ends a line.
  lemma BreakEndsLine(line: string, first: string, rest: string)
    requires OneLine(line) && LineBreak(first)
    ensures Lines(line + first + rest) == [line] + Lines(rest)
  {
    var text, at := line + first + rest, |line|;
    assert forall k :: 0 <= k < |first| ==> text[at + k] == first[k];
    LineEndsAt(text, line, 0);
    assert text[..at] == line && text[at + |first|..] == rest;
  }

  lemma LineEndsAt(text: string, line: string, i: nat)
    requires OneLine(line) && i <= |line| < |text| && line <= text
    requires text[|line|] == '\n' || (|line| + 1 < |text| && text[|line|] == '\r' && text[|line| + 1] == '\n')
    ensures LineEnd(text, i) == |line|
    decreases |line| - i
  {
    if i < |line| {
      assert text[i] == line[i];
      LineEndsAt(text, line, i + 1);
    }
  }

  function Frames(records: seq<Record>): seq<string> {
    seq(|records|, i requires 0 <= i < |records| => FrameOf(records[i]))
  }

  lemma {:induction false} SentSplits(records: seq<Record>)
    requires forall i :: 0 <= i < |records| ==> Plain(records[i])
    ensures Split(Sent(records)) == Framing(Frames(records), "")
  {
    hide FrameOf;
    hide Plain;
    if records == [] {
      assert Split("") == Framing([], "");
    } else {
      SentSplits(records[1..]);
      RecordSplits(records[0], Sent(records[1..]));
      hide Split;
      assert Frames(records) == [FrameOf(records[0])] + Frames(records[1..]);
    }
  }

  // The record carries the event, numbered next after the ones before it.
  ghost predicate Carries(wire: Wire, r: Record, event: Envelope, sequence: int) {
    && Plain(r) && event.sequence == sequence && Harmless(event) && event.eventType != "system.resync_required"
    && wire.safeInteger(" " + r.number) == Some(event.sequence) && wire.envelope(" " + r.json) == Some(event)
  }

  // Everything the server sends after the client's cursor, cut into chunks in any way,
  // is stored and delivered once each and in order, with no resync.
  lemma ServerToCaller(wire: Wire, c: Client, records: seq<Record>, events: seq<Envelope>, chunks: seq<string>)
    requires !c.blocked && c.last >= 0 && |records| == |events|
    requires forall i :: 0 <= i < |records| ==> Carries(wire, records[i], events[i], c.last + 1 + i)
    requires Joined(chunks) == Sent(records)
    ensures Fed(chunks).remainder == ""
    ensures var after := HandleFrames(c, Decodes(wire, Fed(chunks).frames));
            && !after.blocked && after.last == c.last + |events|
            && after.log == c.log + Callbacks(events)
  {
    FedIsSplit(chunks);
    forall i | 0 <= i < |records|
      ensures Plain(records[i])
    {
      assert Carries(wire, records[i], events[i], c.last + 1 + i);
    }
    SentSplits(records);
    var ds := FramesDecode(wire, c.last, records, events);
    hide HandleFrames;
    hide Carries;
    hide Split;
    hide Joined;
    hide Fed;
    hide Sent;
    hide Acceptable;
    ResumedConnection(c, ds);
    DeliveriesAre(ds, events);
  }

  lemma FramesDecode(wire: Wire, cursor: int, records: seq<Record>, events: seq<Envelope>) returns (ds: seq<Decoded>)
    requires cursor >= 0 && |records| == |events|
    requires forall i :: 0 <= i < |records| ==> Carries(wire, records[i], events[i], cursor + 1 + i)
    ensures ds == Decodes(wire, Frames(records)) && |ds| == |events|
    ensures forall i :: 0 <= i < |ds| ==> ds[i] == Frame(events[i].sequence, events[i])
    ensures Consecutive(ds, cursor)
  {
    hide Decode;
    hide FrameOf;
    ds := Decodes(wire, Frames(records));
    forall i | 0 <= i < |records|
      ensures ds[i] == Frame(events[i].sequence, events[i])
      ensures Acceptable(ds[i])
    {
      assert Carries(wire, records[i], events[i], cursor + 1 + i);
      RecordDecodes(wire, records[i], events[i]);
      HarmlessAcceptable(events[i]);
    }
    hide Acceptable;
  }

  lemma HarmlessAcceptable(event: Envelope)
    requires Harmless(event)
    ensures Acceptable(Frame(event.sequence, event))
  {
  }

  function Callbacks(events: seq<Envelope>): seq<Action> {
    if events == [] then []
    else
      var n := |events| - 1;
      Callbacks(events[..n]) + [Store(events[n].sequence), Deliver(events[n])]
  }

  lemma {:induction false} DeliveriesAre(ds: seq<Decoded>, events: seq<Envelope>)
    requires |ds| == |events| && forall i :: 0 <= i < |ds| ==> ds[i] == Frame(events[i].sequence, events[i])
    ensures Deliveries(ds) == Callbacks(events)
  {
    if ds != [] { DeliveriesAre(ds[..|ds| - 1], events[..|events| - 1]); }
  }
}
