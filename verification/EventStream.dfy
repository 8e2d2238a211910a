// The browser's event stream: decoding a frame, the cursor protocol, and what a
// whole run of connections delivers within one authentication scope.
module EventStream {
  import opened Wrappers
  import opened EventFraming

  // ---- decoding ----

  datatype Envelope = Envelope(sequence: int, eventType: string, payloadKeys: set<string>)

  // Library calls: Number(text.trim()) when that is a safe integer, and JSON.parse
  // of the trimmed text followed by the generated schema. Nothing is assumed of them.
  datatype Wire = Wire(safeInteger: string -> Option<int>, envelope: string -> Option<Envelope>)

  datatype Decoded = NoData | Frame(cursor: int, event: Envelope) | ContractError

  function StartsWith(line: string, prefix: string): bool {
    prefix <= line
  }

  // frame.split(/\r?\n/)
  function Lines(frame: string): seq<string>
    decreases |frame|
  {
    var at := LineEnd(frame, 0);
    if at == |frame| then [frame]
    else [frame[..at]] + Lines(frame[at + (if frame[at] == '\n' then 1 else 2)..])
  }

  function LineEnd(s: string, i: nat): (at: nat)
    requires i <= |s|
    ensures i <= at <= |s|
    ensures at < |s| ==> s[at] == '\n' || (s[at] == '\r' && at + 1 < |s| && s[at + 1] == '\n')
    decreases |s| - i
  {
    if i == |s| || s[i] == '\n' || (s[i] == '\r' && i + 1 < |s| && s[i + 1] == '\n') then i else LineEnd(s, i + 1)
  }

  function FirstWith(lines: seq<string>, prefix: string): Option<string> {
    if lines == [] then None
    else if StartsWith(lines[0], prefix) then Some(lines[0])
    else FirstWith(lines[1..], prefix)
  }

  lemma FirstWithStarts(lines: seq<string>, prefix: string)
    ensures FirstWith(lines, prefix).Some? ==> prefix <= FirstWith(lines, prefix).value
  {
  }

  function Decode(wire: Wire, frame: string): Decoded {
    var lines := Lines(frame);
    var id, data := FirstWith(lines, "id:"), FirstWith(lines, "data:");
    FirstWithStarts(lines, "id:");
    FirstWithStarts(lines, "data:");
    if data.None? then NoData
    else if id.None? then ContractError
    else
      match wire.safeInteger(id.value[3..])
      case None => ContractError
      case Some(cursor) =>
        if cursor < 1 then ContractError
        else
          match wire.envelope(data.value[5..])
          case None => ContractError
          case Some(event) => if event.sequence != cursor then ContractError else Frame(cursor, event)
  }

  // A frame is trusted only if its cursor line and its envelope agree.
  lemma DecodedAgrees(wire: Wire, frame: string)
    ensures Decode(wire, frame).Frame? ==>
              Decode(wire, frame).cursor == Decode(wire, frame).event.sequence >= 1
  {
  }

  // ---- the client ----

  // What the caller can observe: callbacks and writes to the cursor storage.
  datatype Action = Store(cursor: int) | Deliver(event: Envelope) | Resync | State(name: string)

  datatype Client = Client(last: int, skews: nat, blocked: bool, log: seq<Action>)

  function HoldoutSafe(event: Envelope): bool {
    event.eventType == "validation.holdout.updated" ==> event.payloadKeys <= {"status", "state", "reason_code"}
  }

  // Neither an error, nor a frame without data, nor an unsafe notification.
  predicate Acceptable(d: Decoded) {
    d.Frame? && HoldoutSafe(d.event)
  }

  function Skewed(c: Client): Client {
    if c.skews + 1 >= 3
    then c.(skews := c.skews + 1, blocked := true, log := c.log + [Resync, State("client-update-required")])
    else c.(skews := c.skews + 1, log := c.log + [Resync, State("resynchronizing")])
  }

  function Accepted(last: int, event: Envelope): seq<Action> {
    [Store(event.sequence)] +
    (if event.eventType == "system.resync_required" then [Resync]
     else if last > 0 && event.sequence > last + 1 then [Deliver(event), Resync]
     else [Deliver(event)])
  }

  function HandleFrame(c: Client, d: Decoded): Client {
    if c.blocked then c
    else if !Acceptable(d) then Skewed(c)
    else if d.event.sequence <= c.last then c.(skews := 0)
    else c.(skews := 0, last := d.event.sequence, log := c.log + Accepted(c.last, d.event))
  }

  // Frames in order; nothing happens after the contract block.
  function HandleFrames(c: Client, ds: seq<Decoded>): Client {
    if ds == [] then c else HandleFrame(HandleFrames(c, ds[..|ds| - 1]), ds[|ds| - 1])
  }

  function Decodes(wire: Wire, frames: seq<string>): seq<Decoded> {
    seq(|frames|, i requires 0 <= i < |frames| => Decode(wire, frames[i]))
  }

  lemma {:induction false} HandleConcat(c: Client, a: seq<Decoded>, b: seq<Decoded>)
    ensures HandleFrames(c, a + b) == HandleFrames(HandleFrames(c, a), b)
  {
    if b == [] {
      assert a + b == a;
    } else {
      assert (a + b)[..|a + b| - 1] == a + b[..|b| - 1];
      HandleConcat(c, a, b[..|b| - 1]);
    }
  }

  // ---- the closure with its mutable state ----

  class Stream {
    const wire: Wire
    var last: int
    var buffer: string
    var skews: nat
    var blocked: bool
    var stored: int
    var log: seq<Action>
    ghost const cursor: int

    constructor (wire: Wire, cursor: int)
      ensures this.wire == wire && this.cursor == cursor && Value() == Client(cursor, 0, false, [])
      ensures buffer == "" && Valid()
    {
      this.wire, this.cursor := wire, cursor;
      last, buffer, skews, blocked, stored, log := cursor, "", 0, false, cursor, [];
      new;
      RunCoherent(cursor, []);
    }

    // Deliveries, cursor writes and resyncs are coherent, and the stored cursor is the
    // last accepted sequence.
    ghost predicate Valid()
      reads this
    {
      Coherent(cursor, Value()) && stored == last
    }

    function Value(): Client
      reads this
    {
      Client(last, skews, blocked, log)
    }

    // A new connection starts with an empty buffer; cursor and skew count survive.
    method Connect()
      requires Valid()
      modifies this
      ensures Valid() && buffer == ""
      ensures if old(blocked) then Value() == old(Value())
              else Value() == old(Value()).(log := old(log) + [State("connected")])
    {
      hide Coherent;
      CoherentStep(cursor, Value(), Connecting);
      buffer := "";
      if !blocked { log := log + [State("connected")]; }
    }

    // A connection that breaks mid-stream reports and resynchronises.
    method Break()
      requires Valid()
      modifies this
      ensures Valid() && buffer == old(buffer)
      ensures if old(blocked) then Value() == old(Value())
              else Value() == old(Value()).(log := old(log) + [State("degraded"), Resync])
    {
      hide Coherent;
      CoherentStep(cursor, Value(), Breaking);
      if !blocked { log := log + [State("degraded"), Resync]; }
    }

    // One chunk of text read from the connection.
    method Receive(chunk: string)
      requires Valid()
      modifies this
      ensures Valid()
      ensures Value() == HandleFrames(old(Value()), Decodes(wire, Split(old(buffer) + chunk).frames))
      ensures buffer == Split(old(buffer) + chunk).remainder
    {
      hide Coherent;
      hide HandleFrame;
      hide Split;
      hide Decode;
      buffer := buffer + chunk;
      var framing := Split(buffer);
      buffer := framing.remainder;
      ghost var ds := Decodes(wire, framing.frames);
      for k := 0 to |framing.frames|
        invariant buffer == framing.remainder
        invariant Value() == HandleFrames(old(Value()), ds[..k])
        invariant Valid()
      {
        assert ds[..k + 1][..k] == ds[..k];
        HandleRaw(framing.frames[k]);
      }
      assert ds[..|framing.frames|] == ds;
    }

    // The body of the frame loop.
    method HandleRaw(raw: string)
      requires Valid()
      modifies this`last, this`skews, this`blocked, this`stored, this`log
      ensures Valid()
      ensures Value() == HandleFrame(old(Value()), Decode(wire, raw))
    {
      hide Decode;
      hide Coherent;
      CoherentStep(cursor, Value(), Handling(Decode(wire, raw)));
      ghost var after := HandleFrame(Value(), Decode(wire, raw));
      assert Coherent(cursor, after);
      var decoded := Decode(wire, raw);
      if blocked { return; }
      if decoded.ContractError? || decoded.NoData? || !HoldoutSafe(decoded.event) {
        skews := skews + 1;
        if skews >= 3 {
          blocked := true;
          log := log + [Resync, State("client-update-required")];
        } else {
          log := log + [Resync, State("resynchronizing")];
        }
        return;
      }
      var event := decoded.event;
      skews := 0;
      if event.sequence <= last { return; }
      var hasGap := last > 0 && event.sequence > last + 1;
      last := event.sequence;
      stored := last;
      if event.eventType == "system.resync_required" {
        log := log + [Store(last), Resync];
        assert Value() == after;
        return;
      }
      if hasGap {
        log := log + [Store(last), Deliver(event), Resync];
      } else {
        log := log + [Store(last), Deliver(event)];
      }
      assert Value() == after;
    }
  }

  // ---- chunks ----

  // Receiving a text in two chunks is receiving it in one, for everything the
  // caller can observe and for the remaining buffer.
  lemma ReceiveInChunks(wire: Wire, c: Client, buffer: string, a: string, b: string)
    ensures var first := Split(buffer + a);
            var second := Split(first.remainder + b);
            var whole := Split(buffer + (a + b));
            && HandleFrames(HandleFrames(c, Decodes(wire, first.frames)), Decodes(wire, second.frames)) ==
                 HandleFrames(c, Decodes(wire, whole.frames))
            && second.remainder == whole.remainder
  {
    hide Split;
    hide HandleFrames;
    hide Decode;
    var first := Split(buffer + a);
    var second := Split(first.remainder + b);
    assert buffer + (a + b) == (buffer + a) + b;
    SplitConcat(buffer + a, b);
    HandleConcat(c, Decodes(wire, first.frames), Decodes(wire, second.frames));
    assert Decodes(wire, first.frames + second.frames) == Decodes(wire, first.frames) + Decodes(wire, second.frames);
  }

  // ---- runs of connections ----

  datatype Step = Connecting | Breaking | Handling(frame: Decoded)

  function StepOf(c: Client, step: Step): Client {
    match step
    case Handling(d) => HandleFrame(c, d)
    case Connecting => if c.blocked then c else c.(log := c.log + [State("connected")])
    case Breaking => if c.blocked then c else c.(log := c.log + [State("degraded"), Resync])
  }

  function RunOf(c: Client, steps: seq<Step>): Client {
    if steps == [] then c else StepOf(RunOf(c, steps[..|steps| - 1]), steps[|steps| - 1])
  }

  function Delivered(log: seq<Action>): seq<int> {
    if log == [] then []
    else
      var rest := Delivered(log[..|log| - 1]);
      match log[|log| - 1]
      case Deliver(event) => rest + [event.sequence]
      case _ => rest
  }

  // The cursor after the last write, starting from a given one.
  function LastStored(cursor: int, log: seq<Action>): int {
    if log == [] then cursor
    else
      match log[|log| - 1]
      case Store(n) => n
      case _ => LastStored(cursor, log[..|log| - 1])
  }

  lemma {:induction false} DeliveredConcat(a: seq<Action>, b: seq<Action>)
    ensures Delivered(a + b) == Delivered(a) + Delivered(b)
  {
    if b == [] {
      assert a + b == a;
    } else {
      assert (a + b)[..|a + b| - 1] == a + b[..|b| - 1];
      DeliveredConcat(a, b[..|b| - 1]);
    }
  }

  lemma {:induction false} LastStoredConcat(cursor: int, a: seq<Action>, b: seq<Action>)
    ensures LastStored(cursor, a + b) == LastStored(LastStored(cursor, a), b)
  {
    if b == [] {
      assert a + b == a;
    } else {
      assert (a + b)[..|a + b| - 1] == a + b[..|b| - 1];
      LastStoredConcat(cursor, a, b[..|b| - 1]);
    }
  }

  ghost predicate StrictlyAbove(s: seq<int>, low: int, high: int) {
    && (forall i :: 0 <= i < |s| ==> low < s[i] <= high)
    && (forall i, j :: 0 <= i < j < |s| ==> s[i] < s[j])
  }

  // Every delivery follows the write of its own sequence, and a jump of the cursor
  // past the next number, once there is a cursor, is followed by a resync.
  ghost predicate Disciplined(cursor: int, log: seq<Action>) {
    forall i :: 0 <= i < |log| ==> Ruled(cursor, log, i)
  }

  ghost predicate Ruled(cursor: int, log: seq<Action>, i: nat)
    requires i < |log|
  {
    && (log[i].Deliver? ==> i > 0 && log[i - 1] == Store(log[i].event.sequence))
    && (log[i].Store? ==>
          var before := LastStored(cursor, log[..i]);
          && log[i].cursor > before
          && i + 1 < |log|
          && (log[i + 1].Deliver? || log[i + 1].Resync?)
          && (before > 0 && log[i].cursor > before + 1 && log[i + 1].Deliver? ==> i + 2 < |log| && log[i + 2].Resync?))
  }

  ghost predicate Coherent(cursor: int, c: Client) {
    && StrictlyAbove(Delivered(c.log), cursor, c.last)
    && LastStored(cursor, c.log) == c.last >= cursor
    && Disciplined(cursor, c.log)
  }

  lemma DisciplinedConcat(cursor: int, a: seq<Action>, b: seq<Action>)
    requires Disciplined(cursor, a) && Disciplined(LastStored(cursor, a), b)
    ensures Disciplined(cursor, a + b)
  {
    hide LastStored;
    var log := a + b;
    forall i | 0 <= i < |log|
      ensures Ruled(cursor, log, i)
    {
      if i < |a| {
        assert Ruled(cursor, a, i);
        assert log[..i] == a[..i];
      } else {
        assert Ruled(LastStored(cursor, a), b, i - |a|);
        assert log[..i] == a + b[..i - |a|];
        LastStoredConcat(cursor, a, b[..i - |a|]);
      }
    }
  }

  lemma LogAppend(cursor: int, log: seq<Action>, a: Action)
    ensures Delivered(log + [a]) == Delivered(log) + (if a.Deliver? then [a.event.sequence] else [])
    ensures LastStored(cursor, log + [a]) == if a.Store? then a.cursor else LastStored(cursor, log)
  {
  }

  lemma AcceptedDisciplined(last: int, event: Envelope)
    requires event.sequence > last
    ensures Disciplined(last, Accepted(last, event))
    ensures LastStored(last, Accepted(last, event)) == event.sequence
    ensures Delivered(Accepted(last, event)) ==
            if event.eventType == "system.resync_required" then [] else [event.sequence]
  {
    hide LastStored;
    hide Delivered;
    var log, n := Accepted(last, event), event.sequence;
    NothingLogged(last);
    LogAppend(last, [], Store(n));
    assert [] + [Store(n)] == [Store(n)];
    assert log[..0] == [];
    if event.eventType == "system.resync_required" {
      LogAppend(last, [Store(n)], Resync);
      assert log == [Store(n)] + [Resync];
    } else {
      LogAppend(last, [Store(n)], Deliver(event));
      LogAppend(last, [Store(n)] + [Deliver(event)], Resync);
      assert log == [Store(n)] + [Deliver(event)] || log == ([Store(n)] + [Deliver(event)]) + [Resync];
    }
  }

  lemma NothingLogged(last: int)
    ensures LastStored(last, []) == last && Delivered([]) == []
  {
  }

  lemma QuietDisciplined(last: int, a: Action, b: Action)
    requires !a.Store? && !a.Deliver? && !b.Store? && !b.Deliver?
    ensures Disciplined(last, [a, b]) && Disciplined(last, [a])
    ensures LastStored(last, [a, b]) == last == LastStored(last, [a])
    ensures Delivered([a, b]) == [] == Delivered([a])
  {
    hide LastStored;
    hide Delivered;
    NothingLogged(last);
    LogAppend(last, [], a);
    LogAppend(last, [a], b);
    assert [] + [a] == [a] && [a] + [b] == [a, b];
  }

  lemma CoherentAppend(cursor: int, c: Client, tail: seq<Action>, d: Client)
    requires Coherent(cursor, c) && Disciplined(c.last, tail)
    requires d.log == c.log + tail && d.last == LastStored(c.last, tail) >= c.last
    requires StrictlyAbove(Delivered(tail), c.last, d.last)
    ensures Coherent(cursor, d)
  {
    hide Disciplined;
    DisciplinedConcat(cursor, c.log, tail);
    LastStoredConcat(cursor, c.log, tail);
    DeliveredConcat(c.log, tail);
  }

  lemma CoherentStep(cursor: int, c: Client, step: Step)
    requires Coherent(cursor, c)
    ensures Coherent(cursor, StepOf(c, step))
  {
    hide Disciplined;
    hide LastStored;
    hide Delivered;
    hide Accepted;
    if !c.blocked {
      QuietDisciplined(c.last, Resync, State("client-update-required"));
      QuietDisciplined(c.last, Resync, State("resynchronizing"));
      QuietDisciplined(c.last, State("degraded"), Resync);
      QuietDisciplined(c.last, State("connected"), Resync);
      match step {
        case Connecting => CoherentAppend(cursor, c, [State("connected")], StepOf(c, step));
        case Breaking => CoherentAppend(cursor, c, [State("degraded"), Resync], StepOf(c, step));
        case Handling(d) =>
          if !Acceptable(d) {
            CoherentAppend(cursor, c, if c.skews + 1 >= 3 then [Resync, State("client-update-required")]
                                      else [Resync, State("resynchronizing")], StepOf(c, step));
          } else if d.event.sequence > c.last {
            AcceptedDisciplined(c.last, d.event);
            CoherentAppend(cursor, c, Accepted(c.last, d.event), StepOf(c, step));
          }
      }
    }
  }

  // Over any run of connections, breaks and frames within one scope: deliveries
  // are strictly increasing and above the initial cursor, the stored cursor is the
  // last accepted sequence, and gaps are followed by a resync.
  lemma {:induction false} RunCoherent(cursor: int, steps: seq<Step>)
    ensures Coherent(cursor, RunOf(Client(cursor, 0, false, []), steps))
  {
    hide StepOf;
    if steps != [] {
      RunCoherent(cursor, steps[..|steps| - 1]);
      CoherentStep(cursor, RunOf(Client(cursor, 0, false, []), steps[..|steps| - 1]), steps[|steps| - 1]);
    }
  }

  // After the contract block nothing more happens, whatever is still received.
  lemma {:induction false} BlockedForever(c: Client, steps: seq<Step>)
    requires c.blocked
    ensures RunOf(c, steps) == c
  {
    if steps != [] { BlockedForever(c, steps[..|steps| - 1]); }
  }

  // ---- when the contract block happens ----

  ghost predicate ThreeAt(ds: seq<Decoded>, i: int) {
    0 <= i && i + 2 < |ds| && !Acceptable(ds[i]) && !Acceptable(ds[i + 1]) && !Acceptable(ds[i + 2])
  }

  ghost predicate ThreeInARow(ds: seq<Decoded>) {
    exists i :: ThreeAt(ds, i)
  }

  // Frames at the end of the sequence that are not acceptable.
  function Trailing(ds: seq<Decoded>): nat {
    if ds == [] || Acceptable(ds[|ds| - 1]) then 0 else Trailing(ds[..|ds| - 1]) + 1
  }

  lemma {:induction false} TrailingRun(ds: seq<Decoded>)
    ensures Trailing(ds) <= |ds|
    ensures forall i :: |ds| - Trailing(ds) <= i < |ds| ==> !Acceptable(ds[i])
    ensures Trailing(ds) < |ds| ==> Acceptable(ds[|ds| - 1 - Trailing(ds)])
  {
    if ds != [] { TrailingRun(ds[..|ds| - 1]); }
  }

  lemma ThreeStep(ds: seq<Decoded>)
    requires ds != []
    ensures ThreeInARow(ds) <==> ThreeInARow(ds[..|ds| - 1]) || Trailing(ds) >= 3
  {
    hide Acceptable;
    hide Trailing;
    var n := |ds| - 1;
    TrailingRun(ds);
    if ThreeInARow(ds[..n]) {
      var i :| ThreeAt(ds[..n], i);
      assert ThreeAt(ds, i);
    }
    if Trailing(ds) >= 3 {
      assert ThreeAt(ds, n - 2);
    }
    if ThreeInARow(ds) {
      var i :| ThreeAt(ds, i);
      if i + 2 < n {
        assert ThreeAt(ds[..n], i);
      }
    }
  }

  // The client blocks exactly when three frames in a row are unacceptable, however
  // they are spread over connections; a comment-only heartbeat counts as one.
  lemma {:induction false} BlocksExactly(cursor: int, ds: seq<Decoded>)
    ensures var c := HandleFrames(Client(cursor, 0, false, []), ds);
            && (c.blocked <==> ThreeInARow(ds))
            && (!c.blocked ==> c.skews == Trailing(ds) < 3)
  {
    hide Accepted;
    hide Acceptable;
    if ds != [] {
      BlocksExactly(cursor, ds[..|ds| - 1]);
      ThreeStep(ds);
      hide ThreeInARow;
    }
  }

  const HEARTBEAT := ": heartbeat"

  ghost predicate OneLine(s: string) {
    forall k :: 0 <= k < |s| ==> s[k] != '\n' && s[k] != '\r'
  }

  lemma {:induction false} NoLineEnd(s: string, i: nat)
    requires i <= |s| && OneLine(s)
    ensures LineEnd(s, i) == |s|
    decreases |s| - i
  {
  }

  // One line followed by a blank line is one frame.
  lemma LineIsFrame(line: string)
    requires OneLine(line)
    ensures Split(line + "\n\n") == Framing([line], "")
  {
    var s := line + "\n\n";
    assert SeparatorAt(s, |line|) == 2;
    forall k | 0 <= k < |line|
      ensures SeparatorAt(s, k) == 0
    {
      assert s[k] == line[k];
    }
    assert FirstSeparator(s, 0) == |line|;
    hide SeparatorAt;
    hide FirstSeparator;
    assert s[..|line|] == line && s[|line| + 2..] == "";
    assert Split("") == Framing([], "");
  }

  // The server's idle heartbeat is a frame of its own, and it carries no data.
  lemma HeartbeatHasNoData(wire: Wire)
    ensures Split(HEARTBEAT + "\n\n") == Framing([HEARTBEAT], "")
    ensures Decode(wire, HEARTBEAT) == NoData
  {
    LineIsFrame(HEARTBEAT);
    NoLineEnd(HEARTBEAT, 0);
    assert Lines(HEARTBEAT) == [HEARTBEAT];
    assert !StartsWith(HEARTBEAT, "data:") by { assert HEARTBEAT[0] == ':' && "data:"[0] == 'd'; }
    assert [HEARTBEAT][1..] == [];
    assert FirstWith([], "data:") == None;
    assert FirstWith([HEARTBEAT], "data:") == None;
  }

  // So an idle but healthy stream blocks the client after three heartbeats.
  lemma IdleStreamBlocks(wire: Wire, cursor: int)
    ensures var d := Decode(wire, HEARTBEAT);
            HandleFrames(Client(cursor, 0, false, []), [d, d, d]).blocked
  {
    HeartbeatHasNoData(wire);
    hide Decode;
    var d := Decode(wire, HEARTBEAT);
    assert ThreeAt([d, d, d], 0);
    BlocksExactly(cursor, [d, d, d]);
  }

  // ---- what is delivered ----

  // The position of an event that beats the cursor and every acceptable event before it.
  ghost predicate Record(cursor: int, ds: seq<Decoded>, i: nat)
    requires i < |ds|
  {
    && Acceptable(ds[i])
    && ds[i].event.sequence > cursor
    && forall j :: 0 <= j < i && Acceptable(ds[j]) ==> ds[j].event.sequence < ds[i].event.sequence
  }

  ghost function Records(cursor: int, ds: seq<Decoded>): seq<int> {
    if ds == [] then []
    else
      var n := |ds| - 1;
      Records(cursor, ds[..n]) +
      (if Record(cursor, ds, n) && ds[n].event.eventType != "system.resync_required"
       then [ds[n].event.sequence] else [])
  }

  ghost predicate Highest(cursor: int, ds: seq<Decoded>, top: int) {
    && top >= cursor
    && (forall j :: 0 <= j < |ds| && Acceptable(ds[j]) ==> ds[j].event.sequence <= top)
    && (top == cursor || exists j :: 0 <= j < |ds| && Acceptable(ds[j]) && ds[j].event.sequence == top)
  }

  // Until the contract block, exactly the events that beat everything before them
  // are delivered, in order and once each; replays and stragglers are dropped.
  lemma {:induction false} DeliversTheRecords(cursor: int, ds: seq<Decoded>)
    requires !ThreeInARow(ds)
    ensures var c := HandleFrames(Client(cursor, 0, false, []), ds);
            Delivered(c.log) == Records(cursor, ds) && Highest(cursor, ds, c.last)
  {
    hide Accepted;
    hide Acceptable;
    hide ThreeInARow;
    if ds != [] {
      var n := |ds| - 1;
      ThreeStep(ds);
      DeliversTheRecords(cursor, ds[..n]);
      BlocksExactly(cursor, ds[..n]);
      var c := HandleFrames(Client(cursor, 0, false, []), ds[..n]);
      LogGrowth(c, ds[n]);
      HighestStep(cursor, ds, c.last);
    }
  }

  lemma HighestStep(cursor: int, ds: seq<Decoded>, top: int)
    requires ds != [] && Highest(cursor, ds[..|ds| - 1], top)
    ensures var d := ds[|ds| - 1];
            && Highest(cursor, ds, if Acceptable(d) && d.event.sequence > top then d.event.sequence else top)
            && (Acceptable(d) && d.event.sequence > top <==> Record(cursor, ds, |ds| - 1))
  {
  }

  lemma LogGrowth(c: Client, d: Decoded)
    requires !c.blocked
    ensures Delivered(HandleFrame(c, d).log) == Delivered(c.log) +
              (if Acceptable(d) && d.event.sequence > c.last && d.event.eventType != "system.resync_required"
               then [d.event.sequence] else [])
  {
    hide Delivered;
    hide Accepted;
    if !Acceptable(d) {
      QuietDisciplined(c.last, Resync, State("client-update-required"));
      QuietDisciplined(c.last, Resync, State("resynchronizing"));
      DeliveredConcat(c.log, if c.skews + 1 >= 3 then [Resync, State("client-update-required")]
                             else [Resync, State("resynchronizing")]);
    } else if d.event.sequence > c.last {
      AcceptedDisciplined(c.last, d.event);
      DeliveredConcat(c.log, Accepted(c.last, d.event));
    }
  }

  // ---- a well-behaved server ----

  // Frames carrying the given consecutive sequence numbers after a cursor.
  ghost predicate Consecutive(ds: seq<Decoded>, cursor: int) {
    forall i :: 0 <= i < |ds| ==>
      Acceptable(ds[i]) && ds[i].event.sequence == cursor + 1 + i && ds[i].event.eventType != "system.resync_required"
  }

  ghost function Deliveries(ds: seq<Decoded>): seq<Action>
    requires forall i :: 0 <= i < |ds| ==> ds[i].Frame?
  {
    if ds == [] then []
    else
      var n := |ds| - 1;
      Deliveries(ds[..n]) + [Store(ds[n].event.sequence), Deliver(ds[n].event)]
  }

  // A connection that resumes right after the cursor delivers every event once, in
  // order, with no resync, and leaves the client where the next connection resumes.
  lemma {:induction false} ResumedConnection(c: Client, ds: seq<Decoded>)
    requires !c.blocked && Consecutive(ds, c.last)
    ensures var after := HandleFrames(c, ds);
            && !after.blocked
            && after.last == c.last + |ds|
            && after.log == c.log + Deliveries(ds)
  {
    if ds != [] {
      var n := |ds| - 1;
      ResumedConnection(c, ds[..n]);
      assert Acceptable(ds[n]);
    }
  }
}
