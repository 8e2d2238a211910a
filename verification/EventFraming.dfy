// Incremental framing of the event stream: text is buffered and split on blank
// lines, as in section 9.2.5 of the WHATWG HTML Living Standard restricted to LF
// and CRLF line ends.
module EventFraming {

  datatype Framing = Framing(frames: seq<string>, remainder: string)

  // Length of a blank-line separator (two line ends, each LF or CRLF) starting at
  // i, or zero.
  function SeparatorAt(s: string, i: nat): (n: nat)
    ensures n > 0 ==> i + n <= |s| && 2 <= n <= 4
  {
    var j := if i < |s| && s[i] == '\r' then i + 1 else i;
    if j < |s| && s[j] == '\n' then
      var k := if j + 1 < |s| && s[j + 1] == '\r' then j + 2 else j + 1;
      if k < |s| && s[k] == '\n' then k + 1 - i else 0
    else 0
  }

  // Where the first separator at or after i starts, or the length of the text.
  function FirstSeparator(s: string, i: nat): (at: nat)
    requires i <= |s|
    ensures i <= at <= |s|
    ensures at < |s| ==> SeparatorAt(s, at) > 0
    ensures forall k :: i <= k < at ==> SeparatorAt(s, k) == 0
    decreases |s| - i
  {
    if i == |s| || SeparatorAt(s, i) > 0 then i else FirstSeparator(s, i + 1)
  }

  // Where the text continues after its first separator.
  function Cut(s: string): (n: nat)
    requires FirstSeparator(s, 0) < |s|
    ensures FirstSeparator(s, 0) < n <= |s|
  {
    FirstSeparator(s, 0) + SeparatorAt(s, FirstSeparator(s, 0))
  }

  // text.split(/\r?\n\r?\n/) with the last piece taken off as the remainder.
  function Split(s: string): Framing
    decreases |s|
  {
    var at := FirstSeparator(s, 0);
    if at == |s| then Framing([], s)
    else
      var rest := Split(s[Cut(s)..]);
      Framing([s[..at]] + rest.frames, rest.remainder)
  }

  // ---- chunks ----

  lemma SeparatorPrefix(a: string, b: string, i: nat)
    requires SeparatorAt(a, i) > 0
    ensures SeparatorAt(a + b, i) == SeparatorAt(a, i)
  {
  }

  // A separator that only more text completes cannot start before a complete one.
  lemma NoEarlierSeparator(a: string, b: string, k: nat, at: nat)
    requires k < at && SeparatorAt(a, at) > 0 && SeparatorAt(a, k) == 0
    ensures SeparatorAt(a + b, k) == 0
  {
  }

  lemma FirstSeparatorStable(a: string, b: string)
    requires FirstSeparator(a, 0) < |a|
    ensures FirstSeparator(a + b, 0) == FirstSeparator(a, 0)
  {
    var at := FirstSeparator(a, 0);
    SeparatorPrefix(a, b, at);
    forall k | 0 <= k < at
      ensures SeparatorAt(a + b, k) == 0
    {
      NoEarlierSeparator(a, b, k, at);
    }
  }

  function Prepend(frame: string, f: Framing): Framing {
    Framing([frame] + f.frames, f.remainder)
  }

  lemma SplitStep(s: string)
    requires FirstSeparator(s, 0) < |s|
    ensures Split(s) == Prepend(s[..FirstSeparator(s, 0)], Split(s[Cut(s)..]))
  {
  }

  lemma SplitLonger(a: string, b: string)
    requires FirstSeparator(a, 0) < |a|
    ensures Split(a + b) == Prepend(a[..FirstSeparator(a, 0)], Split(a[Cut(a)..] + b))
  {
    hide SeparatorAt;
    hide FirstSeparator;
    hide Split;
    FirstSeparatorStable(a, b);
    SeparatorPrefix(a, b, FirstSeparator(a, 0));
    SplitStep(a + b);
    assert (a + b)[Cut(a)..] == a[Cut(a)..] + b;
    assert (a + b)[..FirstSeparator(a, 0)] == a[..FirstSeparator(a, 0)];
  }

  ghost predicate Continues(whole: Framing, first: Framing, second: Framing) {
    whole.frames == first.frames + second.frames && whole.remainder == second.remainder
  }

  lemma PrependContinues(frame: string, whole: Framing, first: Framing, second: Framing)
    requires Continues(whole, first, second)
    ensures Continues(Prepend(frame, whole), Prepend(frame, first), second)
  {
  }

  // Splitting a prefix first and then the remainder with the rest of the text
  // gives the same frames and the same remainder as splitting everything at once.
  lemma {:induction false} SplitConcat(a: string, b: string)
    ensures Continues(Split(a + b), Split(a), Split(Split(a).remainder + b))
    decreases |a|
  {
    hide SeparatorAt;
    hide FirstSeparator;
    if FirstSeparator(a, 0) < |a| {
      SplitStep(a);
      SplitLonger(a, b);
      SplitConcat(a[Cut(a)..], b);
      hide Split;
      var frame, rest := a[..FirstSeparator(a, 0)], a[Cut(a)..];
      PrependContinues(frame, Split(rest + b), Split(rest), Split(Split(rest).remainder + b));
    }
  }

  // The remainder never contains a complete separator.
  lemma {:induction false} RemainderUnsplit(s: string)
    ensures Split(Split(s).remainder) == Framing([], Split(s).remainder)
    decreases |s|
  {
    hide SeparatorAt;
    hide FirstSeparator;
    var at := FirstSeparator(s, 0);
    if at < |s| {
      SplitStep(s);
      RemainderUnsplit(s[Cut(s)..]);
    }
  }

  function Joined(chunks: seq<string>): string {
    if chunks == [] then "" else Joined(chunks[..|chunks| - 1]) + chunks[|chunks| - 1]
  }

  // The reading loop of a connection: buffer, split, keep the remainder.
  method ReadChunks(chunks: seq<string>) returns (frames: seq<string>, buffer: string)
    ensures Framing(frames, buffer) == Split(Joined(chunks))
  {
    frames, buffer := [], "";
    assert Split("") == Framing([], "");
    for k := 0 to |chunks|
      invariant Framing(frames, buffer) == Split(Joined(chunks[..k]))
    {
      assert chunks[..k + 1][..k] == chunks[..k];
      SplitConcat(Joined(chunks[..k]), chunks[k]);
      buffer := buffer + chunks[k];
      var framing := Split(buffer);
      frames, buffer := frames + framing.frames, framing.remainder;
    }
    assert chunks[..|chunks|] == chunks;
  }

  // However the same text is cut into chunks, the frames and the remainder agree.
  lemma ChunkInvariance(a: seq<string>, b: seq<string>)
    requires Joined(a) == Joined(b)
    ensures Fed(a) == Fed(b)
  {
    FedIsSplit(a);
    FedIsSplit(b);
  }

  // Feeding chunk after chunk.
  function Fed(chunks: seq<string>): Framing {
    if chunks == [] then Framing([], "")
    else
      var before := Fed(chunks[..|chunks| - 1]);
      var now := Split(before.remainder + chunks[|chunks| - 1]);
      Framing(before.frames + now.frames, now.remainder)
  }

  lemma {:induction false} FedIsSplit(chunks: seq<string>)
    ensures Fed(chunks) == Split(Joined(chunks))
  {
    if chunks == [] {
      assert Split("") == Framing([], "");
    } else {
      FedIsSplit(chunks[..|chunks| - 1]);
      SplitConcat(Joined(chunks[..|chunks| - 1]), chunks[|chunks| - 1]);
    }
  }
}
