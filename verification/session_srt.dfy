/** The SRT text the session controller builds from the transcriber's segments
    before running the pause detector on it, and the `format` helper that
    renders a segment time as an SRT clock stamp. */
module SessionSrt {
  import opened Wrappers
  import opened Text
  import opened JsNumber
  import opened PauseDetector

  const DayMs := 86400000

  /** The instants `toISOString` renders with a four-digit year (0000-9999). */
  const IsoMinMs := -62167219200000
  const IsoMaxMs := 253402300800000

  /** A transcription segment: start and end in seconds, and its text. */
  datatype Segment = Segment(start: real, end: real, text: string)

  /** `new Date(sec * 1000)` keeps the integer part of the millisecond count. */
  function TruncMs(sec: real): int {
    var x := sec * 1000.0;
    if x >= 0.0 then x.Floor else -((-x).Floor)
  }

  /** Truncation toward zero: the millisecond count is within one of the exact
      product and never further from zero. */
  lemma TruncMsBounds(sec: real)
    ensures sec >= 0.0 ==> 0 <= TruncMs(sec) && TruncMs(sec) as real <= sec * 1000.0 < TruncMs(sec) as real + 1.0
    ensures sec <= 0.0 ==> TruncMs(sec) <= 0 && TruncMs(sec) as real - 1.0 < sec * 1000.0 <= TruncMs(sec) as real
  {
  }

  predicate InIsoRange(ms: int) {
    IsoMinMs <= ms < IsoMaxMs
  }

  /** A segment whose times `format` can render. */
  predicate Renderable(seg: Segment) {
    InIsoRange(TruncMs(seg.start)) && InIsoRange(TruncMs(seg.end))
  }

  /** The UTC time of day of an instant, in milliseconds. */
  function ClockMs(ms: int): (c: int)
    ensures 0 <= c < DayMs
  {
    ms % DayMs
  }

  /** `format` on a millisecond instant: characters 11-22 of the ISO-8601 form,
      "HH:mm:ss.sss", with the '.' replaced by ','. */
  function FormatMs(ms: int): (r: string)
    requires InIsoRange(ms)
    ensures |r| == 12 && HasNoSpace(r) && '-' !in r && '\n' !in r
  {
    var c := ClockMs(ms);
    StampText(Pad2(c / 3600000), Pad2(c / 60000 % 60), Pad2(c / 1000 % 60), Pad3(c % 1000))
  }

  /** `format(sec)`. */
  function Format(sec: real): string
    requires InIsoRange(TruncMs(sec))
  {
    FormatMs(TruncMs(sec))
  }

  /** The pause detector reads a formatted stamp back as the time of day it
      was rendered from. */
  lemma FormatRoundTrip(ms: int)
    requires InIsoRange(ms)
    ensures TimeToMs(FormatMs(ms)).Ok?
    ensures TimeToMs(FormatMs(ms)).value == Finite(ClockMs(ms))
  {
    var c := ClockMs(ms);
    var h, m, s, f := c / 3600000, c / 60000 % 60, c / 1000 % 60, c % 1000;
    ClockFields(c);
    assert FormatMs(ms) == StampText(Pad2(h), Pad2(m), Pad2(s), Pad3(f));
    TimeToMsFields(Pad2(h), Pad2(m), Pad2(s), Pad3(f));
  }

  /** Hours, minutes, seconds and milliseconds of a time of day add back up to it. */
  lemma ClockFields(c: int)
    requires 0 <= c < DayMs
    ensures c / 3600000 < 24
    ensures (c / 3600000) * 3600000 + (c / 60000 % 60) * 60000 + (c / 1000 % 60) * 1000 + c % 1000 == c
  {
    var q := c / 1000;
    assert c == q * 1000 + c % 1000;
    var mm := q / 60;
    assert q == mm * 60 + q % 60;
    assert mm == c / 60000;
    var hh := mm / 60;
    assert mm == hh * 60 + mm % 60;
    assert hh == c / 3600000;
  }

  /** The timing line of a cue: "HH:mm:ss,sss --> HH:mm:ss,sss". */
  function CueTiming(seg: Segment): string
    requires Renderable(seg)
  {
    Format(seg.start) + " " + Arrow + " " + Format(seg.end)
  }

  /** One SRT cue: its 1-based number, its timing line and its text. */
  function CueBlock(i: nat, seg: Segment): string
    requires Renderable(seg)
  {
    NatToString(i + 1) + "\n" + CueTiming(seg) + "\n" + seg.text
  }

  /** The cues of the first `n` segments: cue k is numbered k + 1. */
  function Cues(segs: seq<Segment>, n: nat): (r: seq<string>)
    requires n <= |segs|
    requires forall k :: 0 <= k < |segs| ==> Renderable(segs[k])
    ensures |r| == n
    ensures forall k {:trigger r[k]} :: 0 <= k < n ==> r[k] == CueBlock(k, segs[k])
  {
    if n == 0 then [] else Cues(segs, n - 1) + [CueBlock(n - 1, segs[n - 1])]
  }

  /** The SRT document: the cues separated by blank lines. */
  function SrtOf(segs: seq<Segment>): string
    requires forall k :: 0 <= k < |segs| ==> Renderable(segs[k])
  {
    Join(Cues(segs, |segs|), "\n\n")
  }

  /** No line of a segment's text looks like a timing line. */
  predicate PlainText(seg: Segment) {
    TimingLines(Split(seg.text, '\n')) == []
  }

  /** The stamp the pause detector should read from a segment's timing line. */
  function StampOf(seg: Segment): Stamp
    requires Renderable(seg)
  {
    Stamp(Format(seg.start), Format(seg.end),
          Finite(ClockMs(TruncMs(seg.start))), Finite(ClockMs(TruncMs(seg.end))))
  }

  // ---------------------------------------------------------------------------
  // Reading the generated document back
  // ---------------------------------------------------------------------------

  lemma {:induction false} FindFromAt(s: string, pat: string, j: nat, k: nat)
    requires j <= k && OccursAt(s, pat, k)
    requires forall i :: j <= i < k ==> !OccursAt(s, pat, i)
    ensures FindFrom(s, pat, j) == Some(k)
    decreases k - j
  {
    if j < k {
      FindFromAt(s, pat, j + 1, k);
    }
  }

  /** The arrow splits a line whose sides contain no '-' into exactly those sides. */
  lemma SplitOnArrow(a: string, b: string)
    requires '-' !in a && '-' !in b
    ensures SplitOn(a + Arrow + b, Arrow) == [a, b]
  {
    var s := a + Arrow + b;
    assert OccursAt(s, Arrow, |a|) by {
      assert s[|a|..|a| + 3] == Arrow;
    }
    forall i | 0 <= i < |a|
      ensures !OccursAt(s, Arrow, i)
    {
      assert s[i] == a[i];
      if OccursAt(s, Arrow, i) {
        OccursAtHead(s, Arrow, i);
      }
    }
    FindFromAt(s, Arrow, 0, |a|);
    assert s[..|a|] == a;
    assert s[|a| + 3..] == b;
    NotContainsHead(b, Arrow);
  }

  /** The pause detector parses a generated timing line into the segment's
      clock times. */
  lemma ParseCueTiming(seg: Segment)
    requires Renderable(seg)
    ensures ParseTimingLine(CueTiming(seg)) == Ok(StampOf(seg))
  {
    var f1, f2 := Format(seg.start), Format(seg.end);
    assert CueTiming(seg) == (f1 + " ") + Arrow + (" " + f2);
    SplitOnArrow(f1 + " ", " " + f2);
    TrimPadded("", f1, " ");
    assert "" + f1 + " " == f1 + " ";
    TrimPadded(" ", f2, "");
    assert " " + f2 + "" == " " + f2;
    FormatRoundTrip(TruncMs(seg.start));
    FormatRoundTrip(TruncMs(seg.end));
  }

  /** A timing line: a line with the arrow and no line break. */
  lemma CueTimingShape(seg: Segment)
    requires Renderable(seg)
    ensures '\n' !in CueTiming(seg) && Contains(CueTiming(seg), Arrow)
  {
    assert OccursAt(CueTiming(seg), Arrow, 13);
  }

  /** A cue number is never a timing line. */
  lemma CueNumberShape(i: nat)
    ensures '\n' !in NatToString(i) && !Contains(NatToString(i), Arrow)
  {
    var n := NatToString(i);
    DigitsHaveNoSpace(n);
    assert '-' !in n by {
      forall j | 0 <= j < |n|
        ensures n[j] != '-'
      {
        assert IsDigit(n[j]);
      }
    }
    NotContainsHead(n, Arrow);
  }

  /** The timing lines of "n\nt\ntext" when only `t` is one. */
  lemma ThreePartLines(n: string, t: string, text: string)
    requires '\n' !in n && '\n' !in t && !Contains(n, Arrow) && Contains(t, Arrow)
    requires TimingLines(Split(text, '\n')) == []
    ensures TimingLines(Split(n + "\n" + t + "\n" + text, '\n')) == [t]
  {
    assert n + "\n" + t + "\n" + text == n + ['\n'] + (t + ['\n'] + text);
    SplitCons(n, '\n', t + ['\n'] + text);
    SplitCons(t, '\n', text);
    assert Split(n + "\n" + t + "\n" + text, '\n') == [n, t] + Split(text, '\n');
    TimingLinesAppend([n, t], Split(text, '\n'));
    assert TimingLines([n, t]) == [t] by {
      assert [n, t][1..] == [t];
      assert [t][1..] == [];
    }
  }

  /** The lines of a cue: its number, its timing line, then its text's lines. */
  lemma CueLines(i: nat, seg: Segment)
    requires Renderable(seg) && PlainText(seg)
    ensures TimingLines(Split(CueBlock(i, seg), '\n')) == [CueTiming(seg)]
  {
    CueTimingShape(seg);
    CueNumberShape(i + 1);
    ThreePartLines(NatToString(i + 1), CueTiming(seg), seg.text);
  }

  /** Timing lines of all cues, in order. */
  function CueTimings(segs: seq<Segment>): (r: seq<string>)
    requires forall k :: 0 <= k < |segs| ==> Renderable(segs[k])
    ensures |r| == |segs|
    ensures forall k {:trigger r[k]} :: 0 <= k < |segs| ==> r[k] == CueTiming(segs[k])
  {
    if |segs| == 0 then [] else [CueTiming(segs[0])] + CueTimings(segs[1..])
  }

  /** Each cue's only timing line is its segment's, so joining the cues with
      blank lines keeps exactly those timing lines. */
  lemma CuesTimingLines(segs: seq<Segment>, bs: seq<string>, ts: seq<string>)
    requires forall k :: 0 <= k < |segs| ==> Renderable(segs[k]) && PlainText(segs[k])
    requires bs == Cues(segs, |segs|) && ts == CueTimings(segs)
    ensures TimingLines(Split(Join(bs, "\n\n"), '\n')) == ts
  {
    forall k | 0 <= k < |bs|
      ensures TimingLines(Split(bs[k], '\n')) == [ts[k]]
    {
      CueLines(k, segs[k]);
    }
    BlankLineJoin(bs, ts);
  }

  /** Blank lines between cues are never timing lines, so the timing lines of
      the document are those of its cues, in order. */
  lemma SrtTimingLines(segs: seq<Segment>)
    requires forall k :: 0 <= k < |segs| ==> Renderable(segs[k]) && PlainText(segs[k])
    ensures TimingLines(Split(SrtOf(segs), '\n')) == CueTimings(segs)
  {
    CuesTimingLines(segs, Cues(segs, |segs|), CueTimings(segs));
  }

  /** Blocks joined by blank lines: the timing lines are those of the blocks. */
  lemma {:induction false} BlankLineJoin(bs: seq<string>, ts: seq<string>)
    requires |bs| == |ts|
    requires forall k :: 0 <= k < |bs| ==> TimingLines(Split(bs[k], '\n')) == [ts[k]]
    ensures TimingLines(Split(Join(bs, "\n\n"), '\n')) == ts
    decreases |bs|
  {
    if |bs| == 0 {
      assert TimingLines([""]) == [] by {
        assert !Contains("", Arrow);
      }
    } else if |bs| == 1 {
      assert [ts[0]] == ts;
    } else {
      assert TimingLines(Split(Join(bs[1..], "\n\n"), '\n')) == ts[1..] by {
        assert forall k :: 0 <= k < |bs| - 1 ==> bs[1..][k] == bs[k + 1] && ts[1..][k] == ts[k + 1];
        BlankLineJoin(bs[1..], ts[1..]);
      }
      BlankLineStep(bs[0], Join(bs[1..], "\n\n"), ts[0], ts[1..]);
      assert ts == [ts[0]] + ts[1..];
    }
  }

  /** One block, a blank line, then the rest of the document. */
  lemma BlankLineStep(b: string, j: string, t: string, rest: seq<string>)
    requires TimingLines(Split(b, '\n')) == [t]
    requires TimingLines(Split(j, '\n')) == rest
    ensures TimingLines(Split(b + "\n\n" + j, '\n')) == [t] + rest
  {
    assert Split(b + "\n\n" + j, '\n') == Split(b, '\n') + ([""] + Split(j, '\n')) by {
      assert b + "\n\n" + j == b + ['\n'] + ("" + ['\n'] + j);
      SplitAppend(b, '\n', "" + ['\n'] + j);
      SplitCons("", '\n', j);
    }
    assert TimingLines([""]) == [] by {
      assert !Contains("", Arrow);
    }
    TimingLinesAppend(Split(b, '\n'), [""] + Split(j, '\n'));
    TimingLinesAppend([""], Split(j, '\n'));
  }

  /** The stamps of all segments, in order. */
  function StampsOf(segs: seq<Segment>): (r: seq<Stamp>)
    requires forall k :: 0 <= k < |segs| ==> Renderable(segs[k])
    ensures |r| == |segs|
    ensures forall k {:trigger r[k]} :: 0 <= k < |segs| ==> r[k] == StampOf(segs[k])
  {
    if |segs| == 0 then [] else [StampOf(segs[0])] + StampsOf(segs[1..])
  }

  /** Running the pause detector on the generated document never throws and
      reads back, cue by cue, the clock times of the segments. */
  lemma SrtStamps(segs: seq<Segment>)
    requires forall k :: 0 <= k < |segs| ==> Renderable(segs[k]) && PlainText(segs[k])
    ensures CollectStamps(Split(SrtOf(segs), '\n')) == Ok(StampsOf(segs))
  {
    SrtTimingLines(segs);
    var tl, st := CueTimings(segs), StampsOf(segs);
    forall k | 0 <= k < |tl|
      ensures ParseTimingLine(tl[k]) == Ok(st[k])
    {
      ParseCueTiming(segs[k]);
    }
    MapAllOk(ParseTimingLine, tl, st);
  }

  /** Two segments' stamps make a pause exactly when the second starts at
      least a second (of clock time) after the first ends. */
  lemma StampPause(a: Segment, b: Segment)
    requires Renderable(a) && Renderable(b)
    ensures IsPause(StampOf(a), StampOf(b)) <==>
      ClockMs(TruncMs(b.start)) - ClockMs(TruncMs(a.end)) >= PauseThresholdMs
  {
  }

  /** The pauses among the segments' stamps, segment by segment. */
  lemma StampsPauses(segs: seq<Segment>, j: nat)
    requires forall k :: 0 <= k < |segs| ==> Renderable(segs[k])
    ensures Reports(PausesFrom(StampsOf(segs), 0), j) <==>
      1 <= j < |segs| &&
      ClockMs(TruncMs(segs[j].start)) - ClockMs(TruncMs(segs[j - 1].end)) >= PauseThresholdMs
  {
    var st := StampsOf(segs);
    PauseIff(st, j);
    if 1 <= j < |segs| {
      StampPause(segs[j - 1], segs[j]);
    }
  }

  /** End to end: on the SRT it builds, the controller's pause detection
      reports a pause before segment `j` exactly when segment `j` starts at
      least a second (of clock time) after segment `j - 1` ends. */
  lemma GeneratedSrtPauses(segs: seq<Segment>, j: nat)
    requires forall k :: 0 <= k < |segs| ==> Renderable(segs[k]) && PlainText(segs[k])
    ensures DetectPauses(SrtOf(segs)).Ok?
    ensures Reports(DetectPauses(SrtOf(segs)).value.pauses, j) <==>
      1 <= j < |segs| &&
      ClockMs(TruncMs(segs[j].start)) - ClockMs(TruncMs(segs[j - 1].end)) >= PauseThresholdMs
  {
    var ps := PausesFrom(StampsOf(segs), 0);
    assert DetectPauses(SrtOf(segs)) == Ok(PauseData(|ps|, ps)) by {
      SrtStamps(segs);
    }
    StampsPauses(segs, j);
  }
}
