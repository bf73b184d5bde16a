/** The pause detector: reads the timing lines of an SRT document and reports
    every gap of at least one second between consecutive cues. Times are
    integer milliseconds. */
module PauseDetector {
  import opened Wrappers
  import opened Text
  import opened JsNumber

  /** A gap this long or longer (in milliseconds) is a pause. */
  const PauseThresholdMs := 1000

  const Arrow := "-->"

  /** `timeToSeconds`, in milliseconds: `H:M:S,ms` split on ':' and then on ','.
      With fewer than three ':' fields the seconds field is undefined and
      splitting it throws; with no ',' the millisecond field is undefined and
      the sum is NaN. */
  function TimeToMs(time: string): (r: Result<Num, Thrown>)
    ensures r.Err? <==> |Split(time, ':')| < 3
  {
    var parts := Split(time, ':');
    if |parts| < 3 then Err(TypeError)
    else
      var secParts := Split(parts[2], ',');
      var ms := if |secParts| >= 2 then Number(secParts[1]) else NaN;
      Ok(Add(Add(Add(Scale(Number(parts[0]), 3600000),
                     Scale(Number(parts[1]), 60000)),
                 Scale(Number(secParts[0]), 1000)),
             ms))
  }

  lemma SplitPair(a: string, b: string, sep: char)
    requires sep !in a && sep !in b
    ensures Split(a + [sep] + b, sep) == [a, b]
  {
    SplitNone(b, sep);
    SplitCons(a, sep, b);
  }

  lemma SplitTriple(a: string, b: string, c: string, sep: char)
    requires sep !in a && sep !in b && sep !in c
    ensures Split(a + [sep] + b + [sep] + c, sep) == [a, b, c]
  {
    SplitPair(b, c, sep);
    assert a + [sep] + b + [sep] + c == a + [sep] + (b + [sep] + c);
    SplitCons(a, sep, b + [sep] + c);
  }

  lemma TimeToMsOfFields(t: string, h: string, m: string, sf: string, s: string, f: string)
    requires Split(t, ':') == [h, m, sf] && Split(sf, ',') == [s, f]
    ensures TimeToMs(t) == Ok(Add(Add(Add(Scale(Number(h), 3600000), Scale(Number(m), 60000)),
                                      Scale(Number(s), 1000)), Number(f)))
  {
  }

  /** The text of an `H:M:S,F` stamp. */
  function StampText(h: string, m: string, s: string, f: string): string {
    h + ":" + m + ":" + s + "," + f
  }

  lemma {:induction false} StampTextSplits(h: string, m: string, s: string, f: string)
    requires AllDigits(h) && AllDigits(m) && AllDigits(s) && AllDigits(f)
    ensures Split(StampText(h, m, s, f), ':') == [h, m, s + [','] + f]
    ensures Split(s + [','] + f, ',') == [s, f]
  {
    var sf := s + [','] + f;
    assert Split(sf, ',') == [s, f] by {
      assert ',' !in s && ',' !in f;
      SplitPair(s, f, ',');
    }
    assert ':' !in sf by {
      assert forall i :: 0 <= i < |sf| ==> sf[i] == ',' || IsDigit(sf[i]);
    }
    assert StampText(h, m, s, f) == h + [':'] + m + [':'] + sf;
    assert ':' !in h && ':' !in m;
    SplitTriple(h, m, sf, ':');
  }

  /** A well-formed `H:M:S,F` stamp with digit fields of any length reads as
      H hours + M minutes + S seconds + F milliseconds: the fraction is a count
      of milliseconds, not a decimal fraction, so "0:0:1,5" is 1005 ms. */
  lemma {:induction false} TimeToMsFields(h: string, m: string, s: string, f: string)
    requires AllDigits(h) && AllDigits(m) && AllDigits(s) && AllDigits(f)
    ensures TimeToMs(StampText(h, m, s, f)).Ok?
    ensures TimeToMs(StampText(h, m, s, f)).value.Finite?
    ensures TimeToMs(StampText(h, m, s, f)).value.value
         == DigitsValue(h) * 3600000 + DigitsValue(m) * 60000 + DigitsValue(s) * 1000 + DigitsValue(f)
  {
    var t := StampText(h, m, s, f);
    assert TimeToMs(t) == Ok(Add(Add(Add(Scale(Number(h), 3600000), Scale(Number(m), 60000)),
                                     Scale(Number(s), 1000)), Number(f))) by {
      StampTextSplits(h, m, s, f);
      TimeToMsOfFields(t, h, m, s + [','] + f, s, f);
    }
    NumberOfDigits(h);
    NumberOfDigits(m);
    NumberOfDigits(s);
    NumberOfDigits(f);
  }

  /** A stamp without a millisecond field parses, but to NaN. */
  lemma TimeToMsNoFraction(h: string, m: string, s: string)
    requires ':' !in h && ':' !in m && ':' !in s && ',' !in s
    ensures TimeToMs(h + ":" + m + ":" + s) == Ok(NaN)
  {
    SplitNone(s, ',');
    SplitTriple(h, m, s, ':');
    assert h + ":" + m + ":" + s == h + [':'] + m + [':'] + s;
  }

  /** One cue's timing line: the trimmed texts around the arrow and their values. */
  datatype Stamp = Stamp(start: string, end: string, startMs: Num, endMs: Num)

  /** The lines `detectPauses` looks at: those containing "-->", in order. */
  function TimingLines(lines: seq<string>): (r: seq<string>)
    ensures |r| <= |lines|
    ensures forall k :: 0 <= k < |r| ==> Contains(r[k], Arrow)
    ensures forall l :: l in r <==> l in lines && Contains(l, Arrow)
  {
    if |lines| == 0 then []
    else if Contains(lines[0], Arrow) then [lines[0]] + TimingLines(lines[1..])
    else TimingLines(lines[1..])
  }

  /** The kept lines are the input's arrow lines in their original order: each
      kept line sits at its own position of the input, the positions increase,
      and every arrow line's position is among them. */
  lemma {:induction false} TimingLinesPositions(lines: seq<string>) returns (pos: seq<nat>)
    ensures |pos| == |TimingLines(lines)|
    ensures forall k :: 0 <= k < |pos| ==> pos[k] < |lines| && lines[pos[k]] == TimingLines(lines)[k]
    ensures forall k, k' :: 0 <= k < k' < |pos| ==> pos[k] < pos[k']
    ensures forall i :: 0 <= i < |lines| && Contains(lines[i], Arrow) ==> i in pos
    decreases |lines|
  {
    if |lines| == 0 {
      pos := [];
    } else {
      var rest := TimingLinesPositions(lines[1..]);
      var t := TimingLines(lines);
      assert t == (if Contains(lines[0], Arrow) then [lines[0]] else []) + TimingLines(lines[1..]);
      pos := PositionsCons(lines, t, TimingLines(lines[1..]), rest, l => Contains(l, Arrow));
    }
  }

  /** The step of `TimingLinesPositions`, for any filter `keep`: the positions
      of the kept lines of the tail, moved one place on, with position 0 in
      front when the head is kept. */
  lemma PositionsCons<T>(lines: seq<T>, kept: seq<T>, keptTail: seq<T>, rest: seq<nat>, keep: T -> bool)
    returns (pos: seq<nat>)
    requires |lines| > 0
    requires kept == (if keep(lines[0]) then [lines[0]] else []) + keptTail
    requires |rest| == |keptTail|
    requires forall k :: 0 <= k < |rest| ==> rest[k] < |lines| - 1 && lines[1..][rest[k]] == keptTail[k]
    requires forall k, k' :: 0 <= k < k' < |rest| ==> rest[k] < rest[k']
    requires forall i :: 0 <= i < |lines| - 1 && keep(lines[1..][i]) ==> i in rest
    ensures |pos| == |kept|
    ensures forall k :: 0 <= k < |pos| ==> pos[k] < |lines| && lines[pos[k]] == kept[k]
    ensures forall k, k' :: 0 <= k < k' < |pos| ==> pos[k] < pos[k']
    ensures forall i :: 0 <= i < |lines| && keep(lines[i]) ==> i in pos
  {
    var shifted := Shifted(rest);
    pos := (if keep(lines[0]) then [0] else []) + shifted;
    var d := if keep(lines[0]) then 1 else 0;
    forall k | d <= k < |pos|
      ensures pos[k] == shifted[k - d] && kept[k] == keptTail[k - d]
    {
    }
    forall i | 1 <= i < |lines| && keep(lines[i])
      ensures i in pos
    {
      assert lines[1..][i - 1] == lines[i];
      ShiftedHas(rest, i - 1);
    }
  }

  /** Every position moved one place on. */
  function Shifted(ps: seq<nat>): (r: seq<nat>)
    ensures |r| == |ps|
    ensures forall k :: 0 <= k < |ps| ==> r[k] == ps[k] + 1
  {
    seq(|ps|, k requires 0 <= k < |ps| => ps[k] + 1)
  }

  lemma ShiftedHas(ps: seq<nat>, p: nat)
    requires p in ps
    ensures p + 1 in Shifted(ps)
  {
    var k :| 0 <= k < |ps| && ps[k] == p;
    assert Shifted(ps)[k] == p + 1;
  }

  lemma {:induction false} TimingLinesAppend(a: seq<string>, b: seq<string>)
    ensures TimingLines(a + b) == TimingLines(a) + TimingLines(b)
    decreases |a|
  {
    if |a| > 0 {
      assert (a + b)[1..] == a[1..] + b;
      TimingLinesAppend(a[1..], b);
    } else {
      assert a + b == b;
    }
  }

  /** Parses one line as `detectPauses` does once it has seen "-->" in it:
      split on the arrow, trim both sides, read both times. A line without an
      arrow has no end field, and reading it throws. */
  function ParseTimingLine(line: string): (r: Result<Stamp, Thrown>)
    ensures !Contains(line, Arrow) ==> r == Err(TypeError)
    ensures Contains(line, Arrow) ==>
      var k := Find(line, Arrow).value;
      var start, end := Trim(line[..k]), Trim(Before(line[k + |Arrow|..], Arrow));
      (r.Ok? <==> TimeToMs(start).Ok? && TimeToMs(end).Ok?) &&
      (r.Ok? ==> r.value.start == start && r.value.end == end &&
                 TimeToMs(start) == Ok(r.value.startMs) && TimeToMs(end) == Ok(r.value.endMs))
    ensures r.Ok? ==> NoEdgeSpace(r.value.start) && NoEdgeSpace(r.value.end)
    ensures r.Ok? ==> !Contains(r.value.start, Arrow) && !Contains(r.value.end, Arrow)
  {
    var parts := SplitOn(line, Arrow);
    SplitOnHead(line, Arrow);
    var start := Trim(parts[0]);
    TrimNotContains(parts[0]);
    if |parts| < 2 then Err(TypeError)
    else
      var end := Trim(parts[1]);
      TrimNotContains(parts[1]);
      match (TimeToMs(start), TimeToMs(end))
      case (Ok(s), Ok(e)) => Ok(Stamp(start, end, s, e))
      case (Err(x), _) => Err(x)
      case (_, Err(x)) => Err(x)
  }

  lemma TrimNotContains(s: string)
    requires !Contains(s, Arrow)
    ensures !Contains(Trim(s), Arrow)
  {
    var t := Trim(s);
    var a := LeadSpaceCount(s);
    if Contains(t, Arrow) {
      var i :| 0 <= i <= |t| - |Arrow| && OccursAt(t, Arrow, i);
      assert s[a + i..a + i + |Arrow|] == t[i..i + |Arrow|];
      assert OccursAt(s, Arrow, a + i);
    }
  }

  /** The timestamps `detectPauses` collects from the lines of a document. */
  function CollectStamps(lines: seq<string>): Result<seq<Stamp>, Thrown> {
    MapAll(ParseTimingLine, TimingLines(lines))
  }

  /** The gap between cue `a`'s end and cue `b`'s start is a pause: both times
      are numbers (a comparison with NaN is false) and it is at least a second. */
  predicate IsPause(a: Stamp, b: Stamp) {
    a.endMs.Finite? && b.startMs.Finite? && b.startMs.value - a.endMs.value >= PauseThresholdMs
  }

  /** One reported pause. `segmentAfter` is the index of the cue that follows it. */
  datatype Pause = Pause(segmentAfter: nat, durationMs: int, gapStart: string, gapEnd: string)

  /** The pause record for the gap between cue `i` and cue `i + 1`. */
  function PauseAt(st: seq<Stamp>, i: nat): (p: Pause)
    requires i + 1 < |st| && IsPause(st[i], st[i + 1])
    ensures p.segmentAfter == i + 1 && p.durationMs >= PauseThresholdMs
    ensures p.gapStart == st[i].end && p.gapEnd == st[i + 1].start
  {
    Pause(i + 1, st[i + 1].startMs.value - st[i].endMs.value, st[i].end, st[i + 1].start)
  }

  /** Some pause in `ps` is reported after cue `j`. */
  predicate Reports(ps: seq<Pause>, j: nat) {
    exists k :: 0 <= k < |ps| && ps[k].segmentAfter == j
  }

  /** The pauses among cues `i, i + 1, …`, scanning left to right. Every
      reported pause is a real one, with the record `PauseAt` builds for it. */
  function PausesFrom(st: seq<Stamp>, i: nat): (r: seq<Pause>)
    requires i <= |st|
    ensures forall k :: 0 <= k < |r| ==>
      i + 1 <= r[k].segmentAfter < |st| &&
      IsPause(st[r[k].segmentAfter - 1], st[r[k].segmentAfter]) &&
      r[k] == PauseAt(st, r[k].segmentAfter - 1)
    decreases |st| - i
  {
    if i + 1 >= |st| then []
    else if IsPause(st[i], st[i + 1]) then
      var rest := PausesFrom(st, i + 1);
      var r := [PauseAt(st, i)] + rest;
      assert forall k :: 0 < k < |r| ==> r[k] == rest[k - 1];
      r
    else PausesFrom(st, i + 1)
  }

  /** Pauses come out in cue order, each gap at most once. */
  lemma {:induction false} PausesFromOrdered(st: seq<Stamp>, i: nat)
    requires i <= |st|
    ensures forall k, l :: 0 <= k < l < |PausesFrom(st, i)| ==>
      PausesFrom(st, i)[k].segmentAfter < PausesFrom(st, i)[l].segmentAfter
    decreases |st| - i
  {
    if i + 1 < |st| {
      PausesFromOrdered(st, i + 1);
      if IsPause(st[i], st[i + 1]) {
        var rest := PausesFrom(st, i + 1);
        var r := PausesFrom(st, i);
        assert r == [PauseAt(st, i)] + rest;
        assert forall k :: 0 < k < |r| ==> r[k] == rest[k - 1];
      }
    }
  }

  /** Every gap of a second or more from cue `i` on is reported. */
  lemma {:induction false} PausesFromComplete(st: seq<Stamp>, i: nat, j: nat)
    requires i <= j && j + 1 < |st| && IsPause(st[j], st[j + 1])
    ensures Reports(PausesFrom(st, i), j + 1)
    decreases j - i
  {
    var r := PausesFrom(st, i);
    if IsPause(st[i], st[i + 1]) {
      var rest := PausesFrom(st, i + 1);
      assert r == [PauseAt(st, i)] + rest;
      if j == i {
        assert r[0].segmentAfter == j + 1;
      } else {
        PausesFromComplete(st, i + 1, j);
        var k :| 0 <= k < |rest| && rest[k].segmentAfter == j + 1;
        assert r[k + 1] == rest[k];
      }
    } else {
      assert j != i;
      PausesFromComplete(st, i + 1, j);
    }
  }

  /** The value `detectPauses` returns. */
  datatype PauseData = PauseData(totalPauses: nat, pauses: seq<Pause>)

  /** `detectPauses(srtContent)`. */
  function DetectPauses(srt: string): (r: Result<PauseData, Thrown>)
    ensures r.Ok? ==> r.value.totalPauses == |r.value.pauses|
    ensures r.Ok? ==> forall k :: 0 <= k < |r.value.pauses| ==>
      r.value.pauses[k].durationMs >= PauseThresholdMs
    ensures r.Err? <==> CollectStamps(Split(srt, '\n')).Err?
  {
    match CollectStamps(Split(srt, '\n'))
    case Err(x) => Err(x)
    case Ok(stamps) =>
      var ps := PausesFrom(stamps, 0);
      Ok(PauseData(|ps|, ps))
  }

  /** A pause is reported after cue `j` exactly when the gap from cue `j - 1`'s
      end to cue `j`'s start is at least a second; its record names those two
      timestamps and the gap between them. */
  lemma PauseIff(st: seq<Stamp>, j: nat)
    ensures Reports(PausesFrom(st, 0), j) <==> 1 <= j < |st| && IsPause(st[j - 1], st[j])
    ensures forall k :: 0 <= k < |PausesFrom(st, 0)| && PausesFrom(st, 0)[k].segmentAfter == j ==>
      PausesFrom(st, 0)[k] == Pause(j, st[j].startMs.value - st[j - 1].endMs.value, st[j - 1].end, st[j].start)
  {
    if 1 <= j < |st| && IsPause(st[j - 1], st[j]) {
      PausesFromComplete(st, 0, j - 1);
    }
  }

  /** An SRT document with no timing lines has no pauses and never throws. */
  lemma NoTimingLines(srt: string)
    requires |TimingLines(Split(srt, '\n'))| == 0
    ensures DetectPauses(srt) == Ok(PauseData(0, []))
  {
  }

  /** With fewer than two cues there is no gap to measure: if the document
      parses at all, it reports no pauses. */
  lemma FewerThanTwoCues(srt: string)
    requires |TimingLines(Split(srt, '\n'))| < 2
    ensures DetectPauses(srt).Ok? ==> DetectPauses(srt).value == PauseData(0, [])
  {
  }

  /** A cue whose start time is NaN (no millisecond field) never ends a pause,
      however long the gap before it looks. */
  lemma NaNNeverPauses(st: seq<Stamp>, j: nat)
    requires 1 <= j < |st| && (st[j].startMs.NaN? || st[j - 1].endMs.NaN?)
    ensures !Reports(PausesFrom(st, 0), j)
  {
  }
}
