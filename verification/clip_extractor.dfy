/** The evidence clip extractor: turns the evaluator's evidence list (an issue,
    a "start --> end" timestamp and a reason per item) into one video clip per
    item, cut by an external transcoder. Items whose timestamp cannot be read or
    whose clip fails are dropped; the others keep their order. Times are integer
    milliseconds. */
module ClipExtractor {
  import opened Wrappers
  import opened Text
  import opened JsNumber
  import PauseDetector

  const Arrow := "-->"

  // ---------------------------------------------------------------------------
  // Timestamps
  // ---------------------------------------------------------------------------

  /** `s.replace(a, b)` with a one-character pattern: only the first
      occurrence is replaced. */
  function ReplaceFirst(s: string, a: char, b: char): (r: string)
    ensures |r| == |s|
    ensures forall i :: 0 <= i < |s| ==> r[i] == (if s[i] == a && a !in s[..i] then b else s[i])
  {
    if |s| == 0 then ""
    else if s[0] == a then
      var r := [b] + s[1..];
      assert forall i :: 0 < i < |s| ==> a in s[..i] by {
        forall i | 0 < i < |s| ensures a in s[..i] {
          assert s[..i][0] == a;
        }
      }
      assert s[..0] == "";
      r
    else
      var rest := ReplaceFirst(s[1..], a, b);
      var r := [s[0]] + rest;
      assert forall i :: 0 < i < |s| ==> s[..i] == [s[0]] + s[1..][..i - 1];
      assert s[..0] == "";
      r
  }

  /** `formatTimestamp`: the trimmed stamp with its first ',' turned into '.',
      the form the transcoder's seek option expects. */
  function FormatTimestamp(t: string): (r: string)
    ensures |r| == |Trim(t)|
    ensures ',' !in Trim(t) ==> r == Trim(t)
  {
    ReplaceFirst(Trim(t), ',', '.')
  }

  /** A well-formed `H:M:S,F` stamp is rewritten to `H:M:S.F`. */
  lemma FormatStamp(h: string, m: string, s: string, f: string)
    requires AllDigits(h) && AllDigits(m) && AllDigits(s) && AllDigits(f)
    ensures FormatTimestamp(PauseDetector.StampText(h, m, s, f)) == h + ":" + m + ":" + s + "." + f
  {
    var t := PauseDetector.StampText(h, m, s, f);
    var pre := h + ":" + m + ":" + s;
    assert t == pre + [','] + f;
    assert HasNoSpace(t) by {
      assert forall i :: 0 <= i < |t| ==> t[i] == ':' || t[i] == ',' || IsDigit(t[i]);
    }
    TrimNoSpace(t);
    assert ',' !in pre by {
      assert forall i :: 0 <= i < |pre| ==> pre[i] == ':' || IsDigit(pre[i]);
    }
    ReplaceFirstAfter(pre, ',', '.', f);
  }

  lemma ReplaceFirstAfter(pre: string, a: char, b: char, post: string)
    requires a !in pre
    ensures ReplaceFirst(pre + [a] + post, a, b) == pre + [b] + post
  {
    var s := pre + [a] + post;
    var r := ReplaceFirst(s, a, b);
    forall i | 0 <= i < |s|
      ensures r[i] == (pre + [b] + post)[i]
    {
      if i < |pre| {
        assert s[i] == pre[i];
      } else if i > |pre| {
        assert s[..i][|pre|] == a;
      } else {
        assert s[..i] == pre;
      }
    }
  }

  /** `timeToSeconds` of the clip extractor, in milliseconds. Unlike the pause
      detector's parser it yields 0 unless there are exactly three ':' fields,
      and a missing millisecond field counts as 0 rather than NaN. */
  function ClipTimeToMs(time: string): (r: Num)
    ensures |Split(time, ':')| != 3 ==> r == Finite(0)
  {
    var parts := Split(time, ':');
    if |parts| != 3 then Finite(0)
    else
      var secParts := Split(parts[2], ',');
      var ms := if |secParts| >= 2 then Number(secParts[1]) else Finite(0);
      Add(Add(Add(Scale(Number(parts[0]), 3600000),
                  Scale(Number(parts[1]), 60000)),
              Scale(Number(secParts[0]), 1000)),
          ms)
  }

  /** On a stamp with three ':' fields and a millisecond field the two parsers
      agree. */
  lemma ClipTimeAgrees(t: string)
    requires |Split(t, ':')| == 3 && |Split(Split(t, ':')[2], ',')| >= 2
    ensures PauseDetector.TimeToMs(t) == Ok(ClipTimeToMs(t))
  {
  }

  /** A well-formed `H:M:S,F` stamp reads as H hours + M minutes + S seconds +
      F milliseconds. */
  lemma ClipTimeFields(h: string, m: string, s: string, f: string)
    requires AllDigits(h) && AllDigits(m) && AllDigits(s) && AllDigits(f)
    ensures ClipTimeToMs(PauseDetector.StampText(h, m, s, f))
         == Finite(DigitsValue(h) * 3600000 + DigitsValue(m) * 60000 + DigitsValue(s) * 1000 + DigitsValue(f))
  {
    var t := PauseDetector.StampText(h, m, s, f);
    PauseDetector.StampTextSplits(h, m, s, f);
    ClipTimeAgrees(t);
    PauseDetector.TimeToMsFields(h, m, s, f);
  }

  lemma ClipTimeOfFields(t: string, h: string, m: string, sf: string)
    requires Split(t, ':') == [h, m, sf] && Split(sf, ',') == [sf]
    ensures ClipTimeToMs(t) == Add(Add(Add(Scale(Number(h), 3600000), Scale(Number(m), 60000)),
                                       Scale(Number(sf), 1000)), Finite(0))
  {
  }

  /** A stamp without a millisecond field counts that field as 0. */
  lemma ClipTimeNoFraction(h: string, m: string, s: string)
    requires AllDigits(h) && AllDigits(m) && AllDigits(s)
    ensures ClipTimeToMs(h + ":" + m + ":" + s)
         == Finite(DigitsValue(h) * 3600000 + DigitsValue(m) * 60000 + DigitsValue(s) * 1000)
  {
    WholeSecondsSplit(h, m, s);
    ClipTimeOfFields(h + ":" + m + ":" + s, h, m, s);
    NumberOfDigits(h);
    NumberOfDigits(m);
    NumberOfDigits(s);
    ClockSum(DigitsValue(h), DigitsValue(m), DigitsValue(s));
  }

  /** Hours, minutes and seconds summed in milliseconds. */
  lemma ClockSum(h: int, m: int, s: int)
    ensures Add(Add(Add(Scale(Finite(h), 3600000), Scale(Finite(m), 60000)), Scale(Finite(s), 1000)), Finite(0))
         == Finite(h * 3600000 + m * 60000 + s * 1000)
  {
  }

  /** How a stamp without a millisecond field splits. */
  lemma WholeSecondsSplit(h: string, m: string, s: string)
    requires AllDigits(h) && AllDigits(m) && AllDigits(s)
    ensures Split(h + ":" + m + ":" + s, ':') == [h, m, s]
    ensures Split(s, ',') == [s]
  {
    assert ':' !in h && ':' !in m && ':' !in s && ',' !in s;
    PauseDetector.SplitTriple(h, m, s, ':');
    assert h + ":" + m + ":" + s == h + [':'] + m + [':'] + s;
    SplitNone(s, ',');
  }

  /** A stamp without a millisecond field is a whole number of seconds here,
      where the pause detector reads NaN. */
  lemma ClipTimeWholeSeconds(h: string, m: string, s: string)
    requires AllDigits(h) && AllDigits(m) && AllDigits(s)
    ensures ClipTimeToMs(h + ":" + m + ":" + s)
         == Finite(DigitsValue(h) * 3600000 + DigitsValue(m) * 60000 + DigitsValue(s) * 1000)
    ensures PauseDetector.TimeToMs(h + ":" + m + ":" + s) == Ok(NaN)
  {
    ClipTimeNoFraction(h, m, s);
    assert ':' !in h && ':' !in m && ':' !in s && ',' !in s;
    PauseDetector.TimeToMsNoFraction(h, m, s);
  }

  // ---------------------------------------------------------------------------
  // The duration option
  // ---------------------------------------------------------------------------

  /** `durationSec.toFixed(3)` for a duration of `d` milliseconds. */
  function Fixed3(d: Num): (r: string)
    ensures r == "NaN" <==> d.NaN?
  {
    match d
    case NaN => "NaN"
    case Finite(v) =>
      var a := if v < 0 then -v else v;
      var body := NatToString(a / 1000) + "." + Pad3(a % 1000);
      assert body[0] != 'N';
      if v < 0 then "-" + body else body
  }

  /** Reads a `toFixed(3)` rendering back into milliseconds. */
  function ReadFixed3(s: string): Option<Num> {
    if s == "NaN" then Some(NaN)
    else
      var parts := Split(s, '.');
      if |parts| != 2 || |parts[1]| != 3 || !AllDigits(parts[1]) then None
      else
        var neg := |parts[0]| > 0 && parts[0][0] == '-';
        var whole := if neg then parts[0][1..] else parts[0];
        if |whole| == 0 || !AllDigits(whole) then None
        else
          var a := DigitsValue(whole) * 1000 + DigitsValue(parts[1]);
          Some(Finite(if neg then -a else a))
  }

  /** A rendering without a sign reads back as the same count. */
  lemma ReadUnsigned(a: nat)
    ensures ReadFixed3(NatToString(a / 1000) + "." + Pad3(a % 1000)) == Some(Finite(a))
  {
    var w, p := NatToString(a / 1000), Pad3(a % 1000);
    assert '.' !in w && '.' !in p;
    assert w + "." + p == w + ['.'] + p;
    PauseDetector.SplitPair(w, p, '.');
    assert w[0] != '-';
  }

  /** A rendering with a leading '-' reads back negated. */
  lemma ReadNegative(a: nat)
    ensures ReadFixed3("-" + (NatToString(a / 1000) + "." + Pad3(a % 1000))) == Some(Finite(-(a as int)))
  {
    var w, p := NatToString(a / 1000), Pad3(a % 1000);
    assert '.' !in "-" + w && '.' !in p;
    assert "-" + (w + "." + p) == ("-" + w) + ['.'] + p;
    PauseDetector.SplitPair("-" + w, p, '.');
    assert ("-" + w)[1..] == w;
  }

  /** The duration option loses nothing: it reads back as the same number of
      milliseconds, sign included. */
  lemma {:induction false} Fixed3RoundTrip(d: Num)
    ensures ReadFixed3(Fixed3(d)) == Some(d)
  {
    if d.Finite? {
      var v := d.value;
      var a := if v < 0 then -v else v;
      if v < 0 {
        ReadNegative(a);
      } else {
        ReadUnsigned(a);
      }
    }
  }

  // ---------------------------------------------------------------------------
  // One clip
  // ---------------------------------------------------------------------------

  /** One evidence item as the evaluator returns it. A timestamp that is
      missing or not a string is `None`. */
  datatype Evidence = Evidence(issue: Option<string>, timestamp: Option<string>, reason: Option<string>)

  /** What the transcoder is asked to do for one clip. */
  datatype ClipRequest = ClipRequest(input: string, seek: string, duration: string, output: string)

  /** One clip that was produced. */
  datatype ClipEntry = ClipEntry(issue: Option<string>, reason: Option<string>, path: string)

  /** The name of the clip for the item at (0-based) `index`. */
  function ClipName(sessionId: string, index: nat): string {
    sessionId + "_clip" + NatToString(index + 1) + ".mp4"
  }

  /** Different items get different file names. */
  lemma {:induction false} ClipNamesDistinct(sessionId: string, i: nat, j: nat)
    ensures ClipName(sessionId, i) == ClipName(sessionId, j) <==> i == j
  {
    var a := NatToString(i + 1);
    var b := NatToString(j + 1);
    var n := |sessionId + "_clip"|;
    assert ClipName(sessionId, i) == (sessionId + "_clip") + (a + ".mp4");
    assert ClipName(sessionId, j) == (sessionId + "_clip") + (b + ".mp4");
    assert ClipName(sessionId, i)[n..] == a + ".mp4";
    assert ClipName(sessionId, j)[n..] == b + ".mp4";
    assert (a + ".mp4")[..|a|] == a;
    assert (b + ".mp4")[..|b|] == b;
  }

  /** The start and end stamps of a "start --> end" timestamp: the first two
      pieces around the arrow, trimmed. The end is absent without an arrow. */
  function Span(ts: string): (r: (string, Option<string>))
    ensures r.1.Some? <==> Contains(ts, Arrow)
  {
    var pieces := SplitOn(ts, Arrow);
    (Trim(pieces[0]), if |pieces| >= 2 then Some(Trim(pieces[1])) else None)
  }

  /** The request for a clip between two stamps. */
  function Request(videoPath: string, start: string, end: string, outputPath: string): ClipRequest {
    var durationMs := Sub(ClipTimeToMs(end), ClipTimeToMs(start));
    ClipRequest(videoPath, "-ss " + FormatTimestamp(start), "-t " + Fixed3(durationMs), outputPath)
  }

  /** The clip's length is the end stamp minus the start stamp, with no check
      that it is positive. */
  lemma RequestDuration(videoPath: string, start: string, end: string, outputPath: string)
    ensures ReadFixed3(Request(videoPath, start, end, outputPath).duration[3..])
         == Some(Sub(ClipTimeToMs(end), ClipTimeToMs(start)))
  {
    var d := Sub(ClipTimeToMs(end), ClipTimeToMs(start));
    assert ("-t " + Fixed3(d))[3..] == Fixed3(d);
    Fixed3RoundTrip(d);
  }

  /** One item of `generateEvidenceClips`: `None` when the timestamp is
      missing, has no arrow (the end stamp is then undefined and reading it
      throws), or the transcoder fails; otherwise the item's issue and reason
      with the clip's path. */
  function ClipAttempt(videoPath: string, outputDir: string, sessionId: string, index: nat, ev: Evidence,
                       transcode: ClipRequest -> bool): (r: Option<ClipEntry>)
    ensures r.Some? <==> ev.timestamp.Some? && Contains(ev.timestamp.value, Arrow) &&
                         transcode(Request(videoPath, Span(ev.timestamp.value).0, Span(ev.timestamp.value).1.value,
                                           outputDir + "/" + ClipName(sessionId, index)))
    ensures r.Some? ==> r.value.issue == ev.issue && r.value.reason == ev.reason
    ensures r.Some? ==> r.value.path == outputDir + "/" + ClipName(sessionId, index)
  {
    match ev.timestamp
    case None => None
    case Some(ts) =>
      var (start, end) := Span(ts);
      match end
      case None => None
      case Some(e) =>
        var outputPath := outputDir + "/" + ClipName(sessionId, index);
        if transcode(Request(videoPath, start, e, outputPath)) then Some(ClipEntry(ev.issue, ev.reason, outputPath))
        else None
  }

  // ---------------------------------------------------------------------------
  // All clips
  // ---------------------------------------------------------------------------

  /** `results.filter(r => r !== null)`. */
  function Somes<T>(xs: seq<Option<T>>): (r: seq<T>)
    ensures |r| <= |xs|
  {
    if |xs| == 0 then []
    else if xs[0].Some? then [xs[0].value] + Somes(xs[1..])
    else Somes(xs[1..])
  }

  function NoneCount<T>(xs: seq<Option<T>>): nat {
    if |xs| == 0 then 0 else (if xs[0].None? then 1 else 0) + NoneCount(xs[1..])
  }

  /** Every dropped item shortens the result by exactly one. */
  lemma {:induction false} SomesCount<T>(xs: seq<Option<T>>)
    ensures |Somes(xs)| + NoneCount(xs) == |xs|
  {
    if |xs| > 0 {
      SomesCount(xs[1..]);
    }
  }

  /** Filtering keeps the order: the survivors of a concatenation are the
      survivors of each part, in turn. */
  lemma {:induction false} SomesAppend<T>(a: seq<Option<T>>, b: seq<Option<T>>)
    ensures Somes(a + b) == Somes(a) + Somes(b)
  {
    if |a| > 0 {
      assert (a + b)[1..] == a[1..] + b;
      SomesAppend(a[1..], b);
    } else {
      assert a + b == b;
    }
  }

  /** A value survives the filter exactly when it was present. */
  lemma {:induction false} SomesMember<T>(xs: seq<Option<T>>, v: T)
    ensures v in Somes(xs) <==> Some(v) in xs
  {
    if |xs| > 0 {
      SomesMember(xs[1..], v);
      assert xs == [xs[0]] + xs[1..];
    }
  }

  /** The attempts for every item, in order (`evidenceArray.map`). */
  function Attempts(videoPath: string, outputDir: string, sessionId: string, evidence: seq<Evidence>,
                    transcode: ClipRequest -> bool): (r: seq<Option<ClipEntry>>)
    ensures |r| == |evidence|
    ensures forall i {:trigger r[i]} :: 0 <= i < |evidence| ==>
      r[i] == ClipAttempt(videoPath, outputDir, sessionId, i, evidence[i], transcode)
  {
    seq(|evidence|, i requires 0 <= i < |evidence| =>
      ClipAttempt(videoPath, outputDir, sessionId, i, evidence[i], transcode))
  }

  /** `generateEvidenceClips`: the clips that were produced, in item order. */
  function GenerateEvidenceClips(videoPath: string, outputDir: string, sessionId: string, evidence: seq<Evidence>,
                                 transcode: ClipRequest -> bool): (r: seq<ClipEntry>)
    ensures |r| <= |evidence|
  {
    Somes(Attempts(videoPath, outputDir, sessionId, evidence, transcode))
  }

  /** Each clip in the result comes from one item, carries that item's issue
      and reason, and sits at that item's path; each produced clip is in the
      result. */
  lemma ClipOrigin(videoPath: string, outputDir: string, sessionId: string, evidence: seq<Evidence>,
                   transcode: ClipRequest -> bool, c: ClipEntry)
    ensures c in GenerateEvidenceClips(videoPath, outputDir, sessionId, evidence, transcode)
        <==> exists i :: 0 <= i < |evidence| &&
               ClipAttempt(videoPath, outputDir, sessionId, i, evidence[i], transcode) == Some(c)
  {
    var xs := Attempts(videoPath, outputDir, sessionId, evidence, transcode);
    SomesMember(xs, c);
    if Some(c) in xs {
      var i :| 0 <= i < |xs| && xs[i] == Some(c);
      assert ClipAttempt(videoPath, outputDir, sessionId, i, evidence[i], transcode) == Some(c);
    }
    if exists i :: 0 <= i < |evidence| &&
         ClipAttempt(videoPath, outputDir, sessionId, i, evidence[i], transcode) == Some(c) {
      var i :| 0 <= i < |evidence| &&
         ClipAttempt(videoPath, outputDir, sessionId, i, evidence[i], transcode) == Some(c);
      assert xs[i] == Some(c);
    }
  }

  /** The result is the produced clips of the first items followed by those of
      the rest: one item's failure never disturbs another's clip. */
  lemma ClipsAppend(videoPath: string, outputDir: string, sessionId: string, evidence: seq<Evidence>,
                    transcode: ClipRequest -> bool, k: nat)
    requires k <= |evidence|
    ensures GenerateEvidenceClips(videoPath, outputDir, sessionId, evidence, transcode)
         == Somes(Attempts(videoPath, outputDir, sessionId, evidence, transcode)[..k])
          + Somes(Attempts(videoPath, outputDir, sessionId, evidence, transcode)[k..])
  {
    var xs := Attempts(videoPath, outputDir, sessionId, evidence, transcode);
    assert xs == xs[..k] + xs[k..];
    SomesAppend(xs[..k], xs[k..]);
  }

  /** With N items of which M fail, N - M clips come back. */
  lemma ClipsCount(videoPath: string, outputDir: string, sessionId: string, evidence: seq<Evidence>,
                   transcode: ClipRequest -> bool)
    ensures |GenerateEvidenceClips(videoPath, outputDir, sessionId, evidence, transcode)|
         == |evidence| - NoneCount(Attempts(videoPath, outputDir, sessionId, evidence, transcode))
  {
    SomesCount(Attempts(videoPath, outputDir, sessionId, evidence, transcode));
  }

  /** An item without an arrow in its timestamp never yields a clip, whatever
      the transcoder does. */
  lemma NoArrowNoClip(videoPath: string, outputDir: string, sessionId: string, evidence: seq<Evidence>,
                      transcode: ClipRequest -> bool, i: nat)
    requires i < |evidence| && evidence[i].timestamp.Some? && !Contains(evidence[i].timestamp.value, Arrow)
    ensures Attempts(videoPath, outputDir, sessionId, evidence, transcode)[i].None?
  {
  }
}
