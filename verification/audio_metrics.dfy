/** `calculateAudioMetrics` and the two scoring helpers next to it: word,
    sentence and filler counts over the transcript, and three additive-penalty
    scores. Every ratio the original compares with a threshold is compared by
    cross-multiplication; a zero denominator makes the comparison false, as a
    comparison with JavaScript's NaN is. */
module AudioMetrics {
  import opened Wrappers
  import opened Text
  import opened JsNumber
  import opened PauseDetector

  // ---------------------------------------------------------------------------
  // Splitting at separator runs
  // ---------------------------------------------------------------------------

  /** Length of the leading run of separator characters. */
  function SepRun(s: string, sep: char -> bool): (n: nat)
    ensures n <= |s|
    ensures |s| > 0 && sep(s[0]) ==> n > 0
  {
    if |s| > 0 && sep(s[0]) then 1 + SepRun(s[1..], sep) else 0
  }

  /** `s.split(re)` for a regular expression `re` that matches a non-empty run
      of separator characters: the pieces between maximal runs, with an empty
      piece in front of a leading run and behind a trailing one. */
  function SplitRuns(s: string, sep: char -> bool): (parts: seq<string>)
    ensures |parts| > 0
    decreases |s|
  {
    if |s| == 0 then [""]
    else if sep(s[0]) then [""] + SplitRuns(s[SepRun(s, sep)..], sep)
    else
      var rest := SplitRuns(s[1..], sep);
      [[s[0]] + rest[0]] + rest[1..]
  }

  /** The characters of `s` that are no separators, in order. */
  function Kept(s: string, sep: char -> bool): (r: string)
    ensures |r| <= |s|
  {
    if |s| == 0 then "" else if sep(s[0]) then Kept(s[1..], sep) else [s[0]] + Kept(s[1..], sep)
  }

  /** No piece holds a separator. */
  lemma {:induction false} SplitRunsNoSep(s: string, sep: char -> bool)
    ensures forall k, j :: 0 <= k < |SplitRuns(s, sep)| && 0 <= j < |SplitRuns(s, sep)[k]| ==>
      !sep(SplitRuns(s, sep)[k][j])
    decreases |s|
  {
    if |s| == 0 {
    } else if sep(s[0]) {
      SplitRunsNoSep(s[SepRun(s, sep)..], sep);
    } else {
      var rest := SplitRuns(s[1..], sep);
      SplitRunsNoSep(s[1..], sep);
      var parts := [[s[0]] + rest[0]] + rest[1..];
      assert forall k :: 1 <= k < |parts| ==> parts[k] == rest[k];
      assert forall j :: 1 <= j < |parts[0]| ==> parts[0][j] == rest[0][j - 1];
    }
  }

  lemma {:induction false} KeptSkipsRun(s: string, sep: char -> bool, n: nat)
    requires n <= |s| && forall i :: 0 <= i < n ==> sep(s[i])
    ensures Kept(s, sep) == Kept(s[n..], sep)
    decreases n
  {
    if n > 0 {
      KeptSkipsRun(s[1..], sep, n - 1);
      assert s[1..][n - 1..] == s[n..];
    }
  }

  lemma {:induction false} SepRunAll(s: string, sep: char -> bool)
    ensures forall i :: 0 <= i < SepRun(s, sep) ==> sep(s[i])
    decreases |s|
  {
    if |s| > 0 && sep(s[0]) {
      SepRunAll(s[1..], sep);
    }
  }

  /** Joined again, the pieces are the text without its separators. */
  lemma {:induction false} SplitRunsConcat(s: string, sep: char -> bool)
    ensures Concat(SplitRuns(s, sep)) == Kept(s, sep)
    decreases |s|
  {
    if |s| == 0 {
    } else if sep(s[0]) {
      var n := SepRun(s, sep);
      var tail := SplitRuns(s[n..], sep);
      assert Concat(tail) == Kept(s[n..], sep) by {
        SplitRunsConcat(s[n..], sep);
      }
      assert Kept(s, sep) == Kept(s[n..], sep) by {
        SepRunAll(s, sep);
        KeptSkipsRun(s, sep, n);
      }
      assert Concat([""] + tail) == Concat(tail) by {
        ConcatPrepend("", tail);
        assert "" + Concat(tail) == Concat(tail);
      }
    } else {
      var rest := SplitRuns(s[1..], sep);
      var tail := Concat(rest[1..]);
      assert rest[0] + tail == Kept(s[1..], sep) by {
        SplitRunsConcat(s[1..], sep);
        assert rest == [rest[0]] + rest[1..];
        ConcatPrepend(rest[0], rest[1..]);
      }
      ConcatPrepend([s[0]] + rest[0], rest[1..]);
      AppendAssoc([s[0]], rest[0], tail);
    }
  }

  /** `filter(Boolean)` on strings: drops the empty ones. */
  function NonEmpty(parts: seq<string>): (r: seq<string>)
    ensures |r| <= |parts|
    ensures forall k :: 0 <= k < |r| ==> |r[k]| > 0
  {
    if |parts| == 0 then []
    else if parts[0] == "" then NonEmpty(parts[1..])
    else [parts[0]] + NonEmpty(parts[1..])
  }

  lemma {:induction false} NonEmptyConcat(parts: seq<string>)
    ensures Concat(NonEmpty(parts)) == Concat(parts)
    ensures forall k :: 0 <= k < |NonEmpty(parts)| ==> NonEmpty(parts)[k] in parts
    decreases |parts|
  {
    if |parts| > 0 {
      NonEmptyConcat(parts[1..]);
      if parts[0] == "" {
        assert Concat(parts) == "" + Concat(parts[1..]);
        assert "" + Concat(parts[1..]) == Concat(parts[1..]);
      } else {
        var r := [parts[0]] + NonEmpty(parts[1..]);
        assert r[1..] == NonEmpty(parts[1..]);
        assert forall k :: 1 <= k < |r| ==> r[k] == NonEmpty(parts[1..])[k - 1];
      }
    }
  }

  // ---------------------------------------------------------------------------
  // Words and sentences
  // ---------------------------------------------------------------------------

  /** `transcript.split(/\s+/).filter(Boolean)`. */
  function Words(s: string): seq<string> {
    NonEmpty(SplitRuns(s, IsSpace))
  }

  lemma {:induction false} KeptSpaceIsNonSpace(s: string)
    ensures Kept(s, IsSpace) == NonSpace(s)
    decreases |s|
  {
    if |s| > 0 {
      KeptSpaceIsNonSpace(s[1..]);
    }
  }

  /** The words are non-empty runs of non-whitespace characters which, put
      back together, give every non-whitespace character of the text. */
  lemma WordsSpec(s: string)
    ensures forall k :: 0 <= k < |Words(s)| ==> |Words(s)[k]| > 0 && HasNoSpace(Words(s)[k])
    ensures Concat(Words(s)) == NonSpace(s)
  {
    SplitRunsNoSep(s, IsSpace);
    NonEmptyConcat(SplitRuns(s, IsSpace));
    SplitRunsConcat(s, IsSpace);
    KeptSpaceIsNonSpace(s);
  }

  predicate IsSentenceEnd(c: char) {
    c == '.' || c == '!' || c == '?'
  }

  function TrimAll(parts: seq<string>): (r: seq<string>)
    ensures |r| == |parts|
    ensures forall k :: 0 <= k < |r| ==> r[k] == Trim(parts[k])
  {
    if |parts| == 0 then [] else [Trim(parts[0])] + TrimAll(parts[1..])
  }

  /** `transcript.split(/[.!?]+/).map(s => s.trim()).filter(s => s.length > 0)`. */
  function Sentences(s: string): seq<string> {
    NonEmpty(TrimAll(SplitRuns(s, IsSentenceEnd)))
  }

  /** A trimmed piece with no sentence end in it. */
  predicate SentenceShaped(x: string) {
    NoEdgeSpace(x) && forall j :: 0 <= j < |x| ==> !IsSentenceEnd(x[j])
  }

  lemma TrimShaped(p: string)
    requires forall j :: 0 <= j < |p| ==> !IsSentenceEnd(p[j])
    ensures SentenceShaped(Trim(p))
  {
    var x := Trim(p);
    var a := LeadSpaceCount(p);
    assert forall j :: 0 <= j < |x| ==> x[j] == p[a + j];
  }

  lemma {:induction false} NonEmptyShaped(parts: seq<string>)
    requires forall k :: 0 <= k < |parts| ==> SentenceShaped(parts[k])
    ensures forall k :: 0 <= k < |NonEmpty(parts)| ==> SentenceShaped(NonEmpty(parts)[k])
    decreases |parts|
  {
    if |parts| > 0 {
      NonEmptyShaped(parts[1..]);
      var r := NonEmpty(parts);
      if parts[0] != "" {
        assert forall k :: 1 <= k < |r| ==> r[k] == NonEmpty(parts[1..])[k - 1];
      }
    }
  }

  /** Every sentence is non-empty, trimmed, and holds no sentence end. */
  lemma SentencesSpec(s: string)
    ensures forall k :: 0 <= k < |Sentences(s)| ==> |Sentences(s)[k]| > 0 && SentenceShaped(Sentences(s)[k])
  {
    var parts := SplitRuns(s, IsSentenceEnd);
    SplitRunsNoSep(s, IsSentenceEnd);
    forall k | 0 <= k < |parts|
      ensures SentenceShaped(TrimAll(parts)[k])
    {
      TrimShaped(parts[k]);
    }
    NonEmptyShaped(TrimAll(parts));
  }

  /** `s.split(/\s+/).length` for a trimmed, non-empty sentence. */
  function SentenceLength(sentence: string): nat {
    |SplitRuns(sentence, IsSpace)|
  }

  function SentenceLengths(sentences: seq<string>): (r: seq<nat>)
    ensures |r| == |sentences|
    ensures forall k :: 0 <= k < |r| ==> r[k] == SentenceLength(sentences[k])
  {
    if |sentences| == 0 then [] else [SentenceLength(sentences[0])] + SentenceLengths(sentences[1..])
  }

  // ---------------------------------------------------------------------------
  // Fillers
  // ---------------------------------------------------------------------------

  /** The list the counting loop compares against. */
  const FillerList: seq<string> := ["um", "uh", "like", "you know", "okay", "right", "basically"]

  /** `w.toLowerCase().replace(/[^a-z]/g, "")`. */
  function LettersOnly(w: string): (r: string)
    ensures forall j :: 0 <= j < |r| ==> IsLower(r[j])
  {
    if |w| == 0 then ""
    else if IsLower(ToLower(w[0])) then [ToLower(w[0])] + LettersOnly(w[1..])
    else LettersOnly(w[1..])
  }

  /** `fillerList.includes(normalized)`. */
  predicate IsFiller(w: string) {
    LettersOnly(w) in FillerList
  }

  /** A word is a filler exactly when its letters are one of the six
      one-word fillers; "you know" holds a space and never matches. */
  lemma FillerIff(w: string)
    ensures IsFiller(w) <==> LettersOnly(w) in {"um", "uh", "like", "okay", "right", "basically"}
  {
    assert "you know"[3] == ' ';
    assert ' ' !in LettersOnly(w);
  }

  /** Number of filler words. */
  function FillerCount(ws: seq<string>): (n: nat)
    ensures n <= |ws|
  {
    if |ws| == 0 then 0 else FillerCount(ws[..|ws| - 1]) + (if IsFiller(ws[|ws| - 1]) then 1 else 0)
  }

  /** Number of filler words that directly follow another filler word. */
  function ClusterCount(ws: seq<string>): nat {
    if |ws| < 2 then 0
    else ClusterCount(ws[..|ws| - 1]) + (if IsFiller(ws[|ws| - 2]) && IsFiller(ws[|ws| - 1]) then 1 else 0)
  }

  /** The `words.forEach` loop with its `prevWasFiller` flag. */
  method CountFillers(ws: seq<string>) returns (fillerCount: nat, fillerClusters: nat)
    ensures fillerCount == FillerCount(ws)
    ensures fillerClusters == ClusterCount(ws)
  {
    fillerCount := 0;
    fillerClusters := 0;
    var prevWasFiller := false;
    var i := 0;
    while i < |ws|
      invariant 0 <= i <= |ws|
      invariant fillerCount == FillerCount(ws[..i])
      invariant fillerClusters == ClusterCount(ws[..i])
      invariant prevWasFiller <==> i > 0 && IsFiller(ws[i - 1])
    {
      assert ws[..i + 1][..i] == ws[..i];
      if IsFiller(ws[i]) {
        fillerCount := fillerCount + 1;
        if prevWasFiller {
          fillerClusters := fillerClusters + 1;
        }
        prevWasFiller := true;
      } else {
        prevWasFiller := false;
      }
      i := i + 1;
    }
    assert ws[..i] == ws;
  }

  /** Every cluster needs a filler in front of it, so there are fewer clusters
      than fillers, and none without fillers. */
  lemma {:induction false} ClustersBound(ws: seq<string>)
    ensures ClusterCount(ws) + (if FillerCount(ws) > 0 then 1 else 0) <= FillerCount(ws)
    decreases |ws|
  {
    if |ws| >= 2 {
      var p := ws[..|ws| - 1];
      ClustersBound(p);
      assert p[..|p| - 1] == ws[..|ws| - 2];
      assert p[|p| - 1] == ws[|ws| - 2];
      if IsFiller(ws[|ws| - 2]) {
        assert FillerCount(p) > 0;
      }
    }
  }

  // ---------------------------------------------------------------------------
  // Ratios, rounding, repetitions and fragments
  // ---------------------------------------------------------------------------

  /** `num / den > p / q` for a positive `q`: false when `den` is 0, as the
      comparison of NaN is. */
  predicate RatioAbove(num: int, den: int, p: int, q: int) {
    den > 0 && num * q > p * den
  }

  lemma RatioAboveMeaning(num: int, den: int, p: int, q: int)
    requires q > 0
    ensures RatioAbove(num, den, p, q) <==> den > 0 && (num as real) / (den as real) > (p as real) / (q as real)
  {
    if den > 0 {
      var a := (num as real) / (den as real);
      var b := (p as real) / (q as real);
      assert a * (den as real) == num as real;
      assert b * (q as real) == p as real;
      assert (num * q) as real == a * (den as real) * (q as real);
      assert (p * den) as real == b * (q as real) * (den as real);
    }
  }

  /** `Math.round`: to the nearest integer, halves upwards. */
  function Round(x: real): (r: int)
    ensures x - 0.5 < r as real <= x + 0.5
  {
    (x + 0.5).Floor
  }

  /** `durationSec ? Math.round((totalWords / durationSec) * 60) : 0`. */
  function WordsPerMin(totalWords: nat, durationSec: real): (wpm: int)
    ensures durationSec == 0.0 ==> wpm == 0
    ensures durationSec != 0.0 ==> (totalWords as real) / durationSec * 60.0 - 0.5 < wpm as real <= (totalWords as real) / durationSec * 60.0 + 0.5
  {
    if durationSec == 0.0 then 0 else Round((totalWords as real) / durationSec * 60.0)
  }

  /** Number of words equal, up to case, to the word after them. */
  function RepetitionCount(ws: seq<string>): (n: nat)
    ensures n <= |ws|
  {
    if |ws| < 2 then 0
    else (if Lower(ws[0]) == Lower(ws[1]) then 1 else 0) + RepetitionCount(ws[1..])
  }

  lemma {:induction false} RepetitionCountNone(ws: seq<string>)
    requires forall i :: 0 <= i < |ws| - 1 ==> Lower(ws[i]) != Lower(ws[i + 1])
    ensures RepetitionCount(ws) == 0
    decreases |ws|
  {
    if |ws| >= 2 {
      assert forall i :: 0 <= i < |ws| - 1 ==> ws[1..][i] == ws[i + 1];
      RepetitionCountNone(ws[1..]);
    }
  }

  /** Length of the leading run of `c`, in either case. */
  function CaseRun(s: string, c: char): (n: nat)
    ensures n <= |s|
  {
    if |s| > 0 && ToLower(s[0]) == c then 1 + CaseRun(s[1..], c) else 0
  }

  /** `s` starts with `lit` (lower case) up to letter case. */
  predicate StartsCaseless(s: string, lit: string) {
    |lit| <= |s| && Lower(s[..|lit|]) == lit
  }

  /** Length of the match of `/(uh+|umm+|yeah yeah|ok+ay)/i` at the front of
      `s`, or 0. The alternatives begin differently, so at most one applies;
      `k+` is followed by "ay", which no `k` begins, so the greedy run is the
      only one that can succeed. */
  function FragmentAt(s: string): (n: nat)
    ensures n <= |s|
  {
    if |s| >= 2 && ToLower(s[0]) == 'u' && ToLower(s[1]) == 'h' then 1 + CaseRun(s[1..], 'h')
    else if |s| >= 3 && ToLower(s[0]) == 'u' && ToLower(s[1]) == 'm' && ToLower(s[2]) == 'm' then 1 + CaseRun(s[1..], 'm')
    else if StartsCaseless(s, "yeah yeah") then 9
    else if |s| >= 2 && ToLower(s[0]) == 'o' && ToLower(s[1]) == 'k' then
      var k := CaseRun(s[1..], 'k');
      if StartsCaseless(s[1 + k..], "ay") then 1 + k + 2 else 0
    else 0
  }

  /** `(transcript.match(re) || []).length` for the global fragment regex:
      matches are found left to right and do not overlap. */
  function FragmentCount(s: string): (n: nat)
    ensures n <= |s|
    decreases |s|
  {
    if |s| == 0 then 0
    else if FragmentAt(s) > 0 then 1 + FragmentCount(s[FragmentAt(s)..])
    else FragmentCount(s[1..])
  }

  /** `/[a-zA-Z]$/.test(s)` fails. */
  predicate Unfinished(sentence: string) {
    |sentence| == 0 || !IsLetter(sentence[|sentence| - 1])
  }

  function CountUnfinished(sentences: seq<string>): (n: nat)
    ensures n <= |sentences|
  {
    if |sentences| == 0 then 0
    else (if Unfinished(sentences[0]) then 1 else 0) + CountUnfinished(sentences[1..])
  }

  function Sum(xs: seq<nat>): nat {
    if |xs| == 0 then 0 else xs[0] + Sum(xs[1..])
  }

  /** How many of `xs` are above `bound` (`above`) or at most `bound`. */
  function CountAbove(xs: seq<nat>, bound: nat, above: bool): (n: nat)
    ensures n <= |xs|
  {
    if |xs| == 0 then 0
    else (if (xs[0] > bound) == above then 1 else 0) + CountAbove(xs[1..], bound, above)
  }

  /** `sum of (b - avg) ** 2`. */
  function SquaredDeviations(xs: seq<nat>, avg: real): (r: real)
    ensures r >= 0.0
  {
    if |xs| == 0 then 0.0 else (xs[0] as real - avg) * (xs[0] as real - avg) + SquaredDeviations(xs[1..], avg)
  }

  /** `sentenceVariance`; with no sentence the sum over nothing is 0. */
  function SentenceVariance(lengths: seq<nat>): real {
    if |lengths| == 0 then 0.0 else SquaredDeviations(lengths, (Sum(lengths) as real) / (|lengths| as real))
  }

  // ---------------------------------------------------------------------------
  // The three scores
  // ---------------------------------------------------------------------------

  /** The penalties of the sentence complexity score. */
  function ComplexityPenalty(lengths: seq<nat>, fillers: nat, totalWords: nat, unfinished: nat): (p: nat)
    ensures p <= 7
  {
    var c := |lengths|;
    (if RatioAbove(Sum(lengths), c, 15, 1) then 2 else 0)
    + (if RatioAbove(CountAbove(lengths, 15, true), c, 3, 10) then 2 else 0)
    + (if RatioAbove(fillers, totalWords, 8, 100) then 1 else 0)
    + (if unfinished > 0 then 2 else 0)
  }

  function PronunciationPenalty(repetitions: nat, fragments: nat): (p: nat)
    ensures p in {0, 2, 4}
  {
    (if repetitions > 2 then 2 else 0) + (if fragments > 3 then 2 else 0)
  }

  function StabilityPenalty(pauseCount: nat, clusters: nat, lengths: seq<nat>): (p: nat)
    ensures p in {0, 2, 4, 6, 8}
  {
    (if pauseCount > 4 then 2 else 0)
    + (if clusters > 3 then 2 else 0)
    + (if RatioAbove(CountAbove(lengths, 4, false), |lengths|, 4, 10) then 2 else 0)
    + (if SentenceVariance(lengths) > 120.0 then 2 else 0)
  }

  /** `Math.max(0, 10 - penalty)`. */
  function ScoreFrom(penalty: nat): int {
    if 10 - penalty < 0 then 0 else 10 - penalty
  }

  // ---------------------------------------------------------------------------
  // calculateAudioMetrics
  // ---------------------------------------------------------------------------

  /** `pauseData?.pauses || []`. */
  function PauseList(pauseData: Option<PauseData>): seq<Pause> {
    if pauseData.Some? then pauseData.value.pauses else []
  }

  datatype Metrics = Metrics(
    totalWords: nat,
    totalSentences: nat,
    fillerWords: nat,
    wordsPerMin: int,
    pauseCount: nat,
    sentenceComplexityScore: int,
    pronunciationScore: int,
    speakingStabilityScore: int)

  /** `calculateAudioMetrics(transcript, durationSec, pauseData)`. */
  function CalculateAudioMetrics(transcript: string, durationSec: real, pauseData: Option<PauseData>): (m: Metrics)
    ensures m.totalWords == |Words(transcript)|
    ensures m.totalSentences >= 1
    ensures m.totalSentences == 1 || m.totalSentences == |Sentences(transcript)|
    ensures m.fillerWords == FillerCount(Words(transcript)) <= m.totalWords
    ensures durationSec == 0.0 ==> m.wordsPerMin == 0
    ensures m.pauseCount == |PauseList(pauseData)|
    ensures pauseData.None? ==> m.pauseCount == 0
    ensures 3 <= m.sentenceComplexityScore <= 10
    ensures m.pronunciationScore in {6, 8, 10}
    ensures m.speakingStabilityScore in {2, 4, 6, 8, 10}
  {
    var words := Words(transcript);
    var sentences := Sentences(transcript);
    var lengths := SentenceLengths(sentences);
    var fillers := FillerCount(words);
    var pauses := PauseList(pauseData);
    Metrics(
      |words|,
      if |sentences| == 0 then 1 else |sentences|,
      fillers,
      WordsPerMin(|words|, durationSec),
      |pauses|,
      ScoreFrom(ComplexityPenalty(lengths, fillers, |words|, CountUnfinished(sentences))),
      ScoreFrom(PronunciationPenalty(RepetitionCount(words), FragmentCount(transcript))),
      ScoreFrom(StabilityPenalty(|pauses|, ClusterCount(words), lengths)))
  }

  /** An empty transcript: no word, one sentence, and only the penalties that
      do not depend on the words. */
  lemma EmptyTranscript(durationSec: real, pauseData: Option<PauseData>)
    ensures CalculateAudioMetrics("", durationSec, pauseData).totalWords == 0
    ensures CalculateAudioMetrics("", durationSec, pauseData).totalSentences == 1
    ensures CalculateAudioMetrics("", durationSec, pauseData).sentenceComplexityScore == 10
    ensures CalculateAudioMetrics("", durationSec, pauseData).pronunciationScore == 10
  {
    assert Words("") == [];
    assert Sentences("") == [];
  }

  // ---------------------------------------------------------------------------
  // The unused helpers
  // ---------------------------------------------------------------------------

  /** `getPaceScore(wordsPerMin)`; every comparison with NaN is false. */
  function PaceScore(wpm: Num): (score: int)
    ensures score in {3, 6, 10}
    ensures wpm.Finite? ==> (score == 10 <==> 90 <= wpm.value <= 140)
    ensures wpm.Finite? ==> (score == 3 <==> wpm.value < 60 || wpm.value > 170)
    ensures wpm.NaN? ==> score == 10
  {
    if wpm.Finite? && wpm.value < 60 then 3
    else if wpm.Finite? && wpm.value > 170 then 3
    else if wpm.Finite? && wpm.value < 90 then 6
    else if wpm.Finite? && wpm.value > 140 then 6
    else 10
  }

  /** `getClarityScore(wordsPerMin, fillerCount, totalPauses)`. */
  function ClarityScore(wpm: Num, fillerCount: int, totalPauses: int): (score: int)
    ensures 1 <= score <= 10
    ensures fillerCount > 10 && totalPauses <= 5 && wpm.Finite? && 80 <= wpm.value <= 160 ==> score == 4
    ensures fillerCount <= 5 && totalPauses <= 5 && (wpm.NaN? || 80 <= wpm.value <= 160) ==> score == 10
  {
    var s0 := 10;
    var s1 := if wpm.Finite? && (wpm.value < 80 || wpm.value > 160) then s0 - 2 else s0;
    var s2 := if fillerCount > 5 then s1 - 2 else s1;
    var s3 := if fillerCount > 10 then s2 - 4 else s2;
    var s4 := if totalPauses > 5 then s3 - 2 else s3;
    if s4 < 1 then 1 else s4
  }

  /** More than ten fillers cost six points in total against the score
      without fillers, down to the floor of 1. */
  lemma ManyFillersCostSix(wpm: Num, fillerCount: int, totalPauses: int)
    requires fillerCount > 10
    ensures var base := ClarityScore(wpm, 0, totalPauses);
      ClarityScore(wpm, fillerCount, totalPauses) == if base - 6 < 1 then 1 else base - 6
  {
  }
}
