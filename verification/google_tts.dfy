/** The alternative speech generator: shortens a feedback text for speech
    synthesis and records the audio under the session's file name. The text is
    shortened by two regular expressions, modelled here exactly: a quoted
    `correctedVersion` value is spoken on its own; otherwise a text holding an
    `issuesDetected` list followed by `correctedVersion` is prefixed and cut to
    1500 characters; otherwise the text is cut to 2000 characters. */
module GoogleTts {
  import opened Wrappers
  import opened Text

  const NoFeedback := "No feedback available."
  const FocusPrefix := "Focus on these improvements: "
  const CorrectedKey := "correctedVersion"
  const IssuesKey := "issuesDetected"

  // ---------------------------------------------------------------------------
  // The regular expression  correctedVersion[^}]+"([^"]+)"
  // ---------------------------------------------------------------------------

  /** The first index at or after `j` holding `c`, or `|s|`. */
  function FirstFrom(s: string, c: char, j: nat): (r: nat)
    requires j <= |s|
    ensures j <= r <= |s|
    ensures forall i :: j <= i < r ==> s[i] != c
    ensures r < |s| ==> s[r] == c
    decreases |s| - j
  {
    if j == |s| || s[j] == c then j else FirstFrom(s, c, j + 1)
  }

  /** No `c` in `s[a..b]`. */
  predicate Avoids(s: string, c: char, a: int, b: int) {
    0 <= a <= b <= |s| && forall i :: a <= i < b ==> s[i] != c
  }

  /** `"([^"]+)"` matches with its opening quote at `q` and its closing quote
      at `e`. */
  predicate QuotedAt(s: string, q: int, e: int) {
    0 <= q && q + 1 < e < |s| && s[q] == '"' && s[e] == '"' && Avoids(s, '"', q + 1, e)
  }

  /** `correctedVersion[^}]+` matches from `k` up to (not including) `q`. */
  predicate KeyRun(s: string, k: int, q: int) {
    OccursAt(s, CorrectedKey, k) && k + |CorrectedKey| < q <= |s| && Avoids(s, '}', k + |CorrectedKey|, q)
  }

  /** The whole expression matches at `k` with the capture between the quotes
      at `q` and `e`. */
  predicate CorrectedRegexMatch(s: string, k: int, q: int, e: int) {
    KeyRun(s, k, q) && QuotedAt(s, q, e)
  }

  /** A match: where the key starts and where the quotes around the capture
      are. */
  datatype Capture = Capture(key: nat, open: nat, close: nat)

  /** `"([^"]+)"` tried with its opening quote at `q`: the greedy `[^"]+` runs
      to the next quote, and a shorter run cannot be followed by a quote. */
  function QuoteAt(s: string, q: nat): (r: Option<nat>)
    requires q < |s|
    ensures r.Some? ==> QuotedAt(s, q, r.value)
    ensures r.None? ==> forall e :: !QuotedAt(s, q, e)
  {
    if s[q] != '"' then None
    else
      var e := FirstFrom(s, '"', q + 1);
      if e < |s| && e > q + 1 then Some(e)
      else None
  }

  /** Backtracking of the greedy `[^}]+`: the opening quote is tried at the
      last position first, then at earlier ones down to `lo`. */
  function LastQuote(s: string, lo: nat, hi: nat): (r: Option<(nat, nat)>)
    requires lo <= hi <= |s|
    ensures r.Some? ==> lo <= r.value.0 < hi && QuotedAt(s, r.value.0, r.value.1)
    ensures r.Some? ==> forall q, e :: r.value.0 < q < hi ==> !QuotedAt(s, q, e)
    ensures r.None? ==> forall q, e :: lo <= q < hi ==> !QuotedAt(s, q, e)
    decreases hi - lo
  {
    if hi == lo then None
    else
      match QuoteAt(s, hi - 1)
      case Some(e) => Some((hi - 1, e))
      case None => LastQuote(s, lo, hi - 1)
  }

  /** The expression tried with its key at `k`: `[^}]+` can reach up to the
      first '}' after the key, so the opening quote lies before it. */
  function MatchAtKey(s: string, k: nat): (r: Option<Capture>)
    requires OccursAt(s, CorrectedKey, k)
    ensures r.Some? ==> r.value.key == k && CorrectedRegexMatch(s, k, r.value.open, r.value.close)
    ensures r.Some? ==> forall q, e :: r.value.open < q ==> !CorrectedRegexMatch(s, k, q, e)
    ensures r.None? ==> forall q, e :: !CorrectedRegexMatch(s, k, q, e)
  {
    var start := k + |CorrectedKey|;
    var stop := FirstFrom(s, '}', start);
    if start + 1 > stop then None
    else
      match LastQuote(s, start + 1, stop)
      case Some((q, e)) =>
        assert KeyRun(s, k, q);
        assert forall q', e' :: q < q' ==> !CorrectedRegexMatch(s, k, q', e') by {
          forall q', e' | q < q' && CorrectedRegexMatch(s, k, q', e')
            ensures false
          {
            KeyRunBelowStop(s, k, q', e', stop);
          }
        }
        Some(Capture(k, q, e))
      case None =>
        assert forall q, e :: !CorrectedRegexMatch(s, k, q, e) by {
          forall q, e | CorrectedRegexMatch(s, k, q, e)
            ensures false
          {
            KeyRunBelowStop(s, k, q, e, stop);
          }
        }
        None
  }

  /** A quote that ends a `[^}]+` run sits before the first '}'. */
  lemma KeyRunBelowStop(s: string, k: nat, q: int, e: int, stop: nat)
    requires OccursAt(s, CorrectedKey, k)
    requires stop == FirstFrom(s, '}', k + |CorrectedKey|)
    requires CorrectedRegexMatch(s, k, q, e)
    ensures k + |CorrectedKey| + 1 <= q < stop
  {
  }

  /** The leftmost key at or after `p` at which the expression matches. */
  function CorrectedMatchFrom(s: string, p: nat): (r: Option<Capture>)
    ensures r.Some? ==> p <= r.value.key && CorrectedRegexMatch(s, r.value.key, r.value.open, r.value.close)
    ensures r.Some? ==> forall k, q, e :: p <= k < r.value.key ==> !CorrectedRegexMatch(s, k, q, e)
    ensures r.Some? ==> forall q, e :: r.value.open < q ==> !CorrectedRegexMatch(s, r.value.key, q, e)
    ensures r.None? ==> forall k, q, e :: p <= k ==> !CorrectedRegexMatch(s, k, q, e)
    decreases |s| - p
  {
    if p + |CorrectedKey| > |s| then None
    else if OccursAt(s, CorrectedKey, p) && MatchAtKey(s, p).Some? then MatchAtKey(s, p)
    else CorrectedMatchFrom(s, p + 1)
  }

  /** `text.match(/correctedVersion[^}]+"([^"]+)"/)`: the leftmost match, and
      at that key the last possible opening quote. */
  function CorrectedMatch(s: string): (r: Option<Capture>)
    ensures r.Some? ==> CorrectedRegexMatch(s, r.value.key, r.value.open, r.value.close)
    ensures r.None? <==> forall k, q, e :: !CorrectedRegexMatch(s, k, q, e)
  {
    CorrectedMatchFrom(s, 0)
  }

  /** The captured group of a match. */
  function CaptureText(s: string, c: Capture): (t: string)
    requires QuotedAt(s, c.open, c.close)
    ensures |t| > 0 && '"' !in t
  {
    var t := s[c.open + 1..c.close];
    assert forall i :: 0 <= i < |t| ==> t[i] == s[c.open + 1 + i];
    t
  }

  // ---------------------------------------------------------------------------
  // The regular expression  issuesDetected[^\]]+\]([^}]+)correctedVersion
  // ---------------------------------------------------------------------------

  predicate IssuesRegexMatch(s: string, k: int, b: int, r: int) {
    OccursAt(s, IssuesKey, k) && k + |IssuesKey| < b < |s| && s[b] == ']' && Avoids(s, ']', k + |IssuesKey|, b) &&
    b + 1 < r && Avoids(s, '}', b + 1, r) && OccursAt(s, CorrectedKey, r)
  }

  /** `text.match(/issuesDetected[^\]]+\]([^}]+)correctedVersion/)` succeeds. */
  predicate IssuesMatch(s: string) {
    exists k, b, r | 0 <= k < |s| && 0 <= b < |s| && 0 <= r < |s| :: IssuesRegexMatch(s, k, b, r)
  }

  // ---------------------------------------------------------------------------
  // optimizeTextForTTS
  // ---------------------------------------------------------------------------

  function Min(a: int, b: int): int {
    if a <= b then a else b
  }

  /** `optimizeTextForTTS(text)`. */
  function OptimizeTextForTts(text: Option<string>): (r: string)
    ensures !Truthy(text) ==> r == NoFeedback
    ensures Truthy(text) && CorrectedMatch(text.value).Some? ==> |r| > 0 && '"' !in r
    ensures !Truthy(text) || CorrectedMatch(text.value).None? ==> |r| <= 2003
    ensures Truthy(text) && CorrectedMatch(text.value).None? && IssuesMatch(text.value) ==>
              r == FocusPrefix + text.value[..Min(1500, |text.value|)]
    ensures Truthy(text) && CorrectedMatch(text.value).None? && !IssuesMatch(text.value) ==>
              r == (if |text.value| > 2000 then text.value[..2000] + "..." else text.value)
  {
    if !Truthy(text) then NoFeedback
    else
      var t := text.value;
      match CorrectedMatch(t)
      case Some(c) => CaptureText(t, c)
      case None =>
        if IssuesMatch(t) then FocusPrefix + t[..Min(1500, |t|)]
        else if |t| > 2000 then t[..2000] + "..."
        else t
  }

  /** Both expressions need the key `correctedVersion`; a text without it is
      only ever cut, to its first 2000 characters followed by "...". */
  lemma {:induction false} NoKeyOnlyCut(t: string)
    requires |t| > 0 && !Contains(t, CorrectedKey)
    ensures OptimizeTextForTts(Some(t)) == (if |t| > 2000 then t[..2000] + "..." else t)
  {
    assert CorrectedMatch(t).None? by {
      forall k, q, e | CorrectedRegexMatch(t, k, q, e)
        ensures false
      {
      }
    }
    assert !IssuesMatch(t) by {
      forall k, b, r | IssuesRegexMatch(t, k, b, r)
        ensures false
      {
      }
    }
  }

  /** The spoken capture is the text between two quotes that follow the key,
      with no '}' between the key and the opening quote. */
  lemma CaptureIsQuoted(t: string)
    requires |t| > 0 && CorrectedMatch(t).Some?
    ensures var c := CorrectedMatch(t).value;
            OptimizeTextForTts(Some(t)) == t[c.open + 1..c.close] &&
            t[c.open] == '"' && t[c.close] == '"' &&
            OccursAt(t, CorrectedKey, c.key) && c.key + |CorrectedKey| < c.open &&
            Avoids(t, '}', c.key + |CorrectedKey|, c.open)
  {
  }

  // ---------------------------------------------------------------------------
  // generateInstructorAudio
  // ---------------------------------------------------------------------------

  /** `generateInstructorAudio(text, sessionId)`: the audio file under
      `uploads/tts`, or `None` when synthesis or writing fails. */
  function GenerateInstructorAudio(text: Option<string>, sessionId: string, synthesize: string -> bool): (r: Option<string>)
    ensures r.Some? <==> synthesize(OptimizeTextForTts(text))
    ensures r.Some? ==> r.value == "uploads/tts/" + sessionId + "_mentor_feedback.mp3"
  {
    if synthesize(OptimizeTextForTts(text)) then Some("uploads/tts/" + sessionId + "_mentor_feedback.mp3") else None
  }
}
