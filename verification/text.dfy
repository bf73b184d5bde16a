/** ASCII string helpers shared by the model: character classes as JavaScript's
    regular expressions see them (`\s`, `\w`, `[a-zA-Z]`), `trim`, whitespace-run
    replacement (`replace(/\s+/g, rep)`), `split` and `join`, substring search,
    and decimal digit strings. Non-ASCII characters are treated as ordinary
    non-space, non-word characters. */
module Text {
  import opened Wrappers

  // ---------------------------------------------------------------------------
  // Character classes
  // ---------------------------------------------------------------------------

  /** The ASCII members of JavaScript's `\s` class (space, tab, line feed,
      carriage return, vertical tab, form feed). */
  predicate IsSpace(c: char) {
    c == ' ' || c == '\t' || c == '\n' || c == '\r' || c == '\U{000B}' || c == '\U{000C}'
  }

  predicate IsDigit(c: char) { '0' <= c <= '9' }
  predicate IsUpper(c: char) { 'A' <= c <= 'Z' }
  predicate IsLower(c: char) { 'a' <= c <= 'z' }
  predicate IsLetter(c: char) { IsUpper(c) || IsLower(c) }

  /** JavaScript's `\w`: `[A-Za-z0-9_]`. */
  predicate IsWordChar(c: char) { IsLetter(c) || IsDigit(c) || c == '_' }

  /** `toLowerCase` on one ASCII character. */
  function ToLower(c: char): char {
    if IsUpper(c) then (c as int + 32) as char else c
  }

  function Lower(s: string): (r: string)
    ensures |r| == |s|
    ensures forall i :: 0 <= i < |s| ==> r[i] == ToLower(s[i])
  {
    seq(|s|, i requires 0 <= i < |s| => ToLower(s[i]))
  }

  /** `join("")`: the pieces concatenated in order. */
  function Concat(parts: seq<string>): string
    decreases |parts|
  {
    if |parts| == 0 then "" else parts[0] + Concat(parts[1..])
  }

  /** A piece in front is concatenated in front. */
  lemma ConcatPrepend(x: string, parts: seq<string>)
    ensures Concat([x] + parts) == x + Concat(parts)
  {
    assert ([x] + parts)[1..] == parts;
  }

  /** A sequence is its prefix followed by the rest. */
  lemma TakeDropAppend<T>(s: seq<T>, k: nat)
    requires k <= |s|
    ensures s[..k] + s[k..] == s
  {
  }

  lemma ThreeParts<T>(s: seq<T>, a: nat, b: nat)
    requires a <= b <= |s|
    ensures s[..a] + (s[a..b] + s[b..]) == s
  {
    assert s[a..] == s[a..b] + s[b..];
  }

  /** Concatenation regrouped. */
  lemma AppendAssoc<T>(a: seq<T>, b: seq<T>, c: seq<T>)
    ensures a + b + c == a + (b + c)
  {
  }

  lemma LowerAppend(a: string, b: string)
    ensures Lower(a + b) == Lower(a) + Lower(b)
  {
  }

  predicate HasNoSpace(s: string) {
    forall i :: 0 <= i < |s| ==> !IsSpace(s[i])
  }

  predicate AllSpace(s: string) {
    forall i :: 0 <= i < |s| ==> IsSpace(s[i])
  }

  // ---------------------------------------------------------------------------
  // trim
  // ---------------------------------------------------------------------------

  /** Length of the leading whitespace run. */
  function LeadSpaceCount(s: string): (n: nat)
    ensures n <= |s|
    ensures forall i :: 0 <= i < n ==> IsSpace(s[i])
    ensures n < |s| ==> !IsSpace(s[n])
  {
    if |s| > 0 && IsSpace(s[0]) then 1 + LeadSpaceCount(s[1..]) else 0
  }

  /** Length of the trailing whitespace run. */
  function TrailSpaceCount(s: string): (n: nat)
    ensures n <= |s|
    ensures forall i :: |s| - n <= i < |s| ==> IsSpace(s[i])
    ensures n < |s| ==> !IsSpace(s[|s| - n - 1])
  {
    if |s| > 0 && IsSpace(s[|s| - 1]) then 1 + TrailSpaceCount(s[..|s| - 1]) else 0
  }

  predicate NoEdgeSpace(s: string) {
    |s| > 0 ==> !IsSpace(s[0]) && !IsSpace(s[|s| - 1])
  }

  /** `String.prototype.trim`: the slice left after dropping leading and trailing
      whitespace. */
  function Trim(s: string): (r: string)
    ensures NoEdgeSpace(r)
    ensures LeadSpaceCount(s) + |r| <= |s|
    ensures r == s[LeadSpaceCount(s)..LeadSpaceCount(s) + |r|]
    ensures AllSpace(s[..LeadSpaceCount(s)]) && AllSpace(s[LeadSpaceCount(s) + |r|..])
  {
    var a := LeadSpaceCount(s);
    var t := s[a..];
    var b := TrailSpaceCount(t);
    assert t[..|t| - b] == s[a..a + (|t| - b)];
    t[..|t| - b]
  }

  lemma TrimTrimmed(s: string)
    requires NoEdgeSpace(s)
    ensures Trim(s) == s
  {
    if |s| > 0 {
      assert LeadSpaceCount(s) == 0;
      assert TrailSpaceCount(s) == 0;
    }
  }

  lemma TrimIdempotent(s: string)
    ensures Trim(Trim(s)) == Trim(s)
  {
    TrimTrimmed(Trim(s));
  }

  lemma TrimNoSpace(s: string)
    requires HasNoSpace(s)
    ensures Trim(s) == s
  {
    TrimTrimmed(s);
  }

  // ---------------------------------------------------------------------------
  // Single spacing: every whitespace character is ' ' and stands alone
  // ---------------------------------------------------------------------------

  predicate SingleSpaced(s: string) {
    forall i :: 0 <= i < |s| && IsSpace(s[i]) ==> s[i] == ' ' && (i + 1 < |s| ==> !IsSpace(s[i + 1]))
  }

  lemma SingleSpacedSlice(s: string, a: nat, b: nat)
    requires a <= b <= |s|
    requires SingleSpaced(s)
    ensures SingleSpaced(s[a..b])
  {
    var t := s[a..b];
    forall i | 0 <= i < |t| && IsSpace(t[i])
      ensures t[i] == ' ' && (i + 1 < |t| ==> !IsSpace(t[i + 1]))
    {
      assert t[i] == s[a + i];
      if i + 1 < |t| {
        assert t[i + 1] == s[a + i + 1];
      }
    }
  }

  lemma SingleSpacedTrim(s: string)
    requires SingleSpaced(s)
    ensures SingleSpaced(Trim(s))
  {
    SingleSpacedSlice(s, LeadSpaceCount(s), LeadSpaceCount(s) + |Trim(s)|);
  }

  lemma SingleSpacedCons(c: char, x: string)
    requires SingleSpaced(x)
    requires IsSpace(c) ==> c == ' ' && (|x| > 0 ==> !IsSpace(x[0]))
    ensures SingleSpaced([c] + x)
  {
    var s := [c] + x;
    forall i | 0 <= i < |s| && IsSpace(s[i])
      ensures s[i] == ' ' && (i + 1 < |s| ==> !IsSpace(s[i + 1]))
    {
      if i > 0 {
        assert s[i] == x[i - 1];
        if i + 1 < |s| {
          assert s[i + 1] == x[i];
        }
      }
    }
  }

  // ---------------------------------------------------------------------------
  // replace(/\s+/g, rep)
  // ---------------------------------------------------------------------------

  /** Replaces every maximal whitespace run of `s` by `rep`, as
      `s.replace(/\s+/g, rep)` does. */
  function ReplaceSpaceRuns(s: string, rep: string): (r: string)
    ensures |s| > 0 && !IsSpace(s[0]) ==> |r| > 0 && r[0] == s[0]
    ensures |s| > 0 && IsSpace(s[0]) ==> |rep| <= |r| && r[..|rep|] == rep
    ensures |s| == 0 ==> r == ""
    decreases |s|
  {
    if |s| == 0 then ""
    else if IsSpace(s[0]) then rep + ReplaceSpaceRuns(s[LeadSpaceCount(s)..], rep)
    else [s[0]] + ReplaceSpaceRuns(s[1..], rep)
  }

  /** `s.replace(/\s+/g, " ")`. */
  function CollapseSpaces(s: string): string {
    ReplaceSpaceRuns(s, " ")
  }

  /** After collapsing, every whitespace character is a lone ' '. */
  lemma {:induction false} CollapseSingleSpaced(s: string)
    ensures SingleSpaced(CollapseSpaces(s))
    decreases |s|
  {
    if |s| == 0 {
    } else if IsSpace(s[0]) {
      var t := s[LeadSpaceCount(s)..];
      CollapseSingleSpaced(t);
      SingleSpacedCons(' ', CollapseSpaces(t));
    } else {
      CollapseSingleSpaced(s[1..]);
      SingleSpacedCons(s[0], CollapseSpaces(s[1..]));
    }
  }

  /** Collapsing a single-spaced string changes nothing. */
  lemma {:induction false} CollapseFixesSingleSpaced(s: string)
    requires SingleSpaced(s)
    ensures CollapseSpaces(s) == s
    decreases |s|
  {
    if |s| == 0 {
    } else {
      SingleSpacedSlice(s, 1, |s|);
      if IsSpace(s[0]) {
        assert LeadSpaceCount(s) == 1 by {
          if |s| > 1 { assert !IsSpace(s[1]); }
        }
      }
      CollapseFixesSingleSpaced(s[1..]);
    }
  }

  /** Runs replaced by a replacement without whitespace leave no whitespace. */
  lemma {:induction false} ReplaceSpaceRunsNoSpace(s: string, rep: string)
    requires HasNoSpace(rep)
    ensures HasNoSpace(ReplaceSpaceRuns(s, rep))
    decreases |s|
  {
    if |s| == 0 {
    } else if IsSpace(s[0]) {
      ReplaceSpaceRunsNoSpace(s[LeadSpaceCount(s)..], rep);
    } else {
      ReplaceSpaceRunsNoSpace(s[1..], rep);
    }
  }

  /** A whitespace run at the front becomes one `rep`, however long it is. */
  lemma ReplaceSpaceRunsLeadingRun(w: string, q: string, rep: string)
    requires |w| > 0 && AllSpace(w)
    requires |q| > 0 ==> !IsSpace(q[0])
    ensures ReplaceSpaceRuns(w + q, rep) == rep + ReplaceSpaceRuns(q, rep)
  {
    var s := w + q;
    assert LeadSpaceCount(s) == |w| by {
      LeadSpaceCountPrefix(w, q);
    }
    assert s[|w|..] == q;
  }

  lemma {:induction false} LeadSpaceCountPrefix(w: string, q: string)
    requires AllSpace(w)
    requires |q| > 0 ==> !IsSpace(q[0])
    ensures LeadSpaceCount(w + q) == |w|
    decreases |w|
  {
    if |w| > 0 {
      assert (w + q)[1..] == w[1..] + q;
      LeadSpaceCountPrefix(w[1..], q);
    } else {
      assert w + q == q;
    }
  }

  /** The leading whitespace run is determined by where the first non-space is. */
  lemma {:induction false} LeadSpaceCountIs(s: string, n: nat)
    requires n <= |s|
    requires forall i :: 0 <= i < n ==> IsSpace(s[i])
    requires n < |s| ==> !IsSpace(s[n])
    ensures LeadSpaceCount(s) == n
    decreases n
  {
    if n > 0 {
      LeadSpaceCountIs(s[1..], n - 1);
    }
  }

  /** The trailing whitespace run is determined by where the last non-space is. */
  lemma {:induction false} TrailSpaceCountIs(s: string, n: nat)
    requires n <= |s|
    requires forall i :: |s| - n <= i < |s| ==> IsSpace(s[i])
    requires n < |s| ==> !IsSpace(s[|s| - n - 1])
    ensures TrailSpaceCount(s) == n
    decreases n
  {
    if n > 0 {
      TrailSpaceCountIs(s[..|s| - 1], n - 1);
    }
  }

  /** Trimming removes exactly the whitespace padding around a trimmed text. */
  lemma TrimPadded(l: string, x: string, r: string)
    requires AllSpace(l) && AllSpace(r) && |x| > 0 && NoEdgeSpace(x)
    ensures Trim(l + x + r) == x
  {
    var s := l + x + r;
    LeadSpaceCountIs(s, |l|);
    var t := s[|l|..];
    assert t == x + r;
    TrailSpaceCountIs(t, |r|);
    assert t[..|t| - |r|] == x;
  }

  /** No whitespace run straddles the seam, so the replacement distributes. */
  lemma {:induction false} ReplaceSpaceRunsAppend(p: string, q: string, rep: string)
    requires |p| > 0 ==> !IsSpace(p[|p| - 1])
    ensures ReplaceSpaceRuns(p + q, rep) == ReplaceSpaceRuns(p, rep) + ReplaceSpaceRuns(q, rep)
    decreases |p|, 1
  {
    if |p| == 0 {
      assert p + q == q;
    } else if IsSpace(p[0]) {
      ReplaceSpaceRunsAppendRun(p, q, rep);
    } else {
      ReplaceSpaceRunsAppendChar(p, q, rep);
    }
  }

  lemma {:induction false} ReplaceSpaceRunsAppendRun(p: string, q: string, rep: string)
    requires |p| > 0 && IsSpace(p[0]) && !IsSpace(p[|p| - 1])
    ensures ReplaceSpaceRuns(p + q, rep) == ReplaceSpaceRuns(p, rep) + ReplaceSpaceRuns(q, rep)
    decreases |p|, 0
  {
    var s := p + q;
    var n := LeadSpaceCount(p);
    assert n < |p|;
    LeadSpaceCountIs(s, n);
    assert s[n..] == p[n..] + q;
    ReplaceSpaceRunsAppend(p[n..], q, rep);
    AppendAssoc(rep, ReplaceSpaceRuns(p[n..], rep), ReplaceSpaceRuns(q, rep));
  }

  lemma {:induction false} ReplaceSpaceRunsAppendChar(p: string, q: string, rep: string)
    requires |p| > 0 && !IsSpace(p[0]) && !IsSpace(p[|p| - 1])
    ensures ReplaceSpaceRuns(p + q, rep) == ReplaceSpaceRuns(p, rep) + ReplaceSpaceRuns(q, rep)
    decreases |p|, 0
  {
    var s := p + q;
    assert s[1..] == p[1..] + q;
    ReplaceSpaceRunsAppend(p[1..], q, rep);
    AppendAssoc([p[0]], ReplaceSpaceRuns(p[1..], rep), ReplaceSpaceRuns(q, rep));
  }

  // ---------------------------------------------------------------------------
  // Sub-sequences (what is left after deleting characters)
  // ---------------------------------------------------------------------------

  /** `a` can be obtained from `b` by deleting characters. */
  predicate IsSubseq(a: string, b: string)
    decreases |b|
  {
    |a| == 0 ||
    (|b| > 0 && ((a[0] == b[0] && IsSubseq(a[1..], b[1..])) || IsSubseq(a, b[1..])))
  }

  /** The non-whitespace characters of `s`, in order. */
  function NonSpace(s: string): (r: string)
    ensures HasNoSpace(r)
    ensures |r| <= |s|
  {
    if |s| == 0 then ""
    else if IsSpace(s[0]) then NonSpace(s[1..])
    else [s[0]] + NonSpace(s[1..])
  }

  lemma {:induction false} NonSpaceAppend(a: string, b: string)
    ensures NonSpace(a + b) == NonSpace(a) + NonSpace(b)
    decreases |a|
  {
    if |a| == 0 {
      assert a + b == b;
    } else {
      assert (a + b)[1..] == a[1..] + b;
      NonSpaceAppend(a[1..], b);
    }
  }

  lemma {:induction false} NonSpaceAllSpace(w: string)
    requires AllSpace(w)
    ensures NonSpace(w) == ""
    decreases |w|
  {
    if |w| > 0 {
      NonSpaceAllSpace(w[1..]);
    }
  }

  lemma {:induction false} NonSpaceNoSpace(w: string)
    requires HasNoSpace(w)
    ensures NonSpace(w) == w
    decreases |w|
  {
    if |w| > 0 {
      NonSpaceNoSpace(w[1..]);
    }
  }

  lemma {:induction false} SubseqRefl(a: string)
    ensures IsSubseq(a, a)
    decreases |a|
  {
    if |a| > 0 {
      SubseqRefl(a[1..]);
    }
  }

  lemma {:induction false} SubseqTrans(a: string, b: string, c: string)
    requires IsSubseq(a, b) && IsSubseq(b, c)
    ensures IsSubseq(a, c)
    decreases |c|
  {
    if |a| > 0 {
      if b[0] == c[0] && IsSubseq(b[1..], c[1..]) {
        if a[0] == b[0] && IsSubseq(a[1..], b[1..]) {
          SubseqTrans(a[1..], b[1..], c[1..]);
        } else {
          SubseqTrans(a, b[1..], c[1..]);
        }
      } else {
        SubseqTrans(a, b, c[1..]);
      }
    }
  }

  lemma {:induction false} SubseqCons(x: char, a: string, b: string)
    requires IsSubseq(a, b)
    ensures IsSubseq([x] + a, [x] + b)
  {
    assert ([x] + a)[1..] == a;
    assert ([x] + b)[1..] == b;
  }

  /** A subsequence of `b2` is a subsequence of any `b1 + b2`. */
  lemma {:induction false} SubseqSuffix(a: string, b1: string, b2: string)
    requires IsSubseq(a, b2)
    ensures IsSubseq(a, b1 + b2)
    decreases |b1|
  {
    if |b1| == 0 {
      assert b1 + b2 == b2;
    } else {
      assert (b1 + b2)[1..] == b1[1..] + b2;
      SubseqSuffix(a, b1[1..], b2);
    }
  }

  lemma {:induction false} SubseqAppend(a1: string, b1: string, a2: string, b2: string)
    requires IsSubseq(a1, b1) && IsSubseq(a2, b2)
    ensures IsSubseq(a1 + a2, b1 + b2)
    decreases |b1|
  {
    if |a1| == 0 {
      assert a1 + a2 == a2;
      SubseqSuffix(a2, b1, b2);
    } else {
      assert (b1 + b2)[1..] == b1[1..] + b2;
      if a1[0] == b1[0] && IsSubseq(a1[1..], b1[1..]) {
        assert (a1 + a2)[1..] == a1[1..] + a2;
        SubseqAppend(a1[1..], b1[1..], a2, b2);
      } else {
        SubseqAppend(a1, b1[1..], a2, b2);
      }
    }
  }

  /** Deleting characters deletes non-whitespace characters too. */
  lemma {:induction false} SubseqNonSpace(a: string, b: string)
    requires IsSubseq(a, b)
    ensures IsSubseq(NonSpace(a), NonSpace(b))
    decreases |b|
  {
    if |a| == 0 {
    } else if a[0] == b[0] && IsSubseq(a[1..], b[1..]) {
      SubseqNonSpace(a[1..], b[1..]);
      if !IsSpace(a[0]) {
        SubseqCons(a[0], NonSpace(a[1..]), NonSpace(b[1..]));
      }
    } else {
      SubseqNonSpace(a, b[1..]);
    }
  }

  // ---------------------------------------------------------------------------
  // split / join on one character
  // ---------------------------------------------------------------------------

  function Join(parts: seq<string>, sep: string): string {
    if |parts| == 0 then ""
    else if |parts| == 1 then parts[0]
    else parts[0] + sep + Join(parts[1..], sep)
  }

  /** `s.split(c)` for a one-character separator: the pieces between separators,
      always at least one. */
  function Split(s: string, c: char): (parts: seq<string>)
    ensures |parts| >= 1
    ensures forall i :: 0 <= i < |parts| ==> c !in parts[i]
  {
    if |s| == 0 then [""]
    else
      var rest := Split(s[1..], c);
      if s[0] == c then [""] + rest
      else [[s[0]] + rest[0]] + rest[1..]
  }

  /** Joining the pieces with the separator gives back the original string. */
  lemma {:induction false} SplitJoin(s: string, c: char)
    ensures Join(Split(s, c), [c]) == s
    decreases |s|
  {
    if |s| > 0 {
      SplitJoin(s[1..], c);
      var rest := Split(s[1..], c);
      if s[0] != c {
        if |rest| > 1 {
          assert Join([[s[0]] + rest[0]] + rest[1..], [c]) == [s[0]] + rest[0] + [c] + Join(rest[1..], [c]);
        }
        assert s == [s[0]] + s[1..];
      }
    }
  }

  /** Splitting distributes over a separator: the pieces of `x` and of `y`. */
  lemma {:induction false} SplitAppend(x: string, c: char, y: string)
    ensures Split(x + [c] + y, c) == Split(x, c) + Split(y, c)
    decreases |x|
  {
    if |x| == 0 {
      assert x + [c] + y == [c] + y;
      assert ([c] + y)[1..] == y;
    } else {
      assert (x + [c] + y)[1..] == x[1..] + [c] + y;
      SplitAppend(x[1..], c, y);
    }
  }

  /** A string without the separator is a single piece. */
  lemma {:induction false} SplitNone(a: string, c: char)
    requires c !in a
    ensures Split(a, c) == [a]
    decreases |a|
  {
    if |a| > 0 {
      SplitNone(a[1..], c);
      assert [a[0]] + a[1..] == a;
    }
  }

  lemma SplitCons(a: string, c: char, b: string)
    requires c !in a
    ensures Split(a + [c] + b, c) == [a] + Split(b, c)
  {
    SplitAppend(a, c, b);
    SplitNone(a, c);
  }

  // ---------------------------------------------------------------------------
  // Substrings
  // ---------------------------------------------------------------------------

  predicate IsPrefix(p: string, s: string) {
    |p| <= |s| && s[..|p|] == p
  }

  /** `pat` occurs in `s` starting at index `i`. */
  predicate OccursAt(s: string, pat: string, i: int) {
    0 <= i && i + |pat| <= |s| && s[i..i + |pat|] == pat
  }

  /** A pattern starts with its first character. */
  lemma OccursAtHead(s: string, pat: string, i: int)
    requires |pat| > 0 && OccursAt(s, pat, i)
    ensures s[i] == pat[0]
  {
    assert s[i..i + |pat|][0] == s[i];
  }

  /** `s.includes(pat)`. */
  predicate Contains(s: string, pat: string) {
    exists i | 0 <= i <= |s| - |pat| :: OccursAt(s, pat, i)
  }

  /** A string without the pattern's first character never contains it. */
  lemma NotContainsHead(s: string, pat: string)
    requires |pat| > 0 && pat[0] !in s
    ensures !Contains(s, pat)
  {
    forall i | 0 <= i <= |s| - |pat|
      ensures !OccursAt(s, pat, i)
    {
      if OccursAt(s, pat, i) {
        OccursAtHead(s, pat, i);
      }
    }
  }

  /** Index of the first occurrence of `pat` in `s` at or after `j`, if any. */
  function FindFrom(s: string, pat: string, j: nat): (r: Option<nat>)
    ensures r.Some? ==> j <= r.value && OccursAt(s, pat, r.value)
    ensures r.Some? ==> forall i :: j <= i < r.value ==> !OccursAt(s, pat, i)
    ensures r.None? ==> forall i :: j <= i ==> !OccursAt(s, pat, i)
    decreases |s| - j
  {
    if j + |pat| > |s| then None
    else if OccursAt(s, pat, j) then Some(j)
    else FindFrom(s, pat, j + 1)
  }

  /** Index of the first occurrence of `pat` in `s`, if any. */
  function Find(s: string, pat: string): (r: Option<nat>)
    ensures r.Some? ==> OccursAt(s, pat, r.value)
    ensures r.Some? ==> forall i :: 0 <= i < r.value ==> !OccursAt(s, pat, i)
    ensures r.None? <==> !Contains(s, pat)
  {
    FindFrom(s, pat, 0)
  }

  lemma NoOccurrenceInPrefix(s: string, pat: string, k: nat)
    requires |pat| > 0 && k <= |s|
    requires forall i :: 0 <= i < k ==> !OccursAt(s, pat, i)
    ensures !Contains(s[..k], pat)
  {
    forall i | 0 <= i <= k - |pat|
      ensures !OccursAt(s[..k], pat, i)
    {
      assert s[..k][i..i + |pat|] == s[i..i + |pat|];
      assert !OccursAt(s, pat, i);
    }
  }

  /** `s.split(sep)` for a multi-character separator such as "-->". */
  function SplitOn(s: string, sep: string): (parts: seq<string>)
    requires |sep| > 0
    ensures |parts| >= 1
    ensures forall i :: 0 <= i < |parts| ==> !Contains(parts[i], sep)
    ensures Join(parts, sep) == s
    ensures |parts| == 1 <==> !Contains(s, sep)
    decreases |s|
  {
    match Find(s, sep)
    case None => [s]
    case Some(k) =>
      assert s == s[..k] + sep + s[k + |sep|..];
      NoOccurrenceInPrefix(s, sep, k);
      [s[..k]] + SplitOn(s[k + |sep|..], sep)
  }

  /** The text of `s` before the first occurrence of `sep`, or all of `s` when
      there is none. */
  function Before(s: string, sep: string): (r: string)
    ensures Find(s, sep).None? ==> r == s
    ensures Find(s, sep).Some? ==> r == s[..Find(s, sep).value]
  {
    match Find(s, sep)
    case None => s
    case Some(k) => s[..k]
  }

  /** The first piece of `s.split(sep)` is the text before the first separator,
      and when there is one, the second piece is the text between it and the
      next separator. */
  lemma SplitOnHead(s: string, sep: string)
    requires |sep| > 0
    ensures SplitOn(s, sep)[0] == Before(s, sep)
    ensures Find(s, sep).Some? ==>
      |SplitOn(s, sep)| >= 2 && SplitOn(s, sep)[1] == Before(s[Find(s, sep).value + |sep|..], sep)
  {
    match Find(s, sep)
    case None =>
    case Some(k) =>
      var rest := s[k + |sep|..];
      assert SplitOn(s, sep) == [s[..k]] + SplitOn(rest, sep);
      SplitOnHead(rest, sep);
  }

  // ---------------------------------------------------------------------------
  // Decimal digits
  // ---------------------------------------------------------------------------

  predicate AllDigits(s: string) {
    forall i :: 0 <= i < |s| ==> IsDigit(s[i])
  }

  /** The value of a decimal digit string (most significant digit first). */
  function DigitsValue(s: string): nat
    requires AllDigits(s)
  {
    if |s| == 0 then 0 else 10 * DigitsValue(s[..|s| - 1]) + (s[|s| - 1] as int - '0' as int)
  }

  function Digit(d: nat): (c: char)
    requires d < 10
    ensures IsDigit(c) && c as int - '0' as int == d
  {
    ('0' as int + d) as char
  }

  /** Decimal rendering of a natural number, as `String(n)` gives it. */
  function NatToString(n: nat): (s: string)
    ensures |s| > 0 && AllDigits(s)
    ensures DigitsValue(s) == n
    decreases n
  {
    if n < 10 then [Digit(n)]
    else
      var s := NatToString(n / 10) + [Digit(n % 10)];
      assert s[..|s| - 1] == NatToString(n / 10);
      s
  }

  lemma NatToStringInjective(m: nat, n: nat)
    requires NatToString(m) == NatToString(n)
    ensures m == n
  {
  }

  /** `n` written with exactly two digits (requires `n < 100`). */
  function Pad2(n: nat): (s: string)
    requires n < 100
    ensures |s| == 2 && AllDigits(s) && DigitsValue(s) == n
  {
    var s := [Digit(n / 10), Digit(n % 10)];
    assert s[..1] == [Digit(n / 10)];
    assert DigitsValue(s[..1]) == n / 10 by {
      assert s[..1][..0] == "";
    }
    s
  }

  /** `n` written with exactly three digits (requires `n < 1000`). */
  function Pad3(n: nat): (s: string)
    requires n < 1000
    ensures |s| == 3 && AllDigits(s) && DigitsValue(s) == n
  {
    var s := [Digit(n / 100), Digit((n / 10) % 10), Digit(n % 10)];
    assert s[..2] == [Digit(n / 100), Digit((n / 10) % 10)];
    assert s[..2][..1] == [Digit(n / 100)];
    assert DigitsValue(s[..2][..1]) == n / 100 by {
      assert s[..2][..1][..0] == "";
    }
    assert DigitsValue(s[..2]) == 10 * (n / 100) + (n / 10) % 10;
    assert 10 * (10 * (n / 100) + (n / 10) % 10) + n % 10 == n;
    s
  }

  lemma DigitsHaveNoSpace(s: string)
    requires AllDigits(s)
    ensures HasNoSpace(s)
  {
  }
}
