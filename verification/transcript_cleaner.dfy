/** `cleanTranscript`: the text normaliser run on the speech-to-text output
    before any metric is computed. Each regular-expression replacement of the
    original is one function here, applied in the original's order; the
    lemmas state the shape of the cleaned text (no edge whitespace, single
    spaces, one space after every comma, no doubled punctuation), what the
    repeated-word rules do, and that the cleaner is not idempotent. */
module TranscriptCleaner {
  import opened Wrappers
  import opened Text

  // ---------------------------------------------------------------------------
  // Step 1: line endings
  // ---------------------------------------------------------------------------

  /** `replace(/\r\n/g, "\n")`. */
  function CrlfToLf(s: string): (r: string)
    ensures |r| <= |s|
    decreases |s|
  {
    if |s| == 0 then ""
    else if |s| >= 2 && s[0] == '\r' && s[1] == '\n' then "\n" + CrlfToLf(s[2..])
    else [s[0]] + CrlfToLf(s[1..])
  }

  // ---------------------------------------------------------------------------
  // Step 2: whitespace, keeping paragraph breaks
  // ---------------------------------------------------------------------------

  /** Length of the leading run of line feeds. */
  function NewlineRun(s: string): (n: nat)
    ensures n <= |s|
    ensures forall i :: 0 <= i < n ==> s[i] == '\n'
    ensures n < |s| ==> s[n] != '\n'
  {
    if |s| > 0 && s[0] == '\n' then 1 + NewlineRun(s[1..]) else 0
  }

  /** The placeholder that stands for a paragraph break while whitespace is
      being collapsed. */
  const Marker := "<<PARA>>"

  /** `replace(/\n{2,}/g, " <<PARA>> ")`. */
  function MarkParagraphs(s: string): string
    decreases |s|
  {
    if |s| == 0 then ""
    else if NewlineRun(s) >= 2 then " " + Marker + " " + MarkParagraphs(s[NewlineRun(s)..])
    else [s[0]] + MarkParagraphs(s[1..])
  }

  /** `replace(/\n/g, " ")`. */
  function NewlinesToSpaces(s: string): (r: string)
    ensures |r| == |s|
    ensures forall i :: 0 <= i < |s| ==> r[i] == (if s[i] == '\n' then ' ' else s[i])
  {
    seq(|s|, i requires 0 <= i < |s| => if s[i] == '\n' then ' ' else s[i])
  }

  /** `replace(pat, rep)` with a global pattern that has no special characters:
      occurrences are found left to right and do not overlap. */
  function ReplaceAll(s: string, pat: string, rep: string): string
    requires |pat| > 0
    decreases |s|
  {
    if |s| == 0 then ""
    else if IsPrefix(pat, s) then rep + ReplaceAll(s[|pat|..], pat, rep)
    else [s[0]] + ReplaceAll(s[1..], pat, rep)
  }

  /** Step 2 as a whole: paragraph breaks are marked, every other line feed
      and whitespace run becomes one space, the text is trimmed, and the marks
      become blank lines. */
  function NormalizeWhitespace(t: string): string {
    ReplaceAll(Trim(CollapseSpaces(NewlinesToSpaces(MarkParagraphs(t)))), Marker, "\n\n")
  }

  // ---------------------------------------------------------------------------
  // Step 3: no whitespace before punctuation
  // ---------------------------------------------------------------------------

  /** `replace(/\s+p/g, "p")`: a whitespace run directly before `p` is
      deleted; a run followed by anything else is kept whole. */
  function DropSpaceBefore(s: string, p: char): string
    decreases |s|
  {
    if |s| == 0 then ""
    else if IsSpace(s[0]) then
      var n := LeadSpaceCount(s);
      if n < |s| && s[n] == p then [p] + DropSpaceBefore(s[n + 1..], p)
      else s[..n] + DropSpaceBefore(s[n..], p)
    else [s[0]] + DropSpaceBefore(s[1..], p)
  }

  /** The four replacements of step 3, for `,` `.` `?` `!` in that order. */
  function FixPunctuationSpacing(s: string): string {
    DropSpaceBefore(DropSpaceBefore(DropSpaceBefore(DropSpaceBefore(s, ','), '.'), '?'), '!')
  }

  // ---------------------------------------------------------------------------
  // Step 4: repeated punctuation
  // ---------------------------------------------------------------------------

  /** The characters of the class `[?!.,]`. */
  predicate IsPunct(c: char) {
    c == '?' || c == '!' || c == '.' || c == ','
  }

  /** Length of the leading run of `c`. */
  function RunOf(s: string, c: char): (n: nat)
    ensures n <= |s|
    ensures forall i :: 0 <= i < n ==> s[i] == c
    ensures n < |s| ==> s[n] != c
  {
    if |s| > 0 && s[0] == c then 1 + RunOf(s[1..], c) else 0
  }

  /** `replace(/([?!.,])\1{1,}/g, "$1")`: a run of one punctuation character
      becomes a single copy. */
  function CollapsePunctuation(s: string): (r: string)
    ensures |s| > 0 ==> |r| > 0 && r[0] == s[0]
    decreases |s|
  {
    if |s| == 0 then ""
    else if IsPunct(s[0]) && |s| > 1 && s[1] == s[0] then [s[0]] + CollapsePunctuation(s[RunOf(s, s[0])..])
    else [s[0]] + CollapsePunctuation(s[1..])
  }

  // ---------------------------------------------------------------------------
  // Steps 5 and 6: immediately repeated words
  // ---------------------------------------------------------------------------

  /** Length of the leading run of word characters. */
  function WordLen(s: string): (n: nat)
    ensures n <= |s|
    ensures |s| > 0 && IsWordChar(s[0]) ==> n > 0
  {
    if |s| > 0 && IsWordChar(s[0]) then 1 + WordLen(s[1..]) else 0
  }

  /** The leading word is all word characters and ends before a character
      that is none. */
  lemma {:induction false} WordLenSpec(s: string)
    ensures forall i :: 0 <= i < WordLen(s) ==> IsWordChar(s[i])
    ensures WordLen(s) < |s| ==> !IsWordChar(s[WordLen(s)])
    decreases |s|
  {
    if |s| > 0 && IsWordChar(s[0]) {
      WordLenSpec(s[1..]);
      assert forall i :: 1 <= i < WordLen(s) ==> s[i] == s[1..][i - 1];
    }
  }

  /** The alternatives of step 6's group. */
  const RepeatFillers: set<string> := {"uh", "um", "okay", "right", "like"}

  /** Step 5's group `\w+` takes every word. */
  predicate AnyWord(w: string) {
    true
  }

  /** Step 6's group takes the listed fillers, compared case-insensitively. */
  predicate IsRepeatFiller(w: string) {
    Lower(w) in RepeatFillers
  }

  /** End of the whitespace run that starts at `n`. */
  function SpaceEnd(s: string, n: nat): (m: nat)
    requires n <= |s|
    ensures n <= m <= |s|
  {
    n + LeadSpaceCount(s[n..])
  }

  /** Equal up to letter case, as a back-reference compares under flag `i`:
      compared character by character. */
  predicate SameLower(a: string, b: string)
    decreases |a|
  {
    |a| == |b| && (|a| == 0 || (ToLower(a[0]) == ToLower(b[0]) && SameLower(a[1..], b[1..])))
  }

  /** The character-by-character comparison agrees with comparing the
      lower-cased texts. */
  lemma {:induction false} SameLowerIff(a: string, b: string)
    ensures SameLower(a, b) <==> Lower(a) == Lower(b)
    decreases |a|
  {
    if |a| == |b| && |a| > 0 {
      SameLowerIff(a[1..], b[1..]);
      assert Lower(a) == [ToLower(a[0])] + Lower(a[1..]);
      assert Lower(b) == [ToLower(b[0])] + Lower(b[1..]);
      if Lower(a) == Lower(b) {
        assert Lower(a)[0] == Lower(b)[0];
        assert Lower(a)[1..] == Lower(b)[1..];
      }
    }
  }

  /** At a word start, the length of the text that `\b(w)\s+\1\b` (flag
      `i`) matches there, or 0 when it does not match. The group has to be
      followed by whitespace, so it is always the whole word `s[..n]`; the
      whitespace run ends at `m` and the copy fills `s[m..m + n]`. */
  function RepeatMatch(s: string): (e: nat)
    requires |s| > 0 && IsWordChar(s[0])
    ensures e == 0 || WordLen(s) < e <= |s|
  {
    var n := WordLen(s);
    var m := SpaceEnd(s, n);
    if m > n && m + n <= |s| && SameLower(s[m..m + n], s[..n]) && (m + n == |s| || !IsWordChar(s[m + n]))
    then m + n else 0
  }

  /** The global replacement of `\b(w)\s+\1\b` by `$1`, for the words the rule
      covers. `atBoundary` says
      that the previous character is not a word character, so that `\b` holds
      before a word character here. After a match the scan resumes behind the
      second copy. */
  function CollapseRepeats(s: string, atBoundary: bool, covers: string -> bool): (r: string)
    ensures |s| > 0 ==> |r| > 0 && r[0] == s[0]
    decreases |s|
  {
    if |s| == 0 then ""
    else if atBoundary && IsWordChar(s[0]) then
      var n := WordLen(s);
      var e := RepeatMatch(s);
      if e > 0 && covers(s[..n]) then s[..n] + CollapseRepeats(s[e..], false, covers)
      else s[..n] + CollapseRepeats(s[n..], false, covers)
    else [s[0]] + CollapseRepeats(s[1..], !IsWordChar(s[0]), covers)
  }

  /** Step 5: `replace(/\b(\w+)\s+\1\b/gi, "$1")`. */
  function CollapseRepeatedWords(s: string): string {
    CollapseRepeats(s, true, AnyWord)
  }

  /** Step 6: `replace(/\b(uh|um|okay|right|like)\s+\1\b/gi, "$1")`. */
  function CollapseRepeatedFillers(s: string): string {
    CollapseRepeats(s, true, IsRepeatFiller)
  }

  // ---------------------------------------------------------------------------
  // Step 7: a space after every comma
  // ---------------------------------------------------------------------------

  /** `replace(/,([^\s])/g, ", $1")`: the character after the comma is part
      of the match, so the scan resumes behind it. */
  function SpaceAfterComma(s: string): (r: string)
    ensures |s| > 0 ==> |r| > 0 && r[0] == s[0]
    decreases |s|
  {
    if |s| == 0 then ""
    else if s[0] == ',' && |s| > 1 && !IsSpace(s[1]) then ", " + [s[1]] + SpaceAfterComma(s[2..])
    else [s[0]] + SpaceAfterComma(s[1..])
  }

  // ---------------------------------------------------------------------------
  // Step 8: split into sentences and join again
  // ---------------------------------------------------------------------------

  /** The characters of the class `[.?!]`. */
  predicate IsSentenceEnd(c: char) {
    c == '.' || c == '?' || c == '!'
  }

  /** `split(/([.?!])/)`: the pieces between sentence ends, with each
      captured sentence end kept as a piece of its own. */
  function SplitSentences(s: string): (parts: seq<string>)
    ensures |parts| % 2 == 1
    decreases |s|
  {
    if |s| == 0 then [""]
    else
      var rest := SplitSentences(s[1..]);
      if IsSentenceEnd(s[0]) then ["", [s[0]]] + rest
      else [[s[0]] + rest[0]] + rest[1..]
  }

  /** Step 8: `split(/([.?!])/).join("").replace(/\s+/g, " ").trim()`. */
  function Rejoin(s: string): string {
    Trim(CollapseSpaces(Concat(SplitSentences(s))))
  }

  // ---------------------------------------------------------------------------
  // Shape of the text between steps
  // ---------------------------------------------------------------------------

  /** No punctuation character of `[?!.,]` is directly followed by itself. */
  predicate NoDoubledPunct(s: string) {
    forall i :: 0 <= i < |s| - 1 && IsPunct(s[i]) ==> s[i + 1] != s[i]
  }

  /** Every comma that is not the last character is followed by whitespace. */
  predicate CommaSpaced(s: string) {
    forall i :: 0 <= i < |s| - 1 && s[i] == ',' ==> IsSpace(s[i + 1])
  }

  lemma {:induction false} NoDoubledCons(c: char, x: string)
    requires NoDoubledPunct(x)
    requires |x| > 0 && IsPunct(c) ==> x[0] != c
    ensures NoDoubledPunct([c] + x)
  {
    var s := [c] + x;
    forall i | 0 <= i < |s| - 1 && IsPunct(s[i])
      ensures s[i + 1] != s[i]
    {
      if i > 0 {
        assert s[i] == x[i - 1] && s[i + 1] == x[i];
      }
    }
  }

  lemma {:induction false} NoDoubledSlice(s: string, a: nat, b: nat)
    requires a <= b <= |s| && NoDoubledPunct(s)
    ensures NoDoubledPunct(s[a..b])
  {
    var t := s[a..b];
    forall i | 0 <= i < |t| - 1 && IsPunct(t[i])
      ensures t[i + 1] != t[i]
    {
      assert t[i] == s[a + i] && t[i + 1] == s[a + i + 1];
    }
  }

  /** A word followed by a text keeps the text's property: a word ends in a
      word character, which is no punctuation. */
  lemma {:induction false} NoDoubledAfterWord(w: string, x: string)
    requires forall i :: 0 <= i < |w| ==> IsWordChar(w[i])
    requires NoDoubledPunct(x)
    ensures NoDoubledPunct(w + x)
  {
    var s := w + x;
    forall i | 0 <= i < |s| - 1 && IsPunct(s[i])
      ensures s[i + 1] != s[i]
    {
      if i < |w| {
        assert false;
      }
      assert s[i] == x[i - |w|] && s[i + 1] == x[i - |w| + 1];
    }
  }

  lemma {:induction false} CommaSpacedCons(c: char, x: string)
    requires CommaSpaced(x)
    requires |x| > 0 && c == ',' ==> IsSpace(x[0])
    ensures CommaSpaced([c] + x)
  {
    var s := [c] + x;
    forall i | 0 <= i < |s| - 1 && s[i] == ','
      ensures IsSpace(s[i + 1])
    {
      if i > 0 {
        assert s[i] == x[i - 1] && s[i + 1] == x[i];
      }
    }
  }

  lemma {:induction false} CommaSpacedSlice(s: string, a: nat, b: nat)
    requires a <= b <= |s| && CommaSpaced(s)
    ensures CommaSpaced(s[a..b])
  {
    var t := s[a..b];
    forall i | 0 <= i < |t| - 1 && t[i] == ','
      ensures IsSpace(t[i + 1])
    {
      assert t[i] == s[a + i] && t[i + 1] == s[a + i + 1];
    }
  }

  /** Step 4 leaves no punctuation character doubled. */
  lemma {:induction false} CollapsePunctuationNoDoubled(s: string)
    ensures NoDoubledPunct(CollapsePunctuation(s))
    decreases |s|
  {
    if |s| > 0 {
      if IsPunct(s[0]) && |s| > 1 && s[1] == s[0] {
        var k := RunOf(s, s[0]);
        CollapsePunctuationNoDoubled(s[k..]);
        NoDoubledCons(s[0], CollapsePunctuation(s[k..]));
      } else {
        CollapsePunctuationNoDoubled(s[1..]);
        NoDoubledCons(s[0], CollapsePunctuation(s[1..]));
      }
    }
  }

  /** Steps 5 and 6 delete a whitespace run and a word after a word, so they
      cannot put two punctuation characters next to each other. */
  lemma {:induction false} CollapseRepeatsNoDoubled(s: string, atBoundary: bool, covers: string -> bool)
    requires NoDoubledPunct(s)
    ensures NoDoubledPunct(CollapseRepeats(s, atBoundary, covers))
    decreases |s|
  {
    if |s| == 0 {
    } else if atBoundary && IsWordChar(s[0]) {
      var n := WordLen(s);
      var e := RepeatMatch(s);
      var k := if e > 0 && covers(s[..n]) then e else n;
      NoDoubledSlice(s, k, |s|);
      CollapseRepeatsNoDoubled(s[k..], false, covers);
      WordLenSpec(s);
      NoDoubledAfterWord(s[..n], CollapseRepeats(s[k..], false, covers));
    } else {
      NoDoubledSlice(s, 1, |s|);
      CollapseRepeatsNoDoubled(s[1..], !IsWordChar(s[0]), covers);
      NoDoubledCons(s[0], CollapseRepeats(s[1..], !IsWordChar(s[0]), covers));
    }
  }

  /** Step 7 only inserts spaces behind commas. */
  lemma {:induction false} SpaceAfterCommaNoDoubled(s: string)
    requires NoDoubledPunct(s)
    ensures NoDoubledPunct(SpaceAfterComma(s))
    decreases |s|
  {
    if |s| == 0 {
    } else if s[0] == ',' && |s| > 1 && !IsSpace(s[1]) {
      var x := SpaceAfterComma(s[2..]);
      NoDoubledSlice(s, 2, |s|);
      SpaceAfterCommaNoDoubled(s[2..]);
      NoDoubledCons(s[1], x);
      NoDoubledCons(' ', [s[1]] + x);
      NoDoubledCons(',', [' '] + ([s[1]] + x));
      assert ", " + [s[1]] + x == [','] + ([' '] + ([s[1]] + x));
    } else {
      NoDoubledSlice(s, 1, |s|);
      SpaceAfterCommaNoDoubled(s[1..]);
      NoDoubledCons(s[0], SpaceAfterComma(s[1..]));
    }
  }

  /** After step 7 every comma is followed by whitespace, provided no comma
      was doubled: the character step 7 consumes behind a comma is then no
      comma itself. */
  lemma {:induction false} SpaceAfterCommaSpaced(s: string)
    requires NoDoubledPunct(s)
    ensures CommaSpaced(SpaceAfterComma(s))
    decreases |s|
  {
    if |s| == 0 {
    } else if s[0] == ',' && |s| > 1 && !IsSpace(s[1]) {
      var x := SpaceAfterComma(s[2..]);
      NoDoubledSlice(s, 2, |s|);
      SpaceAfterCommaSpaced(s[2..]);
      CommaSpacedCons(s[1], x);
      CommaSpacedCons(' ', [s[1]] + x);
      CommaSpacedCons(',', [' '] + ([s[1]] + x));
      assert ", " + [s[1]] + x == [','] + ([' '] + ([s[1]] + x));
    } else {
      NoDoubledSlice(s, 1, |s|);
      SpaceAfterCommaSpaced(s[1..]);
      CommaSpacedCons(s[0], SpaceAfterComma(s[1..]));
    }
  }

  /** Collapsing whitespace runs to one space keeps both properties. */
  lemma {:induction false} CollapseSpacesKeepsShape(s: string)
    ensures NoDoubledPunct(s) ==> NoDoubledPunct(CollapseSpaces(s))
    ensures CommaSpaced(s) ==> CommaSpaced(CollapseSpaces(s))
    decreases |s|
  {
    if |s| == 0 {
    } else if IsSpace(s[0]) {
      var n := LeadSpaceCount(s);
      var x := CollapseSpaces(s[n..]);
      if NoDoubledPunct(s) { NoDoubledSlice(s, n, |s|); }
      if CommaSpaced(s) { CommaSpacedSlice(s, n, |s|); }
      CollapseSpacesKeepsShape(s[n..]);
      if NoDoubledPunct(s) { NoDoubledCons(' ', x); }
      if CommaSpaced(s) { CommaSpacedCons(' ', x); }
      assert CollapseSpaces(s) == [' '] + x;
    } else {
      var x := CollapseSpaces(s[1..]);
      if NoDoubledPunct(s) { NoDoubledSlice(s, 1, |s|); }
      if CommaSpaced(s) { CommaSpacedSlice(s, 1, |s|); }
      CollapseSpacesKeepsShape(s[1..]);
      assert |x| > 0 ==> (IsSpace(s[1]) ==> x[0] == ' ') && (!IsSpace(s[1]) ==> x[0] == s[1]);
      if NoDoubledPunct(s) { NoDoubledCons(s[0], x); }
      if CommaSpaced(s) { CommaSpacedCons(s[0], x); }
      assert CollapseSpaces(s) == [s[0]] + x;
    }
  }

  /** Splitting at sentence ends and joining with "" gives the text back. */
  lemma {:induction false} ConcatSplitSentences(s: string)
    ensures Concat(SplitSentences(s)) == s
    decreases |s|
  {
    if |s| > 0 {
      var rest := SplitSentences(s[1..]);
      assert Concat(rest) == s[1..] by {
        ConcatSplitSentences(s[1..]);
      }
      assert [s[0]] + s[1..] == s;
      if IsSentenceEnd(s[0]) {
        assert ["", [s[0]]] + rest == [""] + ([[s[0]]] + rest);
        ConcatPrepend([s[0]], rest);
        ConcatPrepend("", [[s[0]]] + rest);
        assert "" + ([s[0]] + Concat(rest)) == [s[0]] + Concat(rest);
      } else {
        var tail := Concat(rest[1..]);
        assert rest[0] + tail == s[1..] by {
          assert rest == [rest[0]] + rest[1..];
          ConcatPrepend(rest[0], rest[1..]);
        }
        ConcatPrepend([s[0]] + rest[0], rest[1..]);
        AppendAssoc([s[0]], rest[0], tail);
      }
    }
  }

  /** Every comma that is not the last character is followed by exactly one
      space, and that space by a character that is no whitespace. */
  predicate CommaThenOneSpace(s: string) {
    forall i :: 0 <= i < |s| - 1 && s[i] == ',' ==> s[i + 1] == ' ' && (i + 2 < |s| ==> !IsSpace(s[i + 2]))
  }

  /** Step 8 trims and single-spaces the text and keeps the punctuation
      properties established before it. */
  lemma {:induction false} RejoinShape(t: string)
    ensures NoEdgeSpace(Rejoin(t)) && SingleSpaced(Rejoin(t))
    ensures NoDoubledPunct(t) ==> NoDoubledPunct(Rejoin(t))
    ensures CommaSpaced(t) ==> CommaSpaced(Rejoin(t))
  {
    ConcatSplitSentences(t);
    var c := CollapseSpaces(t);
    CollapseSingleSpaced(t);
    SingleSpacedTrim(c);
    CollapseSpacesKeepsShape(t);
    var a := LeadSpaceCount(c);
    if NoDoubledPunct(t) { NoDoubledSlice(c, a, a + |Trim(c)|); }
    if CommaSpaced(t) { CommaSpacedSlice(c, a, a + |Trim(c)|); }
  }

  /** Single spacing leaves no line feed and makes every comma followed by
      whitespace a comma followed by one space. */
  lemma {:induction false} SingleSpacedCommas(s: string)
    requires SingleSpaced(s) && CommaSpaced(s)
    ensures '\n' !in s
    ensures CommaThenOneSpace(s)
  {
    forall i | 0 <= i < |s|
      ensures s[i] != '\n'
    {
      if s[i] == '\n' {
        assert IsSpace(s[i]);
      }
    }
    forall i | 0 <= i < |s| - 1 && s[i] == ','
      ensures s[i + 1] == ' ' && (i + 2 < |s| ==> !IsSpace(s[i + 2]))
    {
      assert IsSpace(s[i + 1]);
    }
  }

  /** Steps 4 to 9: whatever came out of the whitespace and punctuation
      spacing steps, the cleaned text is trimmed and single-spaced, has no
      doubled punctuation and one space behind every inner comma. */
  lemma {:induction false} CleanedShape(t3: string)
    ensures var r := Trim(Rejoin(SpaceAfterComma(CollapseRepeatedFillers(CollapseRepeatedWords(CollapsePunctuation(t3))))));
      NoEdgeSpace(r) && SingleSpaced(r) && '\n' !in r && NoDoubledPunct(r) && CommaThenOneSpace(r)
  {
    var t4 := CollapsePunctuation(t3);
    var t5 := CollapseRepeatedWords(t4);
    var t6 := CollapseRepeatedFillers(t5);
    var t7 := SpaceAfterComma(t6);
    CollapsePunctuationNoDoubled(t3);
    CollapseRepeatsNoDoubled(t4, true, AnyWord);
    CollapseRepeatsNoDoubled(t5, true, IsRepeatFiller);
    SpaceAfterCommaNoDoubled(t6);
    SpaceAfterCommaSpaced(t6);
    RejoinShape(t7);
    TrimTrimmed(Rejoin(t7));
    SingleSpacedCommas(Rejoin(t7));
  }

  // ---------------------------------------------------------------------------
  // What the repeated-word rules do
  // ---------------------------------------------------------------------------

  /** A non-empty run of word characters. */
  predicate IsWord(w: string) {
    |w| > 0 && forall i :: 0 <= i < |w| ==> IsWordChar(w[i])
  }

  lemma {:induction false} WordLenOf(w: string, rest: string)
    requires forall i :: 0 <= i < |w| ==> IsWordChar(w[i])
    requires |rest| > 0 ==> !IsWordChar(rest[0])
    ensures WordLen(w + rest) == |w|
    decreases |w|
  {
    if |w| == 0 {
      assert w + rest == rest;
    } else {
      assert (w + rest)[1..] == w[1..] + rest;
      WordLenOf(w[1..], rest);
    }
  }

  /** Case-insensitively equal to a word is a word. */
  lemma {:induction false} LowerSameWord(w: string, v: string)
    requires IsWord(w) && Lower(v) == Lower(w)
    ensures IsWord(v)
  {
    forall i | 0 <= i < |v|
      ensures IsWordChar(v[i])
    {
      assert ToLower(v[i]) == ToLower(w[i]);
    }
  }

  /** A whitespace run is copied, and a word may start behind it. */
  lemma {:induction false} CollapseRepeatsSpaces(sp: string, x: string, atBoundary: bool, covers: string -> bool)
    requires |sp| > 0 && AllSpace(sp)
    ensures CollapseRepeats(sp + x, atBoundary, covers) == sp + CollapseRepeats(x, true, covers)
    decreases |sp|
  {
    var s := sp + x;
    var r := CollapseRepeats(x, true, covers);
    assert s[0] == sp[0] && s[1..] == sp[1..] + x;
    assert !IsWordChar(s[0]);
    assert CollapseRepeats(sp[1..] + x, true, covers) == sp[1..] + r by {
      if |sp| > 1 {
        CollapseRepeatsSpaces(sp[1..], x, true, covers);
      } else {
        assert sp[1..] + x == x && sp[1..] + r == r;
      }
    }
    assert [sp[0]] + (sp[1..] + r) == sp + r by {
      AppendAssoc([sp[0]], sp[1..], r);
      assert [sp[0]] + sp[1..] == sp;
    }
    CollapseRepeatsCharStep(s, atBoundary, covers);
  }

  /** A word at the end of the text is copied. */
  lemma {:induction false} CollapseRepeatsLastWord(w: string, covers: string -> bool)
    requires IsWord(w)
    ensures CollapseRepeats(w, true, covers) == w
  {
    WordLenOf(w, "");
    assert w + "" == w;
    assert w[|w|..] == "";
    assert SpaceEnd(w, |w|) == |w|;
  }

  /** A word, whitespace, and the same word up to case: the pair becomes its
      first copy, when the rule covers the word. */
  lemma {:induction false} RepeatCollapsed(w: string, sp: string, v: string, rest: string, covers: string -> bool)
    requires IsWord(w) && |sp| > 0 && AllSpace(sp) && Lower(v) == Lower(w)
    requires |rest| > 0 ==> !IsWordChar(rest[0])
    requires covers(w)
    ensures CollapseRepeats(w + sp + (v + rest), true, covers) == w + CollapseRepeats(rest, false, covers)
  {
    var s := w + sp + (v + rest);
    RepeatMatchPair(w, sp, v, rest);
    CollapseRepeatsMatchStep(s, covers, w, rest);
  }

  /** Where a repeat match of a word, whitespace and its copy ends. */
  lemma {:induction false} RepeatMatchPair(w: string, sp: string, v: string, rest: string)
    requires IsWord(w) && |sp| > 0 && AllSpace(sp) && Lower(v) == Lower(w)
    requires |rest| > 0 ==> !IsWordChar(rest[0])
    ensures WordLen(w + sp + (v + rest)) == |w|
    ensures (w + sp + (v + rest))[..|w|] == w
    ensures RepeatMatch(w + sp + (v + rest)) == |w| + |sp| + |w|
    ensures (w + sp + (v + rest))[|w| + |sp| + |w|..] == rest
  {
    var s := w + sp + (v + rest);
    LowerSameWord(w, v);
    WordThenSpaces(w, sp, v + rest);
    var m := |w| + |sp|;
    var e := m + |w|;
    assert s[m..e] == v && s[e..] == rest by {
      assert s[m..] == v + rest;
      assert s[m..][..|v|] == v && s[m..][|v|..] == rest;
    }
    SameLowerIff(s[m..e], s[..|w|]);
  }

  lemma {:induction false} ToLowerWordChar(c: char)
    ensures IsWordChar(ToLower(c)) <==> IsWordChar(c)
  {
  }

  lemma {:induction false} LowerDiffersAt(a: string, b: string, j: nat)
    requires j < |a| && j < |b| && ToLower(a[j]) != ToLower(b[j])
    ensures Lower(a) != Lower(b)
  {
    assert Lower(a)[j] != Lower(b)[j];
  }

  /** A shorter next word cannot be a copy of the first: where the first
      word goes on, the text has a character that is no word character. */
  lemma {:induction false} ShorterWordDiffers(s: string, n: nat, m: nat, k: nat)
    requires 0 < n && k < n && m + n <= |s|
    requires WordLen(s) == n && WordLen(s[m..]) == k
    ensures Lower(s[m..m + n]) != Lower(s[..n])
  {
    WordLenSpec(s);
    WordLenSpec(s[m..]);
    assert s[m..][k] == s[m + k] == s[m..m + n][k];
    assert IsWordChar(s[k]) && s[..n][k] == s[k];
    ToLowerWordChar(s[m + k]);
    ToLowerWordChar(s[k]);
    LowerDiffersAt(s[m..m + n], s[..n], k);
  }

  /** The match test of `RepeatMatch` in terms of where the words lie: the
      first word is `s[..n]`, the whitespace run ends at `m`, and the next word
      is `s[m..m + k]`. */
  lemma {:induction false} NoRepeatMatchAt(s: string, n: nat, m: nat, k: nat)
    requires 0 < n < m <= |s| && IsWordChar(s[0])
    requires WordLen(s) == n && SpaceEnd(s, n) == m
    requires m + k <= |s| && WordLen(s[m..]) == k
    requires Lower(s[m..m + k]) != Lower(s[..n])
    ensures RepeatMatch(s) == 0
  {
    var e := m + n;
    if e <= |s| {
      SameLowerIff(s[m..e], s[..n]);
    }
    if k < n {
      if e <= |s| {
        ShorterWordDiffers(s, n, m, k);
      }
    } else if k > n {
      WordLenSpec(s[m..]);
      assert s[m..][n] == s[e];
    } else {
      assert s[m..e] == s[m..m + k];
    }
  }

  /** Where a word and the whitespace run behind it end. */
  lemma {:induction false} WordThenSpaces(w: string, sp: string, x: string)
    requires IsWord(w) && |sp| > 0 && AllSpace(sp)
    requires |x| > 0 ==> !IsSpace(x[0])
    ensures WordLen(w + sp + x) == |w|
    ensures (w + sp + x)[..|w|] == w
    ensures (w + sp + x)[|w|..] == sp + x
    ensures SpaceEnd(w + sp + x, |w|) == |w| + |sp|
    ensures (w + sp + x)[|w| + |sp|..] == x
  {
    var s := w + sp + x;
    WordLenOf(w, sp + x);
    assert s == w + (sp + x);
    LeadSpaceCountPrefix(sp, x);
  }

  /** No repeat starts at a word followed by whitespace and a different
      word. */
  lemma {:induction false} NoRepeatMatch(w: string, sp: string, v: string, rest: string)
    requires IsWord(w) && |sp| > 0 && AllSpace(sp) && IsWord(v)
    requires |rest| > 0 ==> !IsWordChar(rest[0])
    requires Lower(v) != Lower(w)
    ensures RepeatMatch(w + sp + (v + rest)) == 0
  {
    var s := w + sp + (v + rest);
    var n := |w|;
    var m := n + |sp|;
    WordThenSpaces(w, sp, v + rest);
    WordLenOf(v, rest);
    assert s[m..m + |v|] == v by {
      assert s[m..] == v + rest;
      assert s[m..][..|v|] == v;
    }
    NoRepeatMatchAt(s, n, m, |v|);
  }

  /** One step of the scan at a word start where no covered repeat begins:
      the word is copied. */
  lemma {:induction false} CollapseRepeatsNoMatchStep(s: string, covers: string -> bool, head: string, tail: string)
    requires |s| > 0 && IsWordChar(s[0])
    requires RepeatMatch(s) == 0 || !covers(s[..WordLen(s)])
    requires head == s[..WordLen(s)] && tail == s[WordLen(s)..]
    ensures CollapseRepeats(s, true, covers) == head + CollapseRepeats(tail, false, covers)
  {
  }

  /** One step of the scan at a word start where a covered repeat begins:
      the first copy is kept and the scan resumes behind the second. */
  lemma {:induction false} CollapseRepeatsMatchStep(s: string, covers: string -> bool, head: string, tail: string)
    requires |s| > 0 && IsWordChar(s[0])
    requires RepeatMatch(s) > 0 && covers(s[..WordLen(s)])
    requires head == s[..WordLen(s)] && tail == s[RepeatMatch(s)..]
    ensures CollapseRepeats(s, true, covers) == head + CollapseRepeats(tail, false, covers)
  {
  }

  /** A word followed by whitespace and a different word, or by a word the
      rule does not cover, is left alone. */
  lemma {:induction false} RepeatKept(w: string, sp: string, v: string, rest: string, covers: string -> bool)
    requires IsWord(w) && |sp| > 0 && AllSpace(sp) && IsWord(v)
    requires |rest| > 0 ==> !IsWordChar(rest[0])
    requires Lower(v) != Lower(w) || !covers(w)
    ensures CollapseRepeats(w + sp + (v + rest), true, covers) == w + sp + CollapseRepeats(v + rest, true, covers)
  {
    var s := w + sp + (v + rest);
    var t := sp + (v + rest);
    assert CollapseRepeats(t, false, covers) == sp + CollapseRepeats(v + rest, true, covers) by {
      CollapseRepeatsSpaces(sp, v + rest, false, covers);
    }
    assert WordLen(s) == |w| && s[..|w|] == w && s[|w|..] == t by {
      WordThenSpaces(w, sp, v + rest);
    }
    assert RepeatMatch(s) == 0 || !covers(s[..WordLen(s)]) by {
      if Lower(v) != Lower(w) {
        NoRepeatMatch(w, sp, v, rest);
      }
    }
    CollapseRepeatsNoMatchStep(s, covers, w, t);
    AppendAssoc(w, sp, CollapseRepeats(v + rest, true, covers));
  }

  // ---------------------------------------------------------------------------
  // Plain word text: only the repeated-word rules act
  // ---------------------------------------------------------------------------

  /** Words separated by single spaces, nothing else. */
  predicate PlainWords(s: string) {
    NoEdgeSpace(s) && SingleSpaced(s) && forall i :: 0 <= i < |s| ==> IsWordChar(s[i]) || s[i] == ' '
  }

  predicate WordsAndSpaces(s: string) {
    forall i :: 0 <= i < |s| ==> IsWordChar(s[i]) || s[i] == ' '
  }

  lemma {:induction false} SingleSpacedAfterWord(w: string, x: string)
    requires IsWord(w) && SingleSpaced(x)
    ensures SingleSpaced(w + x)
  {
    var s := w + x;
    forall i | 0 <= i < |s| && IsSpace(s[i])
      ensures s[i] == ' ' && (i + 1 < |s| ==> !IsSpace(s[i + 1]))
    {
      if i < |w| {
        assert false;
      }
      assert s[i] == x[i - |w|];
      if i + 1 < |s| {
        assert s[i + 1] == x[i - |w| + 1];
      }
    }
  }

  lemma {:induction false} WordsAndSpacesSlice(s: string, a: nat, b: nat)
    requires a <= b <= |s| && WordsAndSpaces(s)
    ensures WordsAndSpaces(s[a..b])
  {
    assert forall i :: 0 <= i < b - a ==> s[a..b][i] == s[a + i];
  }

  lemma {:induction false} WordsAndSpacesAppend(a: string, b: string)
    requires WordsAndSpaces(a) && WordsAndSpaces(b)
    ensures WordsAndSpaces(a + b)
  {
    assert forall i :: 0 <= i < |a + b| ==> (a + b)[i] == if i < |a| then a[i] else b[i - |a|];
  }

  /** The scan at a word start copies the word and resumes behind it or
      behind the repeat it deleted. */
  lemma {:induction false} CollapseRepeatsWordStep(s: string, covers: string -> bool)
    requires |s| > 0 && IsWordChar(s[0])
    ensures var n := WordLen(s);
      var k := if RepeatMatch(s) > 0 && covers(s[..n]) then RepeatMatch(s) else n;
      CollapseRepeats(s, true, covers) == s[..n] + CollapseRepeats(s[k..], false, covers)
  {
    if RepeatMatch(s) > 0 && covers(s[..WordLen(s)]) {
      CollapseRepeatsMatchStep(s, covers, s[..WordLen(s)], s[RepeatMatch(s)..]);
    } else {
      CollapseRepeatsNoMatchStep(s, covers, s[..WordLen(s)], s[WordLen(s)..]);
    }
  }

  /** Away from a word start the scan copies one character. */
  lemma {:induction false} CollapseRepeatsCharStep(s: string, atBoundary: bool, covers: string -> bool)
    requires |s| > 0 && !(atBoundary && IsWordChar(s[0]))
    ensures CollapseRepeats(s, atBoundary, covers) == [s[0]] + CollapseRepeats(s[1..], !IsWordChar(s[0]), covers)
  {
  }

  /** A repeat ends in a word character, like the word it repeats. */
  lemma {:induction false} RepeatEndsInWordChar(s: string)
    requires |s| > 0 && IsWordChar(s[0]) && RepeatMatch(s) > 0
    ensures IsWordChar(s[RepeatMatch(s) - 1])
  {
    var n := WordLen(s);
    var m := SpaceEnd(s, n);
    var e := m + n;
    WordLenSpec(s);
    SameLowerIff(s[m..e], s[..n]);
    assert Lower(s[m..e])[n - 1] == ToLower(s[e - 1]);
    assert Lower(s[..n])[n - 1] == ToLower(s[n - 1]);
    ToLowerWordChar(s[e - 1]);
    ToLowerWordChar(s[n - 1]);
  }

  /** Steps 5 and 6 keep word text single-spaced. */
  lemma {:induction false} CollapseRepeatsKeepsPlain(s: string, atBoundary: bool, covers: string -> bool)
    requires WordsAndSpaces(s) && SingleSpaced(s)
    ensures WordsAndSpaces(CollapseRepeats(s, atBoundary, covers))
    ensures SingleSpaced(CollapseRepeats(s, atBoundary, covers))
    decreases |s|
  {
    if |s| == 0 {
    } else if atBoundary && IsWordChar(s[0]) {
      var n := WordLen(s);
      var e := RepeatMatch(s);
      var k := if e > 0 && covers(s[..n]) then e else n;
      var x := CollapseRepeats(s[k..], false, covers);
      PlainSuffix(s, k);
      assert WordsAndSpaces(x) && SingleSpaced(x) by {
        CollapseRepeatsKeepsPlain(s[k..], false, covers);
      }
      PlainWordThen(s, n, x);
      CollapseRepeatsWordStep(s, covers);
    } else {
      var x := CollapseRepeats(s[1..], !IsWordChar(s[0]), covers);
      PlainSuffix(s, 1);
      assert WordsAndSpaces(x) && SingleSpaced(x) by {
        CollapseRepeatsKeepsPlain(s[1..], !IsWordChar(s[0]), covers);
      }
      assert |x| > 0 ==> x[0] == s[1];
      PlainCharThen(s, x);
      CollapseRepeatsCharStep(s, atBoundary, covers);
    }
  }

  lemma PlainSuffix(s: string, k: nat)
    requires k <= |s| && WordsAndSpaces(s) && SingleSpaced(s)
    ensures WordsAndSpaces(s[k..]) && SingleSpaced(s[k..])
  {
    SingleSpacedSlice(s, k, |s|);
    WordsAndSpacesSlice(s, k, |s|);
    assert s[k..|s|] == s[k..];
  }

  /** The leading word put in front of plain text keeps it plain. */
  lemma PlainWordThen(s: string, n: nat, x: string)
    requires |s| > 0 && IsWordChar(s[0]) && n == WordLen(s) && WordsAndSpaces(s)
    requires WordsAndSpaces(x) && SingleSpaced(x)
    ensures WordsAndSpaces(s[..n] + x) && SingleSpaced(s[..n] + x)
  {
    WordLenSpec(s);
    SingleSpacedAfterWord(s[..n], x);
    WordsAndSpacesSlice(s, 0, n);
    assert s[0..n] == s[..n];
    WordsAndSpacesAppend(s[..n], x);
  }

  /** The first character put back in front of the rest, kept plain. */
  lemma PlainCharThen(s: string, x: string)
    requires |s| > 0 && WordsAndSpaces(s) && SingleSpaced(s)
    requires WordsAndSpaces(x) && SingleSpaced(x) && (|x| > 0 ==> |s| > 1 && x[0] == s[1])
    ensures WordsAndSpaces([s[0]] + x) && SingleSpaced([s[0]] + x)
  {
    SingleSpacedCons(s[0], x);
    WordsAndSpacesAppend([s[0]], x);
  }

  /** The text ends with a whitespace character. */
  predicate EndsInSpace(s: string) {
    |s| > 0 && IsSpace(s[|s| - 1])
  }

  lemma {:induction false} EndsInSpaceAppend(a: string, b: string)
    requires |b| > 0
    ensures EndsInSpace(a + b) == EndsInSpace(b)
  {
    assert (a + b)[|a + b| - 1] == b[|b| - 1];
  }

  /** Steps 5 and 6 end the text with whitespace exactly when it ended with
      whitespace before. */
  /** A text and a word prefix of it that both end in a word character end
      in no whitespace. */
  lemma WordAtEnd(s: string, n: nat)
    requires 0 < n <= |s| && IsWordChar(s[|s| - 1]) && IsWordChar(s[n - 1])
    ensures !EndsInSpace(s) && |s[..n]| > 0 && !EndsInSpace(s[..n] + "")
  {
    var w := s[..n] + "";
    assert w[|w| - 1] == s[n - 1];
  }

  /** The last character of a word followed by a non-empty rest is the rest's. */
  lemma EndsInSpaceSplit(s: string, n: nat, k: nat, x: string)
    requires 0 < n <= k < |s| && |x| > 0
    requires EndsInSpace(x) == EndsInSpace(s[k..])
    ensures |s[..n] + x| > 0 && EndsInSpace(s[..n] + x) == EndsInSpace(s)
  {
    EndsInSpaceAppend(s[..n], x);
    EndsInSpaceAppend(s[..k], s[k..]);
    TakeDropAppend(s, k);
  }

  lemma {:induction false} CollapseRepeatsLastChar(s: string, atBoundary: bool, covers: string -> bool)
    requires |s| > 0
    ensures |CollapseRepeats(s, atBoundary, covers)| > 0
    ensures EndsInSpace(CollapseRepeats(s, atBoundary, covers)) == EndsInSpace(s)
    decreases |s|
  {
    if atBoundary && IsWordChar(s[0]) {
      var n := WordLen(s);
      var e := RepeatMatch(s);
      var k := if e > 0 && covers(s[..n]) then e else n;
      var x := CollapseRepeats(s[k..], false, covers);
      if k == |s| {
        assert IsWordChar(s[k - 1]) && IsWordChar(s[n - 1]) by {
          WordLenSpec(s);
          if e > 0 && covers(s[..n]) {
            RepeatEndsInWordChar(s);
          }
        }
        WordAtEnd(s, n);
        assert x == "";
      } else {
        assert |x| > 0 && EndsInSpace(x) == EndsInSpace(s[k..]) by {
          CollapseRepeatsLastChar(s[k..], false, covers);
        }
        EndsInSpaceSplit(s, n, k, x);
      }
      CollapseRepeatsWordStep(s, covers);
    } else {
      var x := CollapseRepeats(s[1..], !IsWordChar(s[0]), covers);
      assert EndsInSpace([s[0]] + x) == EndsInSpace(s) by {
        if |s| > 1 {
          CollapseRepeatsLastChar(s[1..], !IsWordChar(s[0]), covers);
          EndsInSpaceAppend([s[0]], x);
          EndsInSpaceAppend([s[0]], s[1..]);
          assert [s[0]] + s[1..] == s;
        } else {
          assert [s[0]] + x == s;
        }
      }
      CollapseRepeatsCharStep(s, atBoundary, covers);
    }
  }

  // ---------------------------------------------------------------------------
  // Steps that leave plain word text alone
  // ---------------------------------------------------------------------------

  lemma {:induction false} CrlfToLfKeeps(s: string)
    requires '\r' !in s
    ensures CrlfToLf(s) == s
    decreases |s|
  {
    if |s| > 0 {
      CrlfToLfKeeps(s[1..]);
      assert s == [s[0]] + s[1..];
    }
  }

  lemma {:induction false} MarkParagraphsKeeps(s: string)
    requires '\n' !in s
    ensures MarkParagraphs(s) == s
    decreases |s|
  {
    if |s| > 0 {
      MarkParagraphsKeeps(s[1..]);
      assert s == [s[0]] + s[1..];
    }
  }

  lemma {:induction false} NewlinesToSpacesKeeps(s: string)
    requires '\n' !in s
    ensures NewlinesToSpaces(s) == s
  {
  }

  lemma {:induction false} ReplaceAllKeeps(s: string, pat: string, rep: string)
    requires |pat| > 0 && pat[0] !in s
    ensures ReplaceAll(s, pat, rep) == s
    decreases |s|
  {
    if |s| > 0 {
      assert |pat| <= |s| ==> s[..|pat|][0] == s[0] != pat[0];
      ReplaceAllKeeps(s[1..], pat, rep);
      assert s == [s[0]] + s[1..];
    }
  }

  lemma {:induction false} DropSpaceBeforeKeeps(s: string, p: char)
    requires p !in s
    ensures DropSpaceBefore(s, p) == s
    decreases |s|
  {
    if |s| > 0 {
      if IsSpace(s[0]) {
        var n := LeadSpaceCount(s);
        DropSpaceBeforeKeeps(s[n..], p);
        assert s == s[..n] + s[n..];
      } else {
        DropSpaceBeforeKeeps(s[1..], p);
        assert s == [s[0]] + s[1..];
      }
    }
  }

  lemma {:induction false} CollapsePunctuationKeeps(s: string)
    requires forall i :: 0 <= i < |s| ==> !IsPunct(s[i])
    ensures CollapsePunctuation(s) == s
    decreases |s|
  {
    if |s| > 0 {
      CollapsePunctuationKeeps(s[1..]);
      assert s == [s[0]] + s[1..];
    }
  }

  lemma {:induction false} SpaceAfterCommaKeeps(s: string)
    requires ',' !in s
    ensures SpaceAfterComma(s) == s
    decreases |s|
  {
    if |s| > 0 {
      SpaceAfterCommaKeeps(s[1..]);
      assert s == [s[0]] + s[1..];
    }
  }

  // ---------------------------------------------------------------------------
  // The whole cleaner
  // ---------------------------------------------------------------------------

  /** `cleanTranscript(text)`: a missing, non-string or empty text gives "". */
  function CleanTranscript(text: Option<string>): (r: string)
    ensures !Truthy(text) ==> r == ""
    ensures NoEdgeSpace(r) && SingleSpaced(r) && '\n' !in r
    ensures NoDoubledPunct(r)
    ensures CommaThenOneSpace(r)
  {
    if !Truthy(text) then ""
    else
      var t1 := Trim(CrlfToLf(text.value));
      var t2 := NormalizeWhitespace(t1);
      var t3 := FixPunctuationSpacing(t2);
      var t4 := CollapsePunctuation(t3);
      var t5 := CollapseRepeatedWords(t4);
      var t6 := CollapseRepeatedFillers(t5);
      var t7 := SpaceAfterComma(t6);
      CleanedShape(t3);
      Trim(Rejoin(t7))
  }

  // ---------------------------------------------------------------------------
  // Plain word text, and why the cleaner is not idempotent
  // ---------------------------------------------------------------------------

  /** Word text has no character other than word characters and ' '. */
  lemma {:induction false} WordsAndSpacesExclude(s: string, c: char)
    requires WordsAndSpaces(s) && !IsWordChar(c) && c != ' '
    ensures c !in s
  {
  }

  /** Steps 1 to 4 leave plain word text as it is. */
  lemma {:induction false} PlainWordsFirstSteps(s: string)
    requires PlainWords(s)
    ensures FixPunctuationSpacing(NormalizeWhitespace(Trim(CrlfToLf(s)))) == s
    ensures CollapsePunctuation(s) == s
  {
    WordsAndSpacesExclude(s, '\r');
    WordsAndSpacesExclude(s, '\n');
    WordsAndSpacesExclude(s, '<');
    WordsAndSpacesExclude(s, ',');
    WordsAndSpacesExclude(s, '.');
    WordsAndSpacesExclude(s, '?');
    WordsAndSpacesExclude(s, '!');
    assert Trim(CrlfToLf(s)) == s by {
      CrlfToLfKeeps(s);
      TrimTrimmed(s);
    }
    assert NormalizeWhitespace(s) == s by {
      MarkParagraphsKeeps(s);
      NewlinesToSpacesKeeps(s);
      CollapseFixesSingleSpaced(s);
      TrimTrimmed(s);
      ReplaceAllKeeps(s, Marker, "\n\n");
    }
    assert FixPunctuationSpacing(s) == s by {
      DropSpaceBeforeKeeps(s, ',');
      DropSpaceBeforeKeeps(s, '.');
      DropSpaceBeforeKeeps(s, '?');
      DropSpaceBeforeKeeps(s, '!');
    }
    CollapsePunctuationKeeps(s);
  }

  /** Steps 5 and 6 turn non-empty plain word text into non-empty plain word
      text. */
  lemma {:induction false} CollapseRepeatsPlain(s: string, covers: string -> bool)
    requires PlainWords(s) && |s| > 0
    ensures PlainWords(CollapseRepeats(s, true, covers)) && |CollapseRepeats(s, true, covers)| > 0
  {
    var r := CollapseRepeats(s, true, covers);
    CollapseRepeatsKeepsPlain(s, true, covers);
    CollapseRepeatsLastChar(s, true, covers);
    assert !EndsInSpace(s);
  }

  /** Steps 7 to 9 leave plain word text as it is. */
  lemma {:induction false} PlainWordsLastSteps(s: string)
    requires PlainWords(s)
    ensures Trim(Rejoin(SpaceAfterComma(s))) == s
  {
    WordsAndSpacesExclude(s, ',');
    SpaceAfterCommaKeeps(s);
    ConcatSplitSentences(s);
    CollapseFixesSingleSpaced(s);
    TrimTrimmed(s);
  }

  /** On words separated by single spaces only the repeated-word rules act. */
  lemma {:induction false} CleanPlainWords(s: string)
    requires PlainWords(s) && |s| > 0
    ensures CleanTranscript(Some(s)) == CollapseRepeatedFillers(CollapseRepeatedWords(s))
    ensures PlainWords(CleanTranscript(Some(s)))
  {
    var t5 := CollapseRepeatedWords(s);
    var t6 := CollapseRepeatedFillers(t5);
    assert PlainWords(t6) by {
      CollapseRepeatsPlain(s, AnyWord);
      CollapseRepeatsPlain(t5, IsRepeatFiller);
    }
    assert Trim(Rejoin(SpaceAfterComma(t6))) == t6 by {
      PlainWordsLastSteps(t6);
    }
    assert CleanTranscript(Some(s)) == Trim(Rejoin(SpaceAfterComma(t6))) by {
      PlainWordsFirstSteps(s);
    }
  }

  /** Two words joined by one space. */
  lemma {:induction false} PlainPair(w: string, x: string)
    requires IsWord(w) && PlainWords(x) && |x| > 0
    ensures PlainWords(w + " " + x)
  {
    var s := w + " " + x;
    assert s == w + ([' '] + x);
    SingleSpacedCons(' ', x);
    SingleSpacedAfterWord(w, [' '] + x);
    assert s[|s| - 1] == x[|x| - 1];
  }

  /** A word said twice in a row is said once. */
  lemma {:induction false} RepeatedTwice(w: string, covers: string -> bool)
    requires IsWord(w) && covers(w)
    ensures CollapseRepeats(w + " " + w, true, covers) == w
  {
    assert w + " " + w == w + " " + (w + "");
    RepeatCollapsed(w, " ", w, "", covers);
  }

  /** Whitespace and a last word are copied. */
  lemma {:induction false} SpaceThenLastWord(w: string, covers: string -> bool)
    requires IsWord(w)
    ensures CollapseRepeats(" " + w, false, covers) == " " + w
  {
    CollapseRepeatsSpaces(" ", w, false, covers);
    CollapseRepeatsLastWord(w, covers);
  }

  /** A word said three times in a row loses one copy per pass. */
  lemma {:induction false} RepeatedThrice(w: string, covers: string -> bool)
    requires IsWord(w) && covers(w)
    ensures CollapseRepeats(w + " " + w + " " + w, true, covers) == w + " " + w
  {
    assert w + " " + w + " " + w == w + " " + (w + (" " + w));
    assert w + (" " + w) == w + " " + w;
    assert CollapseRepeats(w + " " + (w + (" " + w)), true, covers) == w + CollapseRepeats(" " + w, false, covers) by {
      RepeatCollapsed(w, " ", w, " " + w, covers);
    }
    assert CollapseRepeats(" " + w, false, covers) == " " + w by {
      SpaceThenLastWord(w, covers);
    }
  }

  /** A repeated word the rule does not cover is kept. */
  lemma {:induction false} RepeatedUncovered(w: string, x: string, covers: string -> bool)
    requires IsWord(w) && !covers(w) && PlainWords(x) && |x| > 0
    requires CollapseRepeats(x, true, covers) == x
    requires IsWord(x[..WordLen(x)])
    ensures CollapseRepeats(w + " " + x, true, covers) == w + " " + x
  {
    var v := x[..WordLen(x)];
    var rest := x[WordLen(x)..];
    assert x == v + rest;
    WordLenSpec(x);
    RepeatKept(w, " ", v, rest, covers);
    assert w + " " + x == w + " " + (v + rest);
  }

  /** A single word is plain word text. */
  lemma WordIsPlain(w: string)
    requires IsWord(w)
    ensures PlainWords(w)
  {
    SingleSpacedAfterWord(w, "");
    assert w + "" == w;
  }

  /** A word that is no filler, said three times, cleans to two copies. */
  lemma ThriceCleansToTwice(w: string)
    requires IsWord(w) && !IsRepeatFiller(w)
    ensures CleanTranscript(Some(w + " " + w + " " + w)) == w + " " + w
  {
    var ww := w + " " + w;
    assert PlainWords(w + " " + w + " " + w) by {
      WordIsPlain(w);
      PlainPair(w, w);
      PlainPair(w, ww);
      assert w + " " + ww == w + " " + w + " " + w;
    }
    assert CollapseRepeatedFillers(ww) == ww by {
      WordIsPlain(w);
      WordLenOf(w, "");
      assert w + "" == w;
      assert w[..WordLen(w)] == w;
      CollapseRepeatsLastWord(w, IsRepeatFiller);
      RepeatedUncovered(w, w, IsRepeatFiller);
    }
    RepeatedThrice(w, AnyWord);
    CleanPlainWords(w + " " + w + " " + w);
  }

  /** A word said twice cleans to one copy. */
  lemma TwiceCleansToOnce(w: string)
    requires IsWord(w)
    ensures CleanTranscript(Some(w + " " + w)) == w
  {
    assert PlainWords(w + " " + w) by {
      WordIsPlain(w);
      PlainPair(w, w);
    }
    RepeatedTwice(w, AnyWord);
    CollapseRepeatsLastWord(w, IsRepeatFiller);
    CleanPlainWords(w + " " + w);
  }

  /** The cleaner is not idempotent: three copies of a word that is no filler
      become two in the first pass and one in the second. */
  lemma {:induction false} CleanNotIdempotent(w: string)
    requires IsWord(w) && !IsRepeatFiller(w)
    ensures CleanTranscript(Some(w + " " + w + " " + w)) == w + " " + w
    ensures CleanTranscript(Some(w + " " + w)) == w
    ensures CleanTranscript(Some(CleanTranscript(Some(w + " " + w + " " + w)))) != CleanTranscript(Some(w + " " + w + " " + w))
  {
    ThriceCleansToTwice(w);
    TwiceCleansToOnce(w);
    assert |w| < |w + " " + w|;
  }

  /** A filler said three times in a row is said once after one pass: step
      5 keeps two copies and step 6 removes the second. */
  lemma {:induction false} CleanFillerThrice(w: string)
    requires IsWord(w) && IsRepeatFiller(w)
    ensures CleanTranscript(Some(w + " " + w + " " + w)) == w
  {
    PlainPair(w, w);
    assert PlainWords(w) by {
      SingleSpacedAfterWord(w, "");
      assert w + "" == w;
    }
    var ww := w + " " + w;
    PlainPair(w, ww);
    assert w + " " + ww == w + " " + w + " " + w;
    CleanPlainWords(w + " " + w + " " + w);
    RepeatedThrice(w, AnyWord);
    RepeatedTwice(w, IsRepeatFiller);
  }
}
