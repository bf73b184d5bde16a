/** What the transcript cleaner does to the characters of the text: it never
    changes a character, it only deletes characters and inserts, deletes or
    replaces whitespace. Stated as: the non-whitespace characters of the
    cleaned text are a subsequence of those of the input. */
module CleanerChars {
  import opened Wrappers
  import opened Text
  import opened TranscriptCleaner

  // ---------------------------------------------------------------------------
  // Steps that only touch whitespace
  // ---------------------------------------------------------------------------

  lemma {:induction false} CrlfToLfNonSpace(s: string)
    ensures NonSpace(CrlfToLf(s)) == NonSpace(s)
    decreases |s|
  {
    if |s| >= 2 && s[0] == '\r' && s[1] == '\n' {
      CrlfToLfNonSpace(s[2..]);
      assert NonSpace(s) == NonSpace(s[1..]) == NonSpace(s[2..]);
      assert ("\n" + CrlfToLf(s[2..]))[1..] == CrlfToLf(s[2..]);
    } else if |s| > 0 {
      CrlfToLfNonSpace(s[1..]);
      assert ([s[0]] + CrlfToLf(s[1..]))[1..] == CrlfToLf(s[1..]);
    }
  }

  lemma TrimNonSpace(s: string)
    ensures NonSpace(Trim(s)) == NonSpace(s)
  {
    var a := LeadSpaceCount(s);
    var r := Trim(s);
    var b := a + |r|;
    assert s == s[..a] + r + s[b..];
    NonSpaceAppend(s[..a] + r, s[b..]);
    NonSpaceAppend(s[..a], r);
    NonSpaceAllSpace(s[..a]);
    NonSpaceAllSpace(s[b..]);
  }

  /** Whitespace runs replaced by whitespace keep the other characters. */
  lemma {:induction false} ReplaceSpaceRunsNonSpace(s: string, rep: string)
    requires AllSpace(rep)
    ensures NonSpace(ReplaceSpaceRuns(s, rep)) == NonSpace(s)
    decreases |s|
  {
    if |s| == 0 {
    } else if IsSpace(s[0]) {
      var n := LeadSpaceCount(s);
      ReplaceSpaceRunsNonSpace(s[n..], rep);
      NonSpaceAppend(rep, ReplaceSpaceRuns(s[n..], rep));
      NonSpaceAllSpace(rep);
      assert s == s[..n] + s[n..];
      NonSpaceAppend(s[..n], s[n..]);
      NonSpaceAllSpace(s[..n]);
    } else {
      ReplaceSpaceRunsNonSpace(s[1..], rep);
      assert ([s[0]] + ReplaceSpaceRuns(s[1..], rep))[1..] == ReplaceSpaceRuns(s[1..], rep);
    }
  }

  lemma CollapseSpacesNonSpace(s: string)
    ensures NonSpace(CollapseSpaces(s)) == NonSpace(s)
  {
    ReplaceSpaceRunsNonSpace(s, " ");
  }

  lemma NewlinesToSpacesAppend(a: string, b: string)
    ensures NewlinesToSpaces(a + b) == NewlinesToSpaces(a) + NewlinesToSpaces(b)
  {
  }

  lemma {:induction false} NewlinesToSpacesNonSpace(s: string)
    ensures NonSpace(NewlinesToSpaces(s)) == NonSpace(s)
    decreases |s|
  {
    if |s| > 0 {
      NewlinesToSpacesNonSpace(s[1..]);
      assert NewlinesToSpaces(s)[1..] == NewlinesToSpaces(s[1..]);
    }
  }

  lemma {:induction false} DropSpaceBeforeNonSpace(s: string, p: char)
    ensures NonSpace(DropSpaceBefore(s, p)) == NonSpace(s)
    decreases |s|
  {
    if |s| == 0 {
    } else if IsSpace(s[0]) {
      var n := LeadSpaceCount(s);
      assert s == s[..n] + s[n..];
      NonSpaceAppend(s[..n], s[n..]);
      NonSpaceAllSpace(s[..n]);
      if n < |s| && s[n] == p {
        DropSpaceBeforeNonSpace(s[n + 1..], p);
        assert s[n..][1..] == s[n + 1..];
        assert ([p] + DropSpaceBefore(s[n + 1..], p))[1..] == DropSpaceBefore(s[n + 1..], p);
      } else {
        DropSpaceBeforeNonSpace(s[n..], p);
        NonSpaceAppend(s[..n], DropSpaceBefore(s[n..], p));
      }
    } else {
      DropSpaceBeforeNonSpace(s[1..], p);
      assert ([s[0]] + DropSpaceBefore(s[1..], p))[1..] == DropSpaceBefore(s[1..], p);
    }
  }

  lemma FixPunctuationSpacingNonSpace(s: string)
    ensures NonSpace(FixPunctuationSpacing(s)) == NonSpace(s)
  {
    DropSpaceBeforeNonSpace(s, ',');
    DropSpaceBeforeNonSpace(DropSpaceBefore(s, ','), '.');
    DropSpaceBeforeNonSpace(DropSpaceBefore(DropSpaceBefore(s, ','), '.'), '?');
    DropSpaceBeforeNonSpace(DropSpaceBefore(DropSpaceBefore(DropSpaceBefore(s, ','), '.'), '?'), '!');
  }

  lemma {:induction false} SpaceAfterCommaNonSpace(s: string)
    ensures NonSpace(SpaceAfterComma(s)) == NonSpace(s)
    decreases |s|
  {
    if |s| == 0 {
    } else if s[0] == ',' && |s| > 1 && !IsSpace(s[1]) {
      var x := SpaceAfterComma(s[2..]);
      SpaceAfterCommaNonSpace(s[2..]);
      assert ", " + [s[1]] + x == [','] + ([' '] + ([s[1]] + x));
      assert s == [','] + ([s[1]] + s[2..]);
      NonSpaceAppend([','], [' '] + ([s[1]] + x));
      NonSpaceAppend([','], [s[1]] + s[2..]);
      NonSpaceAppend([' '], [s[1]] + x);
      NonSpaceAppend([s[1]], x);
      NonSpaceAppend([s[1]], s[2..]);
    } else {
      SpaceAfterCommaNonSpace(s[1..]);
      assert ([s[0]] + SpaceAfterComma(s[1..]))[1..] == SpaceAfterComma(s[1..]);
    }
  }

  lemma RejoinNonSpace(s: string)
    ensures NonSpace(Rejoin(s)) == NonSpace(s)
  {
    ConcatSplitSentences(s);
    CollapseSpacesNonSpace(s);
    TrimNonSpace(CollapseSpaces(s));
  }

  // ---------------------------------------------------------------------------
  // Steps that delete characters
  // ---------------------------------------------------------------------------

  /** A subsequence of a suffix is a subsequence of any longer suffix. */
  lemma SubseqLaterSuffix(x: string, s: string, j: nat, k: nat)
    requires j <= k <= |s| && IsSubseq(x, s[k..])
    ensures IsSubseq(x, s[j..])
  {
    assert s[j..] == s[j..k] + s[k..];
    SubseqSuffix(x, s[j..k], s[k..]);
  }

  lemma {:induction false} CollapsePunctuationSubseq(s: string)
    ensures IsSubseq(CollapsePunctuation(s), s)
    decreases |s|
  {
    if |s| > 0 {
      var k := if IsPunct(s[0]) && |s| > 1 && s[1] == s[0] then RunOf(s, s[0]) else 1;
      CollapsePunctuationSubseq(s[k..]);
      SubseqLaterSuffix(CollapsePunctuation(s[k..]), s, 1, k);
      SubseqCons(s[0], CollapsePunctuation(s[k..]), s[1..]);
      assert [s[0]] + s[1..] == s;
    }
  }

  lemma {:induction false} CollapseRepeatsSubseq(s: string, atBoundary: bool, covers: string -> bool)
    ensures IsSubseq(CollapseRepeats(s, atBoundary, covers), s)
    decreases |s|
  {
    if |s| == 0 {
    } else if atBoundary && IsWordChar(s[0]) {
      var n := WordLen(s);
      var e := RepeatMatch(s);
      var k := if e > 0 && covers(s[..n]) then e else n;
      var x := CollapseRepeats(s[k..], false, covers);
      CollapseRepeatsWordStep(s, covers);
      CollapseRepeatsSubseq(s[k..], false, covers);
      SubseqLaterSuffix(x, s, n, k);
      SubseqRefl(s[..n]);
      SubseqAppend(s[..n], s[..n], x, s[n..]);
      assert s[..n] + s[n..] == s;
    } else {
      var x := CollapseRepeats(s[1..], !IsWordChar(s[0]), covers);
      CollapseRepeatsCharStep(s, atBoundary, covers);
      CollapseRepeatsSubseq(s[1..], !IsWordChar(s[0]), covers);
      SubseqCons(s[0], x, s[1..]);
      assert [s[0]] + s[1..] == s;
    }
  }

  // ---------------------------------------------------------------------------
  // Step 2: the paragraph placeholder comes and goes
  // ---------------------------------------------------------------------------

  /** Every '<' of the text starts a whole placeholder: the form the text has
      while the placeholders are in it, when the input had no '<'. */
  predicate Marked(s: string)
    decreases |s|
  {
    |s| == 0 || (s[0] != '<' && Marked(s[1..])) || (IsPrefix(Marker, s) && Marked(s[|Marker|..]))
  }

  lemma {:induction false} MarkedNoAngle(s: string)
    requires '<' !in s
    ensures Marked(s)
    decreases |s|
  {
    if |s| > 0 {
      MarkedNoAngle(s[1..]);
    }
  }

  lemma MarkedMarker()
    ensures Marked(Marker)
  {
    assert Marker[|Marker|..] == "";
  }

  lemma {:induction false} MarkedAppend(a: string, b: string)
    requires Marked(a) && Marked(b)
    ensures Marked(a + b)
    decreases |a|
  {
    if |a| == 0 {
      assert a + b == b;
    } else if a[0] != '<' && Marked(a[1..]) {
      MarkedAppend(a[1..], b);
      assert (a + b)[1..] == a[1..] + b;
    } else {
      MarkedAppend(a[|Marker|..], b);
      assert (a + b)[|Marker|..] == a[|Marker|..] + b;
      assert (a + b)[..|Marker|] == a[..|Marker|];
    }
  }

  /** A placeholder ends in no whitespace and no scan can run over its edge:
      splitting the text after a whole placeholder or after a character that
      is not '<' splits the replacement. */
  lemma {:induction false} ReplaceAllMarkedAppend(a: string, b: string, rep: string)
    requires Marked(a)
    ensures ReplaceAll(a + b, Marker, rep) == ReplaceAll(a, Marker, rep) + ReplaceAll(b, Marker, rep)
    decreases |a|
  {
    if |a| == 0 {
      assert a + b == b;
    } else if a[0] != '<' && Marked(a[1..]) {
      assert !IsPrefix(Marker, a + b) by {
        assert |Marker| <= |a + b| ==> (a + b)[..|Marker|][0] == a[0];
      }
      assert !IsPrefix(Marker, a) by {
        assert |Marker| <= |a| ==> a[..|Marker|][0] == a[0];
      }
      assert (a + b)[1..] == a[1..] + b;
      ReplaceAllMarkedAppend(a[1..], b, rep);
      AppendAssoc([a[0]], ReplaceAll(a[1..], Marker, rep), ReplaceAll(b, Marker, rep));
    } else {
      assert (a + b)[..|Marker|] == a[..|Marker|];
      assert (a + b)[|Marker|..] == a[|Marker|..] + b;
      ReplaceAllMarkedAppend(a[|Marker|..], b, rep);
      AppendAssoc(rep, ReplaceAll(a[|Marker|..], Marker, rep), ReplaceAll(b, Marker, rep));
    }
  }

  /** The text with the placeholders taken out, reduced to its
      non-whitespace characters. */
  function Unmarked(s: string): string {
    NonSpace(ReplaceAll(s, Marker, ""))
  }

  lemma UnmarkedAppend(a: string, b: string)
    requires Marked(a)
    ensures Unmarked(a + b) == Unmarked(a) + Unmarked(b)
  {
    ReplaceAllMarkedAppend(a, b, "");
    NonSpaceAppend(ReplaceAll(a, Marker, ""), ReplaceAll(b, Marker, ""));
  }

  lemma UnmarkedMarker()
    ensures Unmarked(Marker) == ""
  {
    assert IsPrefix(Marker, Marker);
    assert Marker[|Marker|..] == "";
  }

  lemma UnmarkedChar(c: char)
    requires c != '<'
    ensures Marked([c])
    ensures Unmarked([c]) == NonSpace([c])
  {
    assert [c][1..] == "";
    assert !IsPrefix(Marker, [c]);
    assert ReplaceAll([c], Marker, "") == [c] + ReplaceAll("", Marker, "");
    assert [c] + "" == [c];
  }

  /** A character other than '<' in front of a marked text. */
  lemma UnmarkedCons(c: char, x: string)
    requires c != '<' && Marked(x)
    ensures Marked([c] + x)
    ensures Unmarked([c] + x) == NonSpace([c]) + Unmarked(x)
  {
    UnmarkedChar(c);
    MarkedAppend([c], x);
    UnmarkedAppend([c], x);
  }

  /** A placeholder in front of a marked text. */
  lemma UnmarkedPlaceholder(x: string)
    requires Marked(x)
    ensures Marked(Marker + x)
    ensures Unmarked(Marker + x) == Unmarked(x)
  {
    MarkedMarker();
    UnmarkedMarker();
    MarkedAppend(Marker, x);
    UnmarkedAppend(Marker, x);
  }

  /** What step 2 puts in place of a blank line, in front of a marked text. */
  lemma UnmarkedParagraph(x: string)
    requires Marked(x)
    ensures Marked(" " + Marker + " " + x)
    ensures Unmarked(" " + Marker + " " + x) == Unmarked(x)
  {
    UnmarkedCons(' ', x);
    UnmarkedPlaceholder([' '] + x);
    UnmarkedCons(' ', Marker + ([' '] + x));
    assert " " + Marker + " " + x == [' '] + (Marker + ([' '] + x));
  }

  /** Blank lines in place of the placeholders add only whitespace. */
  lemma {:induction false} ReplaceAllSpaceNonSpace(s: string, rep: string)
    requires AllSpace(rep)
    ensures NonSpace(ReplaceAll(s, Marker, rep)) == Unmarked(s)
    decreases |s|
  {
    if |s| == 0 {
    } else if IsPrefix(Marker, s) {
      ReplaceAllSpaceNonSpace(s[|Marker|..], rep);
      NonSpaceAppend(rep, ReplaceAll(s[|Marker|..], Marker, rep));
      NonSpaceAllSpace(rep);
      assert ReplaceAll(s, Marker, "") == "" + ReplaceAll(s[|Marker|..], Marker, "");
      assert "" + ReplaceAll(s[|Marker|..], Marker, "") == ReplaceAll(s[|Marker|..], Marker, "");
    } else {
      ReplaceAllSpaceNonSpace(s[1..], rep);
      NonSpaceAppend([s[0]], ReplaceAll(s[1..], Marker, rep));
      NonSpaceAppend([s[0]], ReplaceAll(s[1..], Marker, ""));
    }
  }

  /** Marking paragraphs in a text without '<' gives a marked text whose
      characters outside the placeholders are the original ones. */
  lemma {:induction false} MarkParagraphsUnmarked(s: string)
    requires '<' !in s
    ensures Marked(MarkParagraphs(s))
    ensures Unmarked(MarkParagraphs(s)) == NonSpace(s)
    decreases |s|
  {
    if |s| == 0 {
      assert Unmarked("") == "";
    } else if NewlineRun(s) >= 2 {
      var n := NewlineRun(s);
      MarkParagraphsUnmarked(s[n..]);
      UnmarkedParagraph(MarkParagraphs(s[n..]));
      assert NonSpace(s) == NonSpace(s[n..]) by {
        assert s == s[..n] + s[n..];
        NonSpaceAppend(s[..n], s[n..]);
        NonSpaceAllSpace(s[..n]);
      }
    } else {
      MarkParagraphsUnmarked(s[1..]);
      UnmarkedCons(s[0], MarkParagraphs(s[1..]));
      NonSpaceAppend([s[0]], s[1..]);
      assert [s[0]] + s[1..] == s;
    }
  }

  lemma {:induction false} NewlinesToSpacesUnmarked(s: string)
    requires Marked(s)
    ensures Marked(NewlinesToSpaces(s))
    ensures Unmarked(NewlinesToSpaces(s)) == Unmarked(s)
    decreases |s|
  {
    if |s| == 0 {
    } else if s[0] != '<' && Marked(s[1..]) {
      var c := NewlinesToSpaces([s[0]]);
      NewlinesToSpacesUnmarked(s[1..]);
      assert s == [s[0]] + s[1..];
      NewlinesToSpacesAppend([s[0]], s[1..]);
      assert c == [c[0]] && c[0] != '<';
      UnmarkedChar(c[0]);
      UnmarkedChar(s[0]);
      MarkedAppend(c, NewlinesToSpaces(s[1..]));
      UnmarkedAppend(c, NewlinesToSpaces(s[1..]));
      UnmarkedAppend([s[0]], s[1..]);
    } else {
      var m := |Marker|;
      NewlinesToSpacesUnmarked(s[m..]);
      assert s == s[..m] + s[m..];
      assert s[..m] == Marker;
      NewlinesToSpacesAppend(Marker, s[m..]);
      assert NewlinesToSpaces(Marker) == Marker;
      MarkedMarker();
      MarkedAppend(Marker, NewlinesToSpaces(s[m..]));
      UnmarkedAppend(Marker, NewlinesToSpaces(s[m..]));
      UnmarkedAppend(Marker, s[m..]);
    }
  }

  /** Dropping leading whitespace keeps a text marked. */
  lemma {:induction false} MarkedDropSpaces(s: string, n: nat)
    requires Marked(s) && n <= |s| && AllSpace(s[..n])
    ensures Marked(s[n..])
    decreases n
  {
    if n > 0 {
      assert s[..n][0] == s[0];
      assert !IsPrefix(Marker, s) by {
        assert |Marker| <= |s| ==> s[..|Marker|][0] == s[0];
      }
      assert s[1..][..n - 1] == s[..n][1..];
      MarkedDropSpaces(s[1..], n - 1);
      assert s[1..][n - 1..] == s[n..];
    }
  }

  /** Whitespace to the end of the text rules out a non-whitespace character
      after the start. */
  lemma NotAllSpaceFrom(s: string, k: nat, j: nat)
    requires k <= |s| && j < |s| && !IsSpace(s[j])
    ensures k <= j ==> !AllSpace(s[k..])
  {
    if k <= j {
      assert s[k..][j - k] == s[j];
    }
  }

  /** Dropping trailing whitespace keeps a text marked. */
  lemma {:induction false} MarkedTakeBefore(s: string, k: nat)
    requires Marked(s) && k <= |s| && AllSpace(s[k..])
    ensures Marked(s[..k])
    decreases |s|
  {
    if k == 0 {
    } else if s[0] != '<' && Marked(s[1..]) {
      assert s[1..][k - 1..] == s[k..];
      MarkedTakeBefore(s[1..], k - 1);
      assert s[..k] == [s[0]] + s[1..][..k - 1];
      UnmarkedChar(s[0]);
      MarkedAppend([s[0]], s[1..][..k - 1]);
    } else {
      var m := |Marker|;
      assert IsPrefix(Marker, s) && s[..m] == Marker;
      assert !IsSpace(s[m - 1]) by {
        assert s[m - 1] == s[..m][m - 1] == Marker[m - 1];
      }
      NotAllSpaceFrom(s, k, m - 1);
      assert s[m..][k - m..] == s[k..];
      MarkedTakeBefore(s[m..], k - m);
      assert s[..k] == Marker + s[m..][..k - m];
      MarkedMarker();
      MarkedAppend(Marker, s[m..][..k - m]);
    }
  }

  lemma {:induction false} MarkedAllSpace(w: string)
    requires AllSpace(w)
    ensures Marked(w)
    ensures Unmarked(w) == ""
    decreases |w|
  {
    if |w| > 0 {
      MarkedAllSpace(w[1..]);
      UnmarkedChar(w[0]);
      UnmarkedAppend([w[0]], w[1..]);
      assert [w[0]] + w[1..] == w;
    }
  }

  lemma TrimUnmarked(s: string)
    requires Marked(s)
    ensures Marked(Trim(s))
    ensures Unmarked(Trim(s)) == Unmarked(s)
  {
    var a := LeadSpaceCount(s);
    var r := Trim(s);
    var b := a + |r|;
    assert Marked(r) by {
      MarkedDropSpaces(s, a);
      assert s[a..][..|r|] == r;
      assert s[a..][|r|..] == s[b..];
      MarkedTakeBefore(s[a..], |r|);
    }
    assert Unmarked(s[..a]) == "" && Unmarked(s[b..]) == "" && Marked(s[..a]) by {
      MarkedAllSpace(s[..a]);
      MarkedAllSpace(s[b..]);
    }
    assert Unmarked(s) == Unmarked(s[..a]) + (Unmarked(r) + Unmarked(s[b..])) by {
      ThreeParts(s, a, b);
      UnmarkedAppend(s[..a], r + s[b..]);
      UnmarkedAppend(r, s[b..]);
    }
    assert "" + (Unmarked(r) + "") == Unmarked(r);
  }

  lemma {:induction false} CollapseSpacesUnmarked(s: string)
    requires Marked(s)
    ensures Marked(CollapseSpaces(s))
    ensures Unmarked(CollapseSpaces(s)) == Unmarked(s)
    decreases |s|
  {
    if |s| == 0 {
    } else if IsSpace(s[0]) {
      var n := LeadSpaceCount(s);
      MarkedDropSpaces(s, n);
      CollapseSpacesUnmarked(s[n..]);
      assert CollapseSpaces(s) == [' '] + CollapseSpaces(s[n..]);
      UnmarkedCons(' ', CollapseSpaces(s[n..]));
      assert Unmarked(s) == Unmarked(s[n..]) by {
        MarkedAllSpace(s[..n]);
        assert s == s[..n] + s[n..];
        UnmarkedAppend(s[..n], s[n..]);
      }
    } else if s[0] != '<' && Marked(s[1..]) {
      CollapseSpacesUnmarked(s[1..]);
      assert CollapseSpaces(s) == [s[0]] + CollapseSpaces(s[1..]);
      UnmarkedCons(s[0], CollapseSpaces(s[1..]));
      UnmarkedCons(s[0], s[1..]);
      assert [s[0]] + s[1..] == s;
    } else {
      CollapseSpacesPlaceholder(s);
    }
  }

  lemma {:induction false} CollapseSpacesPlaceholder(s: string)
    requires IsPrefix(Marker, s) && Marked(s[|Marker|..])
    ensures Marked(CollapseSpaces(s))
    ensures Unmarked(CollapseSpaces(s)) == Unmarked(s)
    decreases |s|, 0
  {
    var m := |Marker|;
    CollapseSpacesUnmarked(s[m..]);
    var x := CollapseSpaces(s[m..]);
    assert s == Marker + s[m..];
    assert CollapseSpaces(s) == Marker + x by {
      assert HasNoSpace(Marker);
      CollapseSpacesNoSpacePrefix(Marker, s[m..]);
    }
    UnmarkedPlaceholder(x);
    UnmarkedPlaceholder(s[m..]);
  }

  /** Text without whitespace in front is copied by the collapse. */
  lemma {:induction false} CollapseSpacesNoSpacePrefix(p: string, q: string)
    requires HasNoSpace(p)
    ensures CollapseSpaces(p + q) == p + CollapseSpaces(q)
    decreases |p|
  {
    if |p| == 0 {
      assert p + q == q;
    } else {
      CollapseSpacesNoSpacePrefix(p[1..], q);
      assert (p + q)[1..] == p[1..] + q;
      assert p == [p[0]] + p[1..];
    }
  }

  /** Step 2 keeps the characters of a text without '<', whitespace aside. */
  lemma NormalizeWhitespaceNonSpace(t: string)
    requires '<' !in t
    ensures NonSpace(NormalizeWhitespace(t)) == NonSpace(t)
  {
    var u0 := MarkParagraphs(t);
    MarkParagraphsUnmarked(t);
    var u1 := NewlinesToSpaces(u0);
    NewlinesToSpacesUnmarked(u0);
    var u2 := CollapseSpaces(u1);
    CollapseSpacesUnmarked(u1);
    var u3 := Trim(u2);
    TrimUnmarked(u2);
    ReplaceAllSpaceNonSpace(u3, "\n\n");
  }

  // ---------------------------------------------------------------------------
  // The whole cleaner
  // ---------------------------------------------------------------------------

  lemma {:induction false} CrlfToLfNoAngle(s: string)
    requires '<' !in s
    ensures '<' !in CrlfToLf(s)
    decreases |s|
  {
    if |s| >= 2 && s[0] == '\r' && s[1] == '\n' {
      CrlfToLfNoAngle(s[2..]);
    } else if |s| > 0 {
      CrlfToLfNoAngle(s[1..]);
    }
  }

  /** Cleaning only deletes characters and changes whitespace: the
      non-whitespace characters of the result appear, in order and with their
      letter case, among those of the input. */
  lemma CleanKeepsCharacters(text: string)
    requires '<' !in text
    ensures IsSubseq(NonSpace(CleanTranscript(Some(text))), NonSpace(text))
  {
    if text == "" {
    } else {
      var t1 := Trim(CrlfToLf(text));
      var t2 := NormalizeWhitespace(t1);
      var t3 := FixPunctuationSpacing(t2);
      var t4 := CollapsePunctuation(t3);
      var t5 := CollapseRepeatedWords(t4);
      var t6 := CollapseRepeatedFillers(t5);
      var t7 := SpaceAfterComma(t6);
      assert NonSpace(t3) == NonSpace(text) by {
        CrlfToLfNonSpace(text);
        TrimNonSpace(CrlfToLf(text));
        CrlfToLfNoAngle(text);
        assert '<' !in t1;
        NormalizeWhitespaceNonSpace(t1);
        FixPunctuationSpacingNonSpace(t2);
      }
      assert IsSubseq(t6, t3) by {
        CollapsePunctuationSubseq(t3);
        CollapseRepeatsSubseq(t4, true, AnyWord);
        CollapseRepeatsSubseq(t5, true, IsRepeatFiller);
        SubseqTrans(t5, t4, t3);
        SubseqTrans(t6, t5, t3);
      }
      assert NonSpace(Trim(Rejoin(t7))) == NonSpace(t6) by {
        SpaceAfterCommaNonSpace(t6);
        RejoinNonSpace(t7);
        TrimNonSpace(Rejoin(t7));
      }
      SubseqNonSpace(t6, t3);
    }
  }
}
