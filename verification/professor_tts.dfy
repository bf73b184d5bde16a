/** The instructor-voice generator: builds an SSML request from a score report
    (the score and the corrected explanation, sanitised for SSML), hands it to
    the speech service, and records the audio under the session's file name.
    Any failure gives `None` instead of an exception. The speech service is a
    parameter. */
module ProfessorTts {
  import opened Wrappers
  import opened Text
  import CleanerChars

  // ---------------------------------------------------------------------------
  // cleanText
  // ---------------------------------------------------------------------------

  /** The characters SSML would read as markup. */
  predicate IsMarkup(c: char) {
    c == '&' || c == '<' || c == '>'
  }

  predicate NoMarkup(s: string) {
    forall i :: 0 <= i < |s| ==> !IsMarkup(s[i])
  }

  /** `s.replace(/[&<>]/g, "")`. */
  function DropMarkup(s: string): (r: string)
    ensures NoMarkup(r)
    ensures |r| <= |s|
  {
    if |s| == 0 then ""
    else if IsMarkup(s[0]) then DropMarkup(s[1..])
    else [s[0]] + DropMarkup(s[1..])
  }

  lemma {:induction false} DropMarkupNoMarkup(s: string)
    requires NoMarkup(s)
    ensures DropMarkup(s) == s
  {
    if |s| > 0 {
      DropMarkupNoMarkup(s[1..]);
      assert s == [s[0]] + s[1..];
    }
  }

  /** Removing markup and removing whitespace commute. */
  lemma {:induction false} DropMarkupNonSpace(s: string)
    ensures NonSpace(DropMarkup(s)) == DropMarkup(NonSpace(s))
  {
    if |s| > 0 {
      DropMarkupNonSpace(s[1..]);
      if !IsMarkup(s[0]) && !IsSpace(s[0]) {
        assert ([s[0]] + NonSpace(s[1..]))[1..] == NonSpace(s[1..]);
      } else if IsSpace(s[0]) && !IsMarkup(s[0]) {
        assert ([s[0]] + DropMarkup(s[1..]))[1..] == DropMarkup(s[1..]);
      } else if !IsSpace(s[0]) {
        assert ([s[0]] + NonSpace(s[1..]))[1..] == NonSpace(s[1..]);
      }
    }
  }

  lemma {:induction false} ReplaceSpaceRunsNoMarkup(s: string, rep: string)
    requires NoMarkup(s) && NoMarkup(rep)
    ensures NoMarkup(ReplaceSpaceRuns(s, rep))
    decreases |s|
  {
    if |s| > 0 {
      if IsSpace(s[0]) {
        ReplaceSpaceRunsNoMarkup(s[LeadSpaceCount(s)..], rep);
      } else {
        ReplaceSpaceRunsNoMarkup(s[1..], rep);
      }
    }
  }

  /** `cleanText`: markup characters removed, whitespace runs collapsed to one
      space, then trimmed. The result is safe inside an SSML element, has no
      padding and no doubled whitespace. */
  function CleanText(text: string): (r: string)
    ensures NoMarkup(r)
    ensures NoEdgeSpace(r)
    ensures SingleSpaced(r)
  {
    var d := DropMarkup(text);
    var c := CollapseSpaces(d);
    ReplaceSpaceRunsNoMarkup(d, " ");
    CollapseSingleSpaced(d);
    SingleSpacedTrim(c);
    Trim(c)
  }

  /** Only markup and whitespace change: the other characters survive in
      order. */
  lemma CleanTextKeeps(text: string)
    ensures NonSpace(CleanText(text)) == DropMarkup(NonSpace(text))
  {
    var d := DropMarkup(text);
    CleanerChars.TrimNonSpace(CollapseSpaces(d));
    CleanerChars.CollapseSpacesNonSpace(d);
    DropMarkupNonSpace(text);
  }

  /** Cleaning a cleaned text changes nothing. */
  lemma CleanTextIdempotent(text: string)
    ensures CleanText(CleanText(text)) == CleanText(text)
  {
    var r := CleanText(text);
    DropMarkupNoMarkup(r);
    CollapseFixesSingleSpaced(r);
    TrimTrimmed(r);
  }

  // ---------------------------------------------------------------------------
  // generateInstructorAudio
  // ---------------------------------------------------------------------------

  /** Spoken when the report has no corrected explanation. */
  const DefaultCorrection := "Improve clarity and reduce filler words for more effective teaching."

  /** What the function receives as its report: nothing, a plain string (as
      the session controller passes it), or a report object with its numeric
      `finalScore` (`None` when absent or not a number) and
      `improvementPlan.correctedVersion`. */
  datatype ReportArg =
    | NoReport
    | TextArg(text: string)
    | ReportObj(finalScore: Option<real>, correctedVersion: Option<string>)

  /** What is sent to the speech service: the score and the sanitised
      explanation placed inside the fixed SSML envelope. */
  datatype SsmlRequest = SsmlRequest(score: real, text: string)

  /** The explanation that is spoken: the corrected version when it is a
      non-empty string, the default sentence otherwise. */
  function SpokenText(correctedVersion: Option<string>): (r: string)
    ensures Truthy(correctedVersion) ==> r == CleanText(correctedVersion.value)
    ensures !Truthy(correctedVersion) ==> r == CleanText(DefaultCorrection)
  {
    CleanText(OrElse(correctedVersion, DefaultCorrection))
  }

  /** The file the audio is written to, inside the speech folder `ttsDir`. */
  function FeedbackFile(ttsDir: string, sessionId: string): string {
    ttsDir + "/" + sessionId + "_mentor_feedback.mp3"
  }

  /** `generateInstructorAudio(scoreReport, sessionId)`. Without a report
      object with a numeric score, reading `finalScore.toFixed` throws and the
      result is `None`; a failed synthesis is `None` too. */
  function GenerateInstructorAudio(arg: ReportArg, sessionId: string, ttsDir: string,
                                   synthesize: SsmlRequest -> bool): (r: Option<string>)
    ensures r.Some? <==> arg.ReportObj? && arg.finalScore.Some? &&
                         synthesize(SsmlRequest(arg.finalScore.value, SpokenText(arg.correctedVersion)))
    ensures r.Some? ==> r.value == FeedbackFile(ttsDir, sessionId)
  {
    match arg
    case ReportObj(Some(score), correctedVersion) =>
      if synthesize(SsmlRequest(score, SpokenText(correctedVersion))) then Some(FeedbackFile(ttsDir, sessionId))
      else None
    case _ => None
  }

  /** A plain string in place of the report never produces audio, whatever
      the speech service does. */
  lemma TextReportGivesNone(t: string, sessionId: string, ttsDir: string, synthesize: SsmlRequest -> bool)
    ensures GenerateInstructorAudio(TextArg(t), sessionId, ttsDir, synthesize) == None
  {
  }
}
