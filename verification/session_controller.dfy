/** The session handlers as a state machine over the session store. Every
    handler takes the store (a map from session id to session record) and the
    results of the services it calls (transcoder, transcriber, language model,
    rubric generator), and returns its reply together with the store
    afterwards. A handler that refuses a request leaves the store as it was. */
module SessionController {
  import opened Wrappers
  import opened Text
  import opened PauseDetector
  import opened SessionSrt
  import TranscriptCleaner
  import AudioMetrics
  import ClipExtractor
  import RubricGenerator

  // ---------------------------------------------------------------------------
  // The session record
  // ---------------------------------------------------------------------------

  /** `improvementPlan.correctedVersion` as the scoring handler tests it: a
      string, or any other JSON value together with its JavaScript truthiness
      (a non-empty array or any object is truthy; `null`, `false` and `0` are
      not). */
  datatype Corrected = CorrectedText(text: string) | CorrectedOther(truthy: bool)

  /** JavaScript truthiness of an optional corrected version. */
  predicate CorrectedTruthy(c: Option<Corrected>) {
    match c
    case None => false
    case Some(CorrectedText(t)) => t != ""
    case Some(CorrectedOther(b)) => b
  }

  /** `timestampEvidence` as the scoring handler reads it: an array of items,
      or any other JSON value. For the latter, `positiveLength` records whether
      the value is truthy and its `length` property is a number above 0, as for
      a non-empty string or an object with such a property. */
  datatype EvidenceField = EvidenceList(items: seq<ClipExtractor.Evidence>) | NotAList(positiveLength: bool)

  /** The parts of the language model's JSON reply that the handlers read or
      write: `finalScore` when it is a number, `improvementPlan.correctedVersion`,
      `timestampEvidence`, and `feedbackAudio`. Its other fields are carried
      along untouched. */
  datatype ScoreReport = ScoreReport(
    finalScore: Option<real>,
    correctedVersion: Option<Corrected>,
    timestampEvidence: Option<EvidenceField>,
    feedbackAudio: Option<string>)

  /** A stored session, one field per schema field; `None` is an absent field.
      `R` is the rubric and `B` the body-language metrics, both stored as
      received. */
  datatype Session<R, B> = Session(
    userId: Option<string>,
    institutionId: Option<string>,
    institutionCode: Option<string>,
    mentorName: Option<string>,
    role: Option<string>,
    videoPath: Option<string>,
    audioPath: Option<string>,
    transcript: Option<string>,
    srt: Option<string>,
    detectedLanguage: Option<string>,
    pauses: Option<PauseData>,
    audioMetrics: Option<AudioMetrics.Metrics>,
    bodyLanguageMetrics: Option<B>,
    scoreReport: Option<ScoreReport>,
    clips: Option<seq<ClipExtractor.ClipEntry>>,
    rubric: Option<R>,
    feedbackAudio: Option<string>)

  type Store<R, B> = map<string, Session<R, B>>

  predicate IsHexDigit(c: char) {
    '0' <= c <= '9' || 'a' <= c <= 'f' || 'A' <= c <= 'F'
  }

  /** Whether the database reads `id` as a document identifier: 24 hexadecimal
      digits. Looking up any other text throws a cast error, which each
      handler's `catch` answers with 500. */
  predicate IsObjectId(id: string) {
    |id| == 24 && forall i :: 0 <= i < |id| ==> IsHexDigit(id[i])
  }

  /** A handler's reply: its payload, an HTTP error, or the invalid-JSON error
      that hands back the model's raw text. */
  datatype Outcome<T> = Done(value: T) | Refused(status: nat, error: string) | InvalidJson(raw: string)

  /** A reply and the session store afterwards. */
  datatype Step<T, R, B> = Step(outcome: Outcome<T>, store: Store<R, B>)

  /** Every session other than `id` is as it was, and no session appears or
      disappears. */
  predicate OnlyTouches<R(==), B(==)>(before: Store<R, B>, after: Store<R, B>, id: string) {
    after.Keys == before.Keys && forall k :: k in before && k != id ==> after[k] == before[k]
  }

  // ---------------------------------------------------------------------------
  // createSession, uploadVideo
  // ---------------------------------------------------------------------------

  /** The requesting user's institution, as far as the handler reads it. */
  datatype UserInfo = UserInfo(institutionId: Option<string>, institutionCode: Option<string>)

  /** `createSession`. `id` is the identifier the database assigns; an
      identifier already in use makes the insert fail, and a missing user makes
      reading its institution throw, both reported as 500. */
  function CreateSession<R(==), B(==)>(db: Store<R, B>, id: string, userId: string, user: Option<UserInfo>,
                                       institutionCode: Option<string>, mentorName: Option<string>,
                                       role: Option<string>): (r: Step<string, R, B>)
    ensures r.outcome.Done? <==> id !in db && user.Some?
    ensures !r.outcome.Done? ==> r.store == db
    ensures r.outcome.Done? ==>
      r.outcome.value == id && r.store.Keys == db.Keys + {id} && (forall k :: k in db ==> r.store[k] == db[k])
    ensures r.outcome.Done? ==> var s := r.store[id];
      s.userId == Some(userId) && s.role == Some(OrElse(role, "teacher")) &&
      s.videoPath.None? && s.audioPath.None? && s.transcript.None? && s.scoreReport.None? &&
      s.clips.None? && s.feedbackAudio.None?
  {
    if id in db then Step(Refused(500, "Failed to create session"), db)
    else match user
      case None => Step(Refused(500, "Failed to create session"), db)
      case Some(u) =>
        var code := if Truthy(institutionCode) then institutionCode else u.institutionCode;
        var s := Session(Some(userId), u.institutionId, code, mentorName, Some(OrElse(role, "teacher")),
                         None, None, None, None, None, None, None, None, None, None, None, None);
        Step(Done(id), db[id := s])
  }

  /** `uploadVideo`: records the stored upload's path; a request without a
      file throws when the path is read, reported as 500. */
  function UploadVideo<R(==), B(==)>(db: Store<R, B>, id: string, file: Option<string>): (r: Step<string, R, B>)
    ensures r.outcome.Done? <==> IsObjectId(id) && id in db && file.Some?
    ensures !IsObjectId(id) ==> r.outcome == Refused(500, "Video upload failed")
    ensures IsObjectId(id) && id !in db ==> r.outcome == Refused(404, "Session not found")
    ensures !r.outcome.Done? ==> r.store == db
    ensures OnlyTouches(db, r.store, id)
    ensures r.outcome.Done? ==> r.store[id] == db[id].(videoPath := Some(file.value))
  {
    if !IsObjectId(id) then Step(Refused(500, "Video upload failed"), db)
    else if id !in db then Step(Refused(404, "Session not found"), db)
    else if file.None? then Step(Refused(500, "Video upload failed"), db)
    else Step(Done(file.value), db[id := db[id].(videoPath := file)])
  }

  // ---------------------------------------------------------------------------
  // extractAudioFromVideo
  // ---------------------------------------------------------------------------

  /** The audio file the transcoder writes: `<audioDir>/<now>.wav`, `now` being
      the clock in milliseconds. */
  function AudioFile(audioDir: string, now: nat): string {
    audioDir + "/" + NatToString(now) + ".wav"
  }

  /** Audio files written at different instants have different names. */
  lemma {:induction false} AudioFilesDistinct(audioDir: string, a: nat, b: nat)
    ensures AudioFile(audioDir, a) == AudioFile(audioDir, b) <==> a == b
  {
    var x, y := NatToString(a), NatToString(b);
    if AudioFile(audioDir, a) == AudioFile(audioDir, b) {
      var f, n := AudioFile(audioDir, a), |audioDir| + 1;
      assert |x| == |y|;
      assert x == f[n..n + |x|];
      assert y == AudioFile(audioDir, b)[n..n + |y|];
      NatToStringInjective(a, b);
    }
  }

  /** `extractAudioFromVideo`. `transcoded` says whether the transcoder ran to
      its end event; only then is the audio path stored. */
  function ExtractAudio<R(==), B(==)>(db: Store<R, B>, id: string, audioDir: string, now: nat,
                                      transcoded: bool): (r: Step<string, R, B>)
    ensures r.outcome.Done? <==> IsObjectId(id) && id in db && Truthy(db[id].videoPath) && transcoded
    ensures !IsObjectId(id) ==> r.outcome == Refused(500, "Audio extraction error")
    ensures IsObjectId(id) && id !in db ==> r.outcome == Refused(404, "Session not found")
    ensures IsObjectId(id) && id in db && !Truthy(db[id].videoPath) ==> r.outcome == Refused(400, "Video not uploaded yet")
    ensures !r.outcome.Done? ==> r.store == db
    ensures OnlyTouches(db, r.store, id)
    ensures r.outcome.Done? ==>
      r.outcome.value == AudioFile(audioDir, now) && r.store[id] == db[id].(audioPath := Some(AudioFile(audioDir, now)))
  {
    if !IsObjectId(id) then Step(Refused(500, "Audio extraction error"), db)
    else if id !in db then Step(Refused(404, "Session not found"), db)
    else if !Truthy(db[id].videoPath) then Step(Refused(400, "Video not uploaded yet"), db)
    else if !transcoded then Step(Refused(500, "Audio extraction failed"), db)
    else
      var out := AudioFile(audioDir, now);
      Step(Done(out), db[id := db[id].(audioPath := Some(out))])
  }

  // ---------------------------------------------------------------------------
  // generateTranscript
  // ---------------------------------------------------------------------------

  /** The transcriber's reply: its text and its segments, each possibly
      absent. */
  datatype Transcription = Transcription(text: Option<string>, segments: Option<seq<Segment>>)

  /** What the handler returns on success. */
  datatype Transcribed = Transcribed(transcript: string, audioMetrics: AudioMetrics.Metrics,
                                     pauses: PauseData, segments: seq<Segment>)

  function Max(a: real, b: real): (m: real)
    ensures m >= a && m >= b && (m == a || m == b)
  {
    if a >= b then a else b
  }

  /** The speaking time handed to the metrics: the span from the first
      segment's start to the last segment's end, at least one second; without
      segments, 0.4 s per space-separated piece of the transcript, at least two
      seconds. */
  function DurationSec(transcript: string, segs: seq<Segment>): (d: real)
    ensures |segs| > 0 ==> d >= 1.0 && d >= segs[|segs| - 1].end - segs[0].start
    ensures |segs| > 0 ==> d == 1.0 || d == segs[|segs| - 1].end - segs[0].start
    ensures |segs| == 0 ==> d >= 2.0 && d >= |Split(transcript, ' ')| as real * 0.4
    ensures |segs| == 0 ==> d == 2.0 || d == |Split(transcript, ' ')| as real * 0.4
  {
    if |segs| > 0 then Max(1.0, segs[|segs| - 1].end - segs[0].start)
    else Max(2.0, |Split(transcript, ' ')| as real * 0.4)
  }

  /** Without segments, a transcript of at most five space-separated pieces
      gets the two-second floor, and a longer one gets more. */
  lemma ShortTranscriptFloor(transcript: string)
    ensures DurationSec(transcript, []) == 2.0 <==> |Split(transcript, ' ')| <= 5
  {
  }

  /** No segment time is outside what `format` can render. */
  predicate AllRenderable(segs: seq<Segment>) {
    forall k :: 0 <= k < |segs| ==> Renderable(segs[k])
  }

  const NoPauses := PauseData(0, [])

  /** The pause data stored by the transcript stage: the detector's result on
      the SRT built from the segments, or no pauses when building the SRT or
      detecting throws. */
  function StagePauses(segs: seq<Segment>): (pd: PauseData)
    ensures pd.totalPauses == |pd.pauses|
    ensures AllRenderable(segs) && DetectPauses(SrtOf(segs)).Ok? ==> pd == DetectPauses(SrtOf(segs)).value
    ensures !AllRenderable(segs) || DetectPauses(SrtOf(segs)).Err? ==> pd == NoPauses
  {
    if !AllRenderable(segs) then NoPauses
    else match DetectPauses(SrtOf(segs))
      case Ok(pd) => pd
      case Err(_) => NoPauses
  }

  /** What a successful transcript stage computes from the transcriber's text
      and segments: the cleaned transcript, the pause data and the metrics
      over both. */
  function TranscriptResult(text: string, segs: seq<Segment>): (t: Transcribed)
    ensures t.transcript == TranscriptCleaner.CleanTranscript(Some(text))
    ensures t.pauses == StagePauses(segs) && t.segments == segs
    ensures t.pauses.totalPauses == |t.pauses.pauses| == t.audioMetrics.pauseCount
    ensures t.audioMetrics.totalWords == |AudioMetrics.Words(t.transcript)|
  {
    var transcript := TranscriptCleaner.CleanTranscript(Some(text));
    var pd := StagePauses(segs);
    Transcribed(transcript, AudioMetrics.CalculateAudioMetrics(transcript, DurationSec(transcript, segs), Some(pd)),
                pd, segs)
  }

  /** The transcriber's text is usable: non-empty and not all whitespace. */
  predicate UsableText(reply: Transcription) {
    Truthy(reply.text) && |Trim(reply.text.value)| > 0
  }

  /** `generateTranscript`. `reply` is the transcriber's answer (`None` when the
      call throws) and `stringify` stands for `JSON.stringify` on the
      segments. */
  function GenerateTranscript<R(==), B(==)>(db: Store<R, B>, id: string, reply: Option<Transcription>,
                                            stringify: seq<Segment> -> string): (r: Step<Transcribed, R, B>)
    ensures r.outcome.Done? <==>
      IsObjectId(id) && id in db && Truthy(db[id].audioPath) && reply.Some? && UsableText(reply.value)
    ensures !IsObjectId(id) ==> r.outcome == Refused(500, "Transcript generation failed")
    ensures IsObjectId(id) && id !in db ==> r.outcome == Refused(404, "Session not found")
    ensures IsObjectId(id) && id in db && Truthy(db[id].audioPath) && reply.Some? && !UsableText(reply.value) ==>
              r.outcome == Refused(500, "Transcript empty")
    ensures IsObjectId(id) && id in db && !Truthy(db[id].audioPath) ==>
              r.outcome == Refused(400, "Audio not extracted yet")
    ensures !r.outcome.Done? ==> r.store == db
    ensures OnlyTouches(db, r.store, id)
    ensures r.outcome.Done? ==> var s := r.store[id];
      s == db[id].(transcript := s.transcript, srt := s.srt, detectedLanguage := s.detectedLanguage,
                   pauses := s.pauses, audioMetrics := s.audioMetrics)
    ensures r.outcome.Done? ==> r.outcome.value.transcript == TranscriptCleaner.CleanTranscript(reply.value.text)
    ensures r.outcome.Done? ==> var s, t := r.store[id], r.outcome.value;
      s.transcript == Some(t.transcript) && s.pauses == Some(t.pauses) && s.audioMetrics == Some(t.audioMetrics)
    ensures r.outcome.Done? ==> r.store[id].detectedLanguage == Some("English")
  {
    if !IsObjectId(id) then Step(Refused(500, "Transcript generation failed"), db)
    else if id !in db then Step(Refused(404, "Session not found"), db)
    else if !Truthy(db[id].audioPath) then Step(Refused(400, "Audio not extracted yet"), db)
    else match reply
      case None => Step(Refused(500, "Transcript generation failed"), db)
      case Some(tr) =>
        if !UsableText(tr) then Step(Refused(500, "Transcript empty"), db)
        else
          var segs := if tr.segments.Some? then tr.segments.value else [];
          var t := TranscriptResult(tr.text.value, segs);
          var s := db[id].(transcript := Some(t.transcript), srt := Some(stringify(segs)),
                           detectedLanguage := Some("English"), pauses := Some(t.pauses),
                           audioMetrics := Some(t.audioMetrics));
          Step(Done(t), db[id := s])
  }

  /** End to end: with segments whose times `format` renders and whose text
      holds no timing line, the stored pause data names segment `j` exactly
      when it starts at least a second (of clock time) after segment `j - 1`
      ends. */
  lemma TranscriptPauses(segs: seq<Segment>, j: nat)
    requires forall k :: 0 <= k < |segs| ==> Renderable(segs[k]) && PlainText(segs[k])
    ensures Reports(StagePauses(segs).pauses, j) <==>
      1 <= j < |segs| &&
      ClockMs(TruncMs(segs[j].start)) - ClockMs(TruncMs(segs[j - 1].end)) >= PauseThresholdMs
  {
    GeneratedSrtPauses(segs, j);
  }

  // ---------------------------------------------------------------------------
  // saveBodyMetrics
  // ---------------------------------------------------------------------------

  /** `saveBodyMetrics`: stores the request body as the body-language metrics
      of an existing session, whatever its stage. */
  function SaveBodyMetrics<R(==), B(==)>(db: Store<R, B>, id: string, body: B): (r: Step<B, R, B>)
    ensures r.outcome.Done? <==> IsObjectId(id) && id in db
    ensures !IsObjectId(id) ==> r.outcome == Refused(500, "Failed to save body metrics")
    ensures IsObjectId(id) && id !in db ==> r.outcome == Refused(404, "Session not found")
    ensures !r.outcome.Done? ==> r.store == db
    ensures OnlyTouches(db, r.store, id)
    ensures r.outcome.Done? ==> r.outcome.value == body && r.store[id] == db[id].(bodyLanguageMetrics := Some(body))
  {
    if !IsObjectId(id) then Step(Refused(500, "Failed to save body metrics"), db)
    else if id !in db then Step(Refused(404, "Session not found"), db)
    else Step(Done(body), db[id := db[id].(bodyLanguageMetrics := Some(body))])
  }

  // ---------------------------------------------------------------------------
  // scoreSession
  // ---------------------------------------------------------------------------

  /** The report both `scoreSession` and `getSessionReport` return. `None`
      stands for an absent value and for the empty object the report puts in
      its place. */
  datatype Report<R, B> = Report(
    sessionId: string,
    mentorName: Option<string>,
    role: Option<string>,
    institutionCode: Option<string>,
    transcript: Option<string>,
    audioMetrics: Option<AudioMetrics.Metrics>,
    pauses: Option<PauseData>,
    bodyLanguageMetrics: Option<B>,
    rubric: Option<R>,
    scoreReport: Option<ScoreReport>,
    evidenceClips: seq<ClipExtractor.ClipEntry>,
    feedbackAudio: Option<string>)

  /** The services the scoring handler consults: the rubric generator (`None`
      when its request is rejected) and the JSON parser for its text, the language model's reply (`None` when the
      call throws) and the parser for it (`None` for text that is not JSON),
      the clip folder and the clip transcoder. */
  datatype Scorers<R> = Scorers(
    generateRubric: string -> Option<string>,
    parseRubric: string -> Option<R>,
    aiText: Option<string>,
    parseReport: string -> Option<ScoreReport>,
    clipDir: string,
    transcode: ClipExtractor.ClipRequest -> bool)

  /** The reply of `scoreSession`, the session store and the rubric store
      afterwards. */
  datatype Scored<R, B> = Scored(outcome: Outcome<Report<R, B>>, store: Store<R, B>, rubrics: map<string, R>)

  /** The role a session is scored for: its own, else the request's, else
      "teacher". */
  function ScoringRole(own: Option<string>, requested: Option<string>): (role: string)
    ensures Truthy(own) ==> role == own.value
    ensures !Truthy(own) && Truthy(requested) ==> role == requested.value
    ensures !Truthy(own) && !Truthy(requested) ==> role == "teacher"
  {
    OrElse(own, OrElse(requested, "teacher"))
  }

  /** The path recorded for the spoken feedback. */
  function FeedbackPath(sessionId: string): string {
    "tts/feedback_" + sessionId + ".mp3"
  }

  /** A numeric score below 3.5 with a truthy corrected version. */
  predicate NeedsFeedback(rep: ScoreReport) {
    rep.finalScore.Some? && rep.finalScore.value < 3.5 && CorrectedTruthy(rep.correctedVersion)
  }

  /** The report as stored: when feedback is needed, its `feedbackAudio` is
      set to the recorded path. The speech generator is also called then, but
      its result is discarded, so it plays no part here. */
  function WithFeedback(rep: ScoreReport, sessionId: string): (r: ScoreReport)
    ensures r.(feedbackAudio := rep.feedbackAudio) == rep
  {
    if NeedsFeedback(rep) then rep.(feedbackAudio := Some(FeedbackPath(sessionId))) else rep
  }

  /** `p.replace(/\\/g, "/")`. */
  function ForwardSlashes(p: string): (r: string)
    ensures |r| == |p| && '\\' !in r
    ensures forall i :: 0 <= i < |p| ==> r[i] == (if p[i] == '\\' then '/' else p[i])
  {
    if |p| == 0 then "" else [if p[0] == '\\' then '/' else p[0]] + ForwardSlashes(p[1..])
  }

  /** A path without backslashes is left as it is. */
  lemma ForwardSlashesKeeps(p: string)
    requires '\\' !in p
    ensures ForwardSlashes(p) == p
  {
  }

  /** Clips are cut only for a non-empty evidence list of a session with a
      video. */
  predicate ClipsWanted<R, B>(rep: ScoreReport, s: Session<R, B>) {
    rep.timestampEvidence.Some? && rep.timestampEvidence.value.EvidenceList? &&
    |rep.timestampEvidence.value.items| > 0 && Truthy(s.videoPath)
  }

  /** Evidence that is not an array but has a positive `length` passes the
      handler's test, and the extractor's `evidenceArray.map` then throws. */
  predicate EvidenceThrows<R, B>(rep: ScoreReport, s: Session<R, B>) {
    rep.timestampEvidence == Some(NotAList(true)) && Truthy(s.videoPath)
  }

  /** The clips the handler stores: none unless wanted, otherwise the
      extractor's clips with their paths' backslashes turned into slashes. */
  function StoredClips<R, B>(rep: ScoreReport, s: Session<R, B>, sessionId: string, svc: Scorers<R>)
    : (cs: seq<ClipExtractor.ClipEntry>)
    ensures !ClipsWanted(rep, s) ==> cs == []
    ensures ClipsWanted(rep, s) ==>
      var made := ClipExtractor.GenerateEvidenceClips(s.videoPath.value, svc.clipDir, sessionId,
                                                      rep.timestampEvidence.value.items, svc.transcode);
      |cs| == |made| &&
      forall i :: 0 <= i < |cs| ==>
        cs[i] == made[i].(path := ForwardSlashes(made[i].path))
    ensures forall i :: 0 <= i < |cs| ==> '\\' !in cs[i].path
  {
    if !ClipsWanted(rep, s) then []
    else
      var made := ClipExtractor.GenerateEvidenceClips(s.videoPath.value, svc.clipDir, sessionId,
                                                      rep.timestampEvidence.value.items, svc.transcode);
      seq(|made|, i requires 0 <= i < |made| => made[i].(path := ForwardSlashes(made[i].path)))
  }

  /** `scoreSession`. The rubric is fetched (and, on a miss, generated and
      stored) before the transcript is checked. */
  function ScoreSession<R(==), B(==)>(db: Store<R, B>, id: string, requestedRole: Option<string>,
                                      rubrics: map<string, R>, svc: Scorers<R>): (r: Scored<R, B>)
    ensures r.outcome.Done? <==>
      IsObjectId(id) && id in db &&
      RubricGenerator.GetRubricForRole(ScoringRole(db[id].role, requestedRole), rubrics,
                                       svc.generateRubric, svc.parseRubric).result.Ok? &&
      Truthy(db[id].transcript) && svc.aiText.Some? && svc.parseReport(svc.aiText.value).Some? &&
      !EvidenceThrows(svc.parseReport(svc.aiText.value).value, db[id])
    ensures !IsObjectId(id) ==> r.outcome == Refused(500, "Scoring failed") && r.rubrics == rubrics
    ensures IsObjectId(id) && id !in db ==> r.outcome == Refused(404, "Session not found") && r.rubrics == rubrics
    ensures IsObjectId(id) && id in db ==>
      (RubricGenerator.GetRubricForRole(ScoringRole(db[id].role, requestedRole), rubrics,
                                        svc.generateRubric, svc.parseRubric).result.Err? ==>
       r.outcome == Refused(500, "Scoring failed"))
    ensures IsObjectId(id) && id in db ==>
      RubricGenerator.GetRubricForRole(ScoringRole(db[id].role, requestedRole), rubrics,
                                       svc.generateRubric, svc.parseRubric).result.Ok? ==>
      (!Truthy(db[id].transcript) ==> r.outcome == Refused(400, "Transcript not generated yet")) &&
      (Truthy(db[id].transcript) && svc.aiText.None? ==> r.outcome == Refused(500, "Scoring failed")) &&
      (Truthy(db[id].transcript) && svc.aiText.Some? && svc.parseReport(svc.aiText.value).None? ==>
         r.outcome == InvalidJson(svc.aiText.value)) &&
      (Truthy(db[id].transcript) && svc.aiText.Some? && svc.parseReport(svc.aiText.value).Some? &&
       EvidenceThrows(svc.parseReport(svc.aiText.value).value, db[id]) ==>
         r.outcome == Refused(500, "Scoring failed"))
    ensures r.outcome.InvalidJson? ==> svc.aiText == Some(r.outcome.raw) && svc.parseReport(r.outcome.raw).None?
    ensures !r.outcome.Done? ==> r.store == db
    ensures OnlyTouches(db, r.store, id)
    ensures r.outcome.Done? ==> var s := r.store[id];
      s == db[id].(scoreReport := s.scoreReport, clips := s.clips, rubric := s.rubric)
    ensures r.outcome.Done? ==> var s, rep := r.store[id], r.outcome.value;
      s.scoreReport == rep.scoreReport && s.clips == Some(rep.evidenceClips) && s.rubric == rep.rubric &&
      s.scoreReport == Some(WithFeedback(svc.parseReport(svc.aiText.value).value, id)) &&
      s.rubric.Some? && RubricGenerator.RoleSlug(ScoringRole(db[id].role, requestedRole)) in r.rubrics &&
      r.rubrics[RubricGenerator.RoleSlug(ScoringRole(db[id].role, requestedRole))] == s.rubric.value
    ensures IsObjectId(id) && id in db ==>
      r.rubrics == RubricGenerator.GetRubricForRole(ScoringRole(db[id].role, requestedRole), rubrics,
                                                    svc.generateRubric, svc.parseRubric).store
  {
    if !IsObjectId(id) then Scored(Refused(500, "Scoring failed"), db, rubrics)
    else if id !in db then Scored(Refused(404, "Session not found"), db, rubrics)
    else
      var s := db[id];
      var lookup := RubricGenerator.GetRubricForRole(ScoringRole(s.role, requestedRole), rubrics,
                                                     svc.generateRubric, svc.parseRubric);
      if lookup.result.Err? then Scored(Refused(500, "Scoring failed"), db, lookup.store)
      else if !Truthy(s.transcript) then Scored(Refused(400, "Transcript not generated yet"), db, lookup.store)
      else match svc.aiText
        case None => Scored(Refused(500, "Scoring failed"), db, lookup.store)
        case Some(text) =>
          match svc.parseReport(text)
          case None => Scored(InvalidJson(text), db, lookup.store)
          case Some(parsed) =>
            var rep := WithFeedback(parsed, id);
            if EvidenceThrows(rep, s) then Scored(Refused(500, "Scoring failed"), db, lookup.store)
            else
            var clips := StoredClips(rep, s, id, svc);
            var rubric := lookup.result.value;
            var report := Report(id, s.mentorName, s.role, s.institutionCode, s.transcript, s.audioMetrics,
                                 s.pauses, s.bodyLanguageMetrics, Some(rubric), Some(rep), clips,
                                 if Truthy(rep.feedbackAudio) then rep.feedbackAudio else None);
            Scored(Done(report), db[id := s.(scoreReport := Some(rep), clips := Some(clips), rubric := Some(rubric))],
                   lookup.store)
  }

  /** The spoken-feedback rule: the stored report names the feedback file
      exactly when the score is below 3.5 and a corrected version is given,
      and otherwise keeps whatever `feedbackAudio` the model itself returned. */
  lemma FeedbackRule<R, B>(db: Store<R, B>, id: string, requestedRole: Option<string>,
                                   rubrics: map<string, R>, svc: Scorers<R>)
    requires ScoreSession(db, id, requestedRole, rubrics, svc).outcome.Done?
    ensures var parsed := svc.parseReport(svc.aiText.value).value;
            var stored := ScoreSession(db, id, requestedRole, rubrics, svc).store[id].scoreReport.value;
            (NeedsFeedback(parsed) ==> stored.feedbackAudio == Some(FeedbackPath(id))) &&
            (!NeedsFeedback(parsed) ==> stored == parsed) &&
            stored.finalScore == parsed.finalScore && stored.timestampEvidence == parsed.timestampEvidence
  {
  }

  /** Evidence that is not an array yet has a positive length, for a session
      with a video, makes the clip extractor throw: the request fails with 500
      and no session changes, although a missing rubric has already been
      generated and kept. */
  lemma NonListEvidenceFails<R, B>(db: Store<R, B>, id: string, requestedRole: Option<string>,
                                   rubrics: map<string, R>, svc: Scorers<R>)
    requires IsObjectId(id) && id in db && Truthy(db[id].transcript) && Truthy(db[id].videoPath)
    requires RubricGenerator.GetRubricForRole(ScoringRole(db[id].role, requestedRole), rubrics,
                                              svc.generateRubric, svc.parseRubric).result.Ok?
    requires svc.aiText.Some? && svc.parseReport(svc.aiText.value).Some?
    requires svc.parseReport(svc.aiText.value).value.timestampEvidence == Some(NotAList(true))
    ensures var r := ScoreSession(db, id, requestedRole, rubrics, svc);
            r.outcome == Refused(500, "Scoring failed") && r.store == db &&
            RubricGenerator.RoleSlug(ScoringRole(db[id].role, requestedRole)) in r.rubrics
  {
  }

  /** The clip rule: without evidence or without a video no clip is stored;
      otherwise one clip per item the extractor succeeded on, each with its
      item's issue and reason. No stored path holds a backslash. */
  lemma ClipRule<R, B>(db: Store<R, B>, id: string, requestedRole: Option<string>,
                               rubrics: map<string, R>, svc: Scorers<R>)
    requires ScoreSession(db, id, requestedRole, rubrics, svc).outcome.Done?
    ensures var parsed := svc.parseReport(svc.aiText.value).value;
            var clips := ScoreSession(db, id, requestedRole, rubrics, svc).store[id].clips.value;
            (forall i :: 0 <= i < |clips| ==> '\\' !in clips[i].path) &&
            (!ClipsWanted(parsed, db[id]) ==> clips == []) &&
            (ClipsWanted(parsed, db[id]) ==>
              var ev := parsed.timestampEvidence.value.items;
              var attempts := ClipExtractor.Attempts(db[id].videoPath.value, svc.clipDir, id, ev, svc.transcode);
              |clips| == |ev| - ClipExtractor.NoneCount(attempts))
  {
    var parsed := svc.parseReport(svc.aiText.value).value;
    var rep := WithFeedback(parsed, id);
    assert ClipsWanted(rep, db[id]) == ClipsWanted(parsed, db[id]);
    if ClipsWanted(parsed, db[id]) {
      ClipExtractor.ClipsCount(db[id].videoPath.value, svc.clipDir, id, parsed.timestampEvidence.value.items,
                               svc.transcode);
    }
  }

  /** The rubric is fetched before the transcript is checked: scoring a session
      without a transcript is refused, yet a role whose rubric was missing has
      it generated and kept. */
  lemma RubricBeforeTranscript<R, B>(db: Store<R, B>, id: string, requestedRole: Option<string>,
                                             rubrics: map<string, R>, svc: Scorers<R>)
    requires IsObjectId(id) && id in db && !Truthy(db[id].transcript)
    requires RubricGenerator.RoleSlug(ScoringRole(db[id].role, requestedRole)) !in rubrics
    requires var raw := svc.generateRubric(ScoringRole(db[id].role, requestedRole));
             raw.Some? && svc.parseRubric(raw.value).Some?
    ensures var r := ScoreSession(db, id, requestedRole, rubrics, svc);
            r.outcome == Refused(400, "Transcript not generated yet") && r.store == db &&
            RubricGenerator.RoleSlug(ScoringRole(db[id].role, requestedRole)) in r.rubrics
  {
  }

  // ---------------------------------------------------------------------------
  // getSessionReport
  // ---------------------------------------------------------------------------

  /** `getSessionReport`: the stored fields, absent ones as empty values. */
  function GetSessionReport<R, B>(db: Store<R, B>, id: string): (r: Outcome<Report<R, B>>)
    ensures r.Done? <==> IsObjectId(id) && id in db
    ensures !IsObjectId(id) ==> r == Refused(500, "Server error")
    ensures IsObjectId(id) && id !in db ==> r == Refused(404, "Session not found")
    ensures r.Done? ==>
      r.value.sessionId == id && r.value.mentorName == db[id].mentorName && r.value.role == db[id].role &&
      r.value.institutionCode == db[id].institutionCode
    ensures r.Done? ==>
      r.value.transcript == db[id].transcript && r.value.scoreReport == db[id].scoreReport &&
      r.value.rubric == db[id].rubric && r.value.pauses == db[id].pauses &&
      r.value.audioMetrics == db[id].audioMetrics && r.value.bodyLanguageMetrics == db[id].bodyLanguageMetrics
    ensures r.Done? && db[id].clips.Some? ==> r.value.evidenceClips == db[id].clips.value
    ensures r.Done? ==> (r.value.feedbackAudio.Some? <==> Truthy(db[id].feedbackAudio))
    ensures r.Done? ==> (db[id].clips.None? ==> r.value.evidenceClips == [])
  {
    if !IsObjectId(id) then Refused(500, "Server error")
    else if id !in db then Refused(404, "Session not found")
    else
      var s := db[id];
      Done(Report(id, s.mentorName, s.role, s.institutionCode, s.transcript, s.audioMetrics, s.pauses,
                  s.bodyLanguageMetrics, s.rubric, s.scoreReport, if s.clips.Some? then s.clips.value else [],
                  if Truthy(s.feedbackAudio) then s.feedbackAudio else None))
  }

  // ---------------------------------------------------------------------------
  // Runs of requests
  // ---------------------------------------------------------------------------

  /** One request to a handler, with the services' results it meets. */
  datatype Request<R, B> =
    | Create(id: string, userId: string, user: Option<UserInfo>, institutionCode: Option<string>,
             mentorName: Option<string>, role: Option<string>)
    | Upload(id: string, file: Option<string>)
    | Extract(id: string, audioDir: string, now: nat, transcoded: bool)
    | Transcribe(id: string, reply: Option<Transcription>, stringify: seq<Segment> -> string)
    | SaveBody(id: string, body: B)
    | Score(id: string, requestedRole: Option<string>, svc: Scorers<R>)

  /** The session store and the rubric store after one request. */
  function Apply<R(==), B(==)>(db: Store<R, B>, rubrics: map<string, R>, q: Request<R, B>)
    : (r: (Store<R, B>, map<string, R>))
    ensures db.Keys <= r.0.Keys
  {
    match q
    case Create(id, userId, user, code, name, role) => (CreateSession(db, id, userId, user, code, name, role).store, rubrics)
    case Upload(id, file) => (UploadVideo(db, id, file).store, rubrics)
    case Extract(id, dir, now, ok) => (ExtractAudio(db, id, dir, now, ok).store, rubrics)
    case Transcribe(id, reply, stringify) => (GenerateTranscript(db, id, reply, stringify).store, rubrics)
    case SaveBody(id, body) => (SaveBodyMetrics(db, id, body).store, rubrics)
    case Score(id, role, svc) =>
      var r := ScoreSession(db, id, role, rubrics, svc);
      (r.store, r.rubrics)
  }

  /** The stores after a sequence of requests, handled one after another. */
  function Run<R(==), B(==)>(db: Store<R, B>, rubrics: map<string, R>, qs: seq<Request<R, B>>)
    : (r: (Store<R, B>, map<string, R>))
    decreases |qs|
  {
    if |qs| == 0 then (db, rubrics) else
    var next := Apply(db, rubrics, qs[0]);
    Run(next.0, next.1, qs[1..])
  }

  /** No session has a top-level `feedbackAudio`. */
  predicate NoFeedbackAudio<R, B>(db: Store<R, B>) {
    forall k :: k in db ==> db[k].feedbackAudio.None?
  }

  /** No handler writes the top-level `feedbackAudio`. */
  lemma ApplyKeepsNoFeedbackAudio<R, B>(db: Store<R, B>, rubrics: map<string, R>, q: Request<R, B>)
    requires NoFeedbackAudio(db)
    ensures NoFeedbackAudio(Apply(db, rubrics, q).0)
  {
    match q
    case Create(id, userId, user, code, name, role) =>
      CreateKeepsNoFeedbackAudio(db, id, userId, user, code, name, role);
    case Upload(id, file) =>
      UploadKeepsNoFeedbackAudio(db, id, file);
    case Extract(id, dir, now, ok) =>
      ExtractKeepsNoFeedbackAudio(db, id, dir, now, ok);
    case Transcribe(id, reply, stringify) =>
      TranscribeKeepsNoFeedbackAudio(db, id, reply, stringify);
    case SaveBody(id, body) =>
      SaveBodyKeepsNoFeedbackAudio(db, id, body);
    case Score(id, role, svc) =>
      ScoreKeepsNoFeedbackAudio(db, id, role, rubrics, svc);
  }

  lemma CreateKeepsNoFeedbackAudio<R, B>(db: Store<R, B>, id: string, userId: string, user: Option<UserInfo>,
                                         code: Option<string>, name: Option<string>, role: Option<string>)
    requires NoFeedbackAudio(db)
    ensures NoFeedbackAudio(CreateSession(db, id, userId, user, code, name, role).store)
  {
  }

  lemma UploadKeepsNoFeedbackAudio<R, B>(db: Store<R, B>, id: string, file: Option<string>)
    requires NoFeedbackAudio(db)
    ensures NoFeedbackAudio(UploadVideo(db, id, file).store)
  {
  }

  lemma ExtractKeepsNoFeedbackAudio<R, B>(db: Store<R, B>, id: string, dir: string, now: nat, ok: bool)
    requires NoFeedbackAudio(db)
    ensures NoFeedbackAudio(ExtractAudio(db, id, dir, now, ok).store)
  {
  }

  lemma TranscribeKeepsNoFeedbackAudio<R, B>(db: Store<R, B>, id: string, reply: Option<Transcription>,
                                             stringify: seq<Segment> -> string)
    requires NoFeedbackAudio(db)
    ensures NoFeedbackAudio(GenerateTranscript(db, id, reply, stringify).store)
  {
  }

  lemma SaveBodyKeepsNoFeedbackAudio<R, B>(db: Store<R, B>, id: string, body: B)
    requires NoFeedbackAudio(db)
    ensures NoFeedbackAudio(SaveBodyMetrics(db, id, body).store)
  {
  }

  lemma ScoreKeepsNoFeedbackAudio<R, B>(db: Store<R, B>, id: string, role: Option<string>,
                                        rubrics: map<string, R>, svc: Scorers<R>)
    requires NoFeedbackAudio(db)
    ensures NoFeedbackAudio(ScoreSession(db, id, role, rubrics, svc).store)
  {
  }

  lemma {:induction false} RunKeepsNoFeedbackAudio<R, B>(db: Store<R, B>, rubrics: map<string, R>,
                                                                  qs: seq<Request<R, B>>)
    requires NoFeedbackAudio(db)
    ensures NoFeedbackAudio(Run(db, rubrics, qs).0)
    decreases |qs|
  {
    if |qs| > 0 {
      var next := Apply(db, rubrics, qs[0]);
      ApplyKeepsNoFeedbackAudio(db, rubrics, qs[0]);
      RunKeepsNoFeedbackAudio(next.0, next.1, qs[1..]);
    }
  }

  /** Whatever requests are handled, starting from an empty store, the session
      report's `feedbackAudio` is null: scoring records the feedback path only
      inside the score report. */
  lemma ReportFeedbackAudioNull<R, B>(rubrics: map<string, R>, qs: seq<Request<R, B>>, id: string)
    requires GetSessionReport(Run(map[], rubrics, qs).0, id).Done?
    ensures GetSessionReport(Run(map[], rubrics, qs).0, id).value.feedbackAudio.None?
  {
    RunKeepsNoFeedbackAudio(map[], rubrics, qs);
  }
}
