# Mentor scoring pipeline, modelled in Dafny

This project models the text-and-timing pipeline of the mentor scoring
service. That pipeline turns a recorded teaching session into a scored report
backed by evidence. It also proves properties of that model. The modules follow
the source files:

- `PauseDetector` (`pause_detector.dfy`) reads the `HH:MM:SS,mmm --> HH:MM:SS,mmm`
  timing lines of an SRT text. It reports a pause for every pair of adjacent
  cues separated by a gap of at least 1000 ms. Times are integer milliseconds,
  and JavaScript's `NaN` is a value of `JsNumber.Num`.
- `SessionSrt` (`session_srt.dfy`) builds the SRT text that the session
  controller creates from the transcriber's segments. This includes the `format`
  helper, which renders a segment time as a clock stamp. It proves that the
  pause detector reads back exactly the clock times `format` wrote.
- `TranscriptCleaner` and `CleanerChars` cover `cleanTranscript`, modelled as
  one function per regular-expression step.
- `AudioMetrics` covers `calculateAudioMetrics` and the unused helpers
  `getPaceScore` and `getClarityScore`. Ratio thresholds are compared by
  cross-multiplication, and a zero denominator makes the comparison false, as
  a `NaN` comparison is false in JavaScript.
- `ClipExtractor` covers the clip extractor's own time parser and the clip
  duration. In `generateEvidenceClips`, the transcoder is an oracle, and
  `Promise.all` is modelled as an order-preserving map.
- `RubricGenerator` covers the role slug and the load-or-generate rubric cache.
  The rubric folder is modelled as a map from slug to rubric.
- `ProfessorTts` covers SSML text sanitising and the fallbacks of the
  instructor-voice generator.
- `GoogleTts` covers `optimizeTextForTTS`. Its two regular expressions are
  modelled exactly, including the backtracking of `[^}]+`.
- `BulkReport` covers the data part of the bulk PDF report: grouping by user,
  per-teacher averages, the ranking sort and the score colour.
- `SessionController` models the session handlers as a state machine over a
  store of `Session` records. The record has one field per schema field. The
  results of the transcoder, the transcriber, the language model and the
  rubric generator are parameters.

Notes on the code as written:

- The cleaner is not idempotent. Step 5 removes only one copy of a repeated
  word per pass. For a word that is no filler, `"w w w"` becomes `"w w"`, and
  cleaning that gives `"w"`. `TranscriptCleaner.CleanNotIdempotent` proves
  that a second pass can change the text.
- The scoring handler passes a string to the instructor-voice generator. That
  generator expects a report object, so it always returns `null`
  (`ProfessorTts.TextReportGivesNone`). The handler records
  `tts/feedback_<id>.mp3` whatever that call returns. It records the path only
  inside the score report. No handler writes the session's top-level
  `feedbackAudio`, so the session report always returns `null` for it
  (`SessionController.ReportFeedbackAudioNull`).
- The scoring handler fetches the rubric before it checks the transcript. A
  request that is refused for lack of a transcript can still generate and store
  a rubric (`SessionController.RubricBeforeTranscript`).
- The upload handler overwrites `videoPath` on every upload
  (sessionController.js:49, `SessionController.UploadVideo`).

## Model

| member | source | states |
|---|---|---|
| `PauseDetector.TimeToMs` | src/utils/pauseDetector.js:1-5 | A time string throws exactly when it has fewer than three ':'-separated parts, because the third part is then missing when it is split on ','. |
| `PauseDetector.TimeToMsFields` | src/utils/pauseDetector.js:1-5 | For digit fields, the milliseconds field is read as an integer count, however many digits it has. |
| `PauseDetector.TimeToMsNoFraction` | src/utils/pauseDetector.js:3-4 | A seconds field without ",mmm" makes the time `NaN`. |
| `PauseDetector.TimingLines` | src/utils/pauseDetector.js:12-13 | A line is kept as a timing line exactly when it contains "-->". |
| `PauseDetector.TimingLinesPositions` | src/utils/pauseDetector.js:8-22 | The timing lines are the input's arrow lines in their original order: each sits at its own input position, the positions increase, and every arrow line is among them. |
| `PauseDetector.TimingLinesAppend` | src/utils/pauseDetector.js:12-22 | The timing lines keep line order: the timing lines of two texts joined are the timing lines of each, in order. |
| `PauseDetector.ParseTimingLine` | src/utils/pauseDetector.js:1-14 | A line without "-->" throws. Otherwise the start is the trimmed text before the first "-->" and the end the trimmed text between it and the next one (or the line's end); the call succeeds exactly when both read as times, and the millisecond fields are those times. |
| `PauseDetector.PauseAt` | src/utils/pauseDetector.js:30-38 | A pause after cue i has `segmentAfter` i+1, a duration of at least 1000 ms, and gap texts equal to the end text of cue i and the start text of cue i+1. |
| `PauseDetector.PausesFrom` | src/utils/pauseDetector.js:26-40 | Every reported pause names a cue in [1, n-1], and the gap before that cue is a pause. |
| `PauseDetector.PausesFromOrdered` | src/utils/pauseDetector.js:26-34 | The `segmentAfter` values are strictly increasing, so no two pauses share an index. |
| `PauseDetector.PausesFromComplete` | src/utils/pauseDetector.js:26-40 | Every adjacent pair whose gap is at least 1000 ms is reported. |
| `PauseDetector.DetectPauses` | src/utils/pauseDetector.js:7-46 | `totalPauses` equals the number of pauses, and every pause lasts at least 1000 ms. The call throws exactly when a timing line cannot be parsed. |
| `PauseDetector.PauseIff` | src/utils/pauseDetector.js:26-40 | A pause is reported before cue j exactly when 1 ≤ j < n and the start of cue j minus the end of cue j-1 is at least 1000 ms. Touching or overlapping cues never give a pause. |
| `PauseDetector.NoTimingLines` | src/utils/pauseDetector.js:24-45 | A text with no timing line gives zero pauses and no error. |
| `PauseDetector.FewerThanTwoCues` | src/utils/pauseDetector.js:26-45 | With fewer than two timing lines, a text that parses gives zero pauses and an empty list. |
| `PauseDetector.NaNNeverPauses` | src/utils/pauseDetector.js:30-32 | No pause is reported at a boundary where either time is `NaN`. |
| `JsNumber.Number` | src/utils/pauseDetector.js:4 | `Number(s)` is finite exactly when the trimmed text is empty or an optionally signed decimal digit string. |
| `JsNumber.NumberOfDigits` | src/utils/pauseDetector.js:4 | `Number` of a digit string is its decimal value. |
| `SessionSrt.TruncMsBounds` | src/controllers/sessionController.js:199 | The millisecond count of `new Date(sec * 1000)` is the exact product truncated toward zero. |
| `SessionSrt.FormatMs` | src/controllers/sessionController.js:198-201 | `format` gives twelve characters with no whitespace, no '-' and no line feed. |
| `SessionSrt.FormatRoundTrip` | src/controllers/sessionController.js:198-201 | Re-reading `format`'s output with the pause detector's parser gives back the instant's UTC time of day in milliseconds. |
| `SessionSrt.Cues` | src/controllers/sessionController.js:155-159 | Cue k of the SRT text is numbered k+1 and holds segment k's timing line and text. |
| `SessionSrt.ParseCueTiming` | src/controllers/sessionController.js:157 | The pause detector parses a generated timing line into the two stamps that `format` wrote. |
| `SessionSrt.SrtTimingLines` | src/controllers/sessionController.js:155-161 | When no segment text holds a timing line, the timing lines of the generated SRT are exactly the segments' timing lines, in order. |
| `SessionSrt.SrtStamps` | src/controllers/sessionController.js:155-161 | On the generated SRT, the detector's stamps are the segments' stamps, and no error occurs. |
| `SessionSrt.GeneratedSrtPauses` | src/controllers/sessionController.js:153-164 | On the generated SRT, a pause is reported before segment j exactly when its start is at least 1000 ms of clock time after the end of segment j-1. |
| `TranscriptCleaner.NewlinesToSpaces` | src/utils/transcriptCleaner.js:27 | Every line feed becomes a space, and nothing else changes. |
| `TranscriptCleaner.CrlfToLfKeeps` | src/utils/transcriptCleaner.js:22 | A text without '\r' is not changed by the line-ending step. |
| `TranscriptCleaner.CollapsePunctuationNoDoubled` | src/utils/transcriptCleaner.js:38 | After step 4, no character of `? ! . ,` is directly followed by itself. |
| `TranscriptCleaner.CollapseRepeatsNoDoubled` | src/utils/transcriptCleaner.js:40-45 | The repeated-word steps never make two identical punctuation characters adjacent. |
| `TranscriptCleaner.RepeatCollapsed` | src/utils/transcriptCleaner.js:42 | A word, whitespace, and the same word up to letter case become the first copy. |
| `TranscriptCleaner.RepeatKept` | src/utils/transcriptCleaner.js:42-45 | A word followed by a different word, or by a word that the rule does not cover, is left alone. |
| `TranscriptCleaner.CollapseRepeatsKeepsPlain` | src/utils/transcriptCleaner.js:40-45 | The repeated-word steps keep single-spaced word text single-spaced. |
| `TranscriptCleaner.SpaceAfterCommaSpaced` | src/utils/transcriptCleaner.js:48 | After step 7, every comma that is not last is followed by whitespace, provided no comma was doubled. |
| `TranscriptCleaner.ConcatSplitSentences` | src/utils/transcriptCleaner.js:54-56 | Splitting at sentence ends with the separators captured, then joining with "", gives the text back. |
| `TranscriptCleaner.RejoinShape` | src/utils/transcriptCleaner.js:56 | Step 8 trims and single-spaces the text, and keeps the punctuation properties already established. |
| `TranscriptCleaner.CleanedShape` | src/utils/transcriptCleaner.js:38-59 | Steps 4 to 9 give a trimmed, single-spaced text with no line feed and no doubled punctuation. Every comma that is not last is followed by exactly one space. |
| `TranscriptCleaner.CleanTranscript` | src/utils/transcriptCleaner.js:18-62 | A missing or empty input gives "". The output has no edge whitespace, no line feed, no whitespace run, no doubled punctuation, and one space after every comma that is not last. |
| `TranscriptCleaner.CleanPlainWords` | src/utils/transcriptCleaner.js:18-62 | On words separated by single spaces, only the two repeated-word rules change anything. |
| `TranscriptCleaner.RepeatedTwice` | src/utils/transcriptCleaner.js:42 | A word said twice in a row is kept once. |
| `TranscriptCleaner.RepeatedThrice` | src/utils/transcriptCleaner.js:40-42 | A word said three times in a row keeps two copies after one pass. |
| `TranscriptCleaner.CleanNotIdempotent` | src/utils/transcriptCleaner.js:40-45 | For a word that is no filler, "w w w" cleans to "w w" and then to "w", so cleaning twice differs from cleaning once. |
| `TranscriptCleaner.CleanFillerThrice` | src/utils/transcriptCleaner.js:42-45 | A filler said three times becomes one copy in one pass: step 5 keeps two copies, and step 6 removes the second. |
| `CleanerChars.CleanKeepsCharacters` | src/utils/transcriptCleaner.js:18-61 | Letter case is never changed: the non-whitespace characters of the output are a subsequence of those of the input. |
| `AudioMetrics.WordsSpec` | src/utils/audioMetrics.js:72 | The words are non-empty and hold no whitespace. Together they are the text's non-whitespace characters, in order. |
| `AudioMetrics.SentencesSpec` | src/utils/audioMetrics.js:76-79 | Every sentence is non-empty, trimmed, and holds no sentence end. |
| `AudioMetrics.FillerIff` | src/utils/audioMetrics.js:89-105 | A word is a filler exactly when its lower-case letters-only form is um, uh, like, okay, right or basically. "you know" never matches a single word. |
| `AudioMetrics.CountFillers` | src/utils/audioMetrics.js:98-112 | The loop counts the fillers and the fillers that directly follow a filler. |
| `AudioMetrics.ClustersBound` | src/utils/audioMetrics.js:101-112 | There are at most max(0, fillers - 1) filler clusters. |
| `AudioMetrics.RatioAboveMeaning` | src/utils/audioMetrics.js:114-133 | The cross-multiplied threshold test holds exactly when the denominator is positive and the ratio exceeds the threshold. |
| `AudioMetrics.WordsPerMin` | src/utils/audioMetrics.js:84-86 | Words per minute is 0 for a zero duration. Otherwise it is within one half of words / duration · 60. |
| `AudioMetrics.RepetitionCountNone` | src/utils/audioMetrics.js:145-150 | Without two adjacent words that are equal up to case, no repetition is counted. |
| `AudioMetrics.CalculateAudioMetrics` | src/utils/audioMetrics.js:71-193 | Several bounds hold: `totalSentences` ≥ 1, `wordsPerMin` is 0 at zero duration, `pauseCount` is the length of the pause list (0 when missing), complexity is in [3,10], pronunciation is in {6,8,10}, and stability is in {2,4,6,8,10}. The filler count is at most the word count. |
| `AudioMetrics.EmptyTranscript` | src/utils/audioMetrics.js:71-193 | An empty transcript gives zero words, one sentence, and full complexity and pronunciation scores. |
| `AudioMetrics.PaceScore` | src/utils/audioMetrics.js:50-56 | The pace score is 3, 6 or 10, and it is 10 exactly when 90 ≤ wpm ≤ 140. |
| `AudioMetrics.ClarityScore` | src/utils/audioMetrics.js:59-69 | The clarity score stays in [1,10]. |
| `AudioMetrics.ManyFillersCostSix` | src/utils/audioMetrics.js:63-64 | More than ten fillers cost six points in total, down to the floor of 1. |
| `ClipExtractor.ReplaceFirst` | src/utils/clipExtractor.js:10 | Only the first occurrence of the character is replaced. |
| `ClipExtractor.FormatTimestamp` | src/utils/clipExtractor.js:8-11 | The timestamp is trimmed, and its first ',' becomes '.'. A trimmed stamp without ',' is unchanged. |
| `ClipExtractor.FormatStamp` | src/utils/clipExtractor.js:8-11 | An SRT stamp h:m:s,f becomes h:m:s.f. |
| `ClipExtractor.ClipTimeToMs` | src/utils/clipExtractor.js:14-16 | A time with other than three ':'-separated parts is 0. |
| `ClipExtractor.ClipTimeAgrees` | src/utils/clipExtractor.js:14-25 | On times with a milliseconds field, the clip parser and the pause parser agree. |
| `ClipExtractor.ClipTimeWholeSeconds` | src/utils/clipExtractor.js:22 | On "h:m:s", the clip parser gives whole seconds where the pause parser gives `NaN`. |
| `ClipExtractor.Fixed3RoundTrip` | src/utils/clipExtractor.js:42 | The duration written with three decimals reads back as the millisecond duration. |
| `ClipExtractor.RequestDuration` | src/utils/clipExtractor.js:31-42 | The requested duration is end - start. Nothing checks that end ≥ start. |
| `ClipExtractor.ClipNamesDistinct` | src/utils/clipExtractor.js:105 | Clip names of two items are equal exactly when the items have the same index. |
| `ClipExtractor.Span` | src/utils/clipExtractor.js:101-103 | An end time exists exactly when the timestamp contains "-->". |
| `ClipExtractor.ClipAttempt` | src/utils/clipExtractor.js:98-123 | An item gives a clip exactly when its timestamp exists, contains "-->" and the transcoder succeeds. The clip keeps the item's issue and reason and is named after the item's index. |
| `ClipExtractor.Attempts` | src/utils/clipExtractor.js:98-124 | There is one attempt per item, in item order. |
| `ClipExtractor.GenerateEvidenceClips` | src/utils/clipExtractor.js:85-129 | There are never more clips than items. |
| `ClipExtractor.ClipOrigin` | src/utils/clipExtractor.js:115-128 | A clip is in the result exactly when some item's attempt produced it. |
| `ClipExtractor.ClipsAppend` | src/utils/clipExtractor.js:120-128 | Items are handled independently: the clips of a split list are the clips of each part, and one failure never alters a sibling's entry. |
| `ClipExtractor.ClipsCount` | src/utils/clipExtractor.js:120-128 | N items with M failures give N - M clips. |
| `ClipExtractor.NoArrowNoClip` | src/utils/clipExtractor.js:101-123 | An item whose timestamp has no "-->" fails. |
| `RubricGenerator.RoleSlug` | src/utils/rubricGenerator.js:91 | A non-empty role gives a non-empty slug. |
| `RubricGenerator.SlugShape` | src/utils/rubricGenerator.js:91 | The slug holds no whitespace and no capital letter. |
| `RubricGenerator.SameSlug` | src/utils/rubricGenerator.js:91-96 | Roles that differ only in letter case or in the length of whitespace runs share a slug. |
| `RubricGenerator.GetRubricForRole` | src/utils/rubricGenerator.js:78-108 | The generator is consulted exactly on a miss. The call fails exactly when it misses and the generator's request is rejected or its text is not JSON; a failure stores nothing and names the error it propagates. On success, the rubric is stored under the slug. The store only grows, and only at the slug. |
| `RubricGenerator.CacheHit` | src/utils/rubricGenerator.js:94-96 | A hit returns the stored rubric and changes nothing. |
| `RubricGenerator.SecondCallHits` | src/utils/rubricGenerator.js:98-107 | After a success, any role with the same slug is a hit that returns the same rubric. |
| `RubricGenerator.InvalidJsonStoresNothing` | src/utils/rubricGenerator.js:101-105 | Generator output that is not JSON throws before anything is stored. |
| `RubricGenerator.GeneratorFailureStoresNothing` | src/utils/rubricGenerator.js:78-101 | A rejected request to the language model propagates out of the lookup, and nothing is stored. |
| `ProfessorTts.DropMarkup` | src/utils/professorTTS.js:72 | No '&', '<' or '>' remains. |
| `ProfessorTts.CleanText` | src/utils/professorTTS.js:71-73 | `cleanText` output has no markup character and no edge whitespace, and no run of two whitespace characters. |
| `ProfessorTts.CleanTextKeeps` | src/utils/professorTTS.js:72 | Only markup and whitespace change: the other characters survive, in order. |
| `ProfessorTts.CleanTextIdempotent` | src/utils/professorTTS.js:72 | `cleanText` is idempotent. |
| `ProfessorTts.SpokenText` | src/utils/professorTTS.js:26-28 | A missing or empty corrected version is replaced by the fixed default sentence. |
| `ProfessorTts.GenerateInstructorAudio` | src/utils/professorTTS.js:22-68 | A file is returned exactly when the argument is a report with a numeric score and synthesis succeeds. The file is `<sessionId>_mentor_feedback.mp3` in the speech folder. Every failure gives `null`. |
| `ProfessorTts.TextReportGivesNone` | src/utils/professorTTS.js:33 | A plain string in place of the report always gives `null`. |
| `GoogleTts.LastQuote` | src/utils/googleTTS.js:78 | Backtracking tries the opening quote from the last position down. The result is the last position where `"([^"]+)"` matches. |
| `GoogleTts.MatchAtKey` | src/utils/googleTTS.js:78 | At a given key, the match is the last opening quote before the first '}'. There is none when no quote pair fits. |
| `GoogleTts.CorrectedMatch` | src/utils/googleTTS.js:78 | There is no match exactly when no key, quote and quote fit the pattern. A match is a real match. |
| `GoogleTts.CaptureText` | src/utils/googleTTS.js:79-80 | The capture is non-empty and holds no '"'. |
| `GoogleTts.OptimizeTextForTts` | src/utils/googleTTS.js:74-93 | Falsy text gives the fixed message. A corrected-version match gives its capture. Otherwise an issues match gives the prefix plus the first 1500 characters. Otherwise the text is returned as is or cut to 2000 characters plus "...". Every branch except the capture gives at most 2003 characters. |
| `GoogleTts.NoKeyOnlyCut` | src/utils/googleTTS.js:78-92 | A text without "correctedVersion" is only ever cut. |
| `GoogleTts.CaptureIsQuoted` | src/utils/googleTTS.js:78-81 | The spoken capture lies between two quotes that follow the key, with no '}' between the key and the opening quote. |
| `GoogleTts.GenerateInstructorAudio` | src/utils/googleTTS.js:22-71 | The file `uploads/tts/<id>_mentor_feedback.mp3` is returned exactly when synthesis succeeds, and `null` otherwise. |
| `BulkReport.KeysDistinct` | src/utils/pdf/generateBulkSessionReport.js:49-60 | Group keys are distinct. |
| `BulkReport.KeysFilter` | src/utils/pdf/generateBulkSessionReport.js:51-59 | A key has a group exactly when some session has that key, and its group is non-empty. |
| `BulkReport.KeysGrow` | src/utils/pdf/generateBulkSessionReport.js:51-59 | Groups appear in first-appearance order: the keys of a prefix of the sessions are a prefix of the keys. |
| `BulkReport.FindGroup` | src/utils/pdf/generateBulkSessionReport.js:52 | The lookup finds the group with the key, or reports that there is none. |
| `BulkReport.GroupedIsReference` | src/utils/pdf/generateBulkSessionReport.js:49-60 | Grouping gives, for each key in first-appearance order, the sessions with that key in input order, named after the first one. |
| `BulkReport.GroupSizesTotal` | src/utils/pdf/generateBulkSessionReport.js:49-60 | Every session lands in exactly one group: the group sizes sum to the number of sessions. |
| `BulkReport.RankingOf` | src/utils/pdf/generateBulkSessionReport.js:68-80 | A ranking entry keeps its group's name, email and size, and its average rounds the mean score, with a missing score counted as 0. |
| `BulkReport.RankingsCover` | src/utils/pdf/generateBulkSessionReport.js:68-80 | There is one entry per group. Every entry has at least one session, so the "0.00" branch is never taken. The session counts sum to the input length. |
| `BulkReport.Fixed2` | src/utils/pdf/generateBulkSessionReport.js:72 | The two-decimal average is within 0.005 of the exact mean. |
| `BulkReport.Insert` | src/utils/pdf/generateBulkSessionReport.js:164 | Inserting into a non-increasing list keeps it non-increasing and adds exactly the new entry. |
| `BulkReport.SortRankings` | src/utils/pdf/generateBulkSessionReport.js:164 | The sorted rankings are non-increasing in average and a permutation of the list before sorting. |
| `BulkReport.ScoreColour` | src/utils/pdf/generateBulkSessionReport.js:105 | The danger colour is used exactly when the score is below 2.5. |
| `SessionController.CreateSession` | src/controllers/sessionController.js:23-37 | A new session has its user and role ("teacher" by default), and no video, audio, transcript, score, clips or feedback. A missing user or a taken identifier writes nothing. |
| `SessionController.UploadVideo` | src/controllers/sessionController.js:42-59 | A malformed session id fails the lookup with 500, an unknown one gives 404. Only the video path of that session changes, and it is overwritten on every upload. |
| `SessionController.AudioFilesDistinct` | src/controllers/sessionController.js:82 | Audio files written at different milliseconds have different names. |
| `SessionController.ExtractAudio` | src/controllers/sessionController.js:65-104 | A malformed session id gives 500, an unknown one 404. Audio extraction needs a video path: without one it is refused with 400 and writes nothing. On success, only the audio path changes. |
| `SessionController.DurationSec` | src/controllers/sessionController.js:143-150 | With segments, the duration is the span from the first start to the last end, at least 1. Without segments, it is 0.4 per space-separated piece, at least 2. |
| `SessionController.ShortTranscriptFloor` | src/controllers/sessionController.js:149 | Without segments, the 2-second floor applies exactly up to five pieces. |
| `SessionController.StagePauses` | src/controllers/sessionController.js:153-166 | The stored pause data is the detector's result on the generated SRT. If building the SRT or detection throws, it falls back to zero pauses. |
| `SessionController.TranscriptResult` | src/controllers/sessionController.js:139-172 | The transcript is the cleaned text, and the metrics' pause count equals the stored pause total. |
| `SessionController.GenerateTranscript` | src/controllers/sessionController.js:109-195 | A malformed session id gives 500, an unknown one 404. Transcription needs an audio path. Empty or whitespace-only text is refused before any write. On success, only the transcript, SRT, language, pauses and metrics change, and the language is "English". |
| `SessionController.TranscriptPauses` | src/controllers/sessionController.js:153-172 | End to end, the stored pause data names segment j exactly when it starts at least a second after segment j-1 ends. |
| `SessionController.SaveBodyMetrics` | src/controllers/sessionController.js:207-232 | A malformed session id gives 500, an unknown one 404. Body metrics have no precondition beyond an existing session, and only that field changes. |
| `SessionController.ScoringRole` | src/controllers/sessionController.js:246 | The role is the session's own, else the request's, else "teacher". |
| `SessionController.WithFeedback` | src/controllers/sessionController.js:396-415 | Adding feedback touches only `feedbackAudio`. |
| `SessionController.ForwardSlashes` | src/controllers/sessionController.js:433 | Every backslash becomes '/', and no backslash remains. |
| `SessionController.ForwardSlashesKeeps` | src/controllers/sessionController.js:431-434 | A path without backslashes is left as it is. |
| `SessionController.StoredClips` | src/controllers/sessionController.js:418-435 | Clips are cut only for a non-empty evidence list and a video. Otherwise the result is []. The result is the extractor's clips with slashes fixed, and no path holds a backslash. |
| `SessionController.ScoreSession` | src/controllers/sessionController.js:234-470 | A malformed session id gives 500, an unknown one 404. A failed rubric lookup gives 500. With the rubric in hand, a missing transcript gives 400, a failed model call 500, and model output that does not parse exactly the invalid-JSON error carrying the raw text; none of these writes a session. Evidence that is not an array but has a positive length fails with 500. On success, only the score report, clips and rubric change, and the rubric is the stored one for the role's slug. |
| `SessionController.FeedbackRule` | src/controllers/sessionController.js:399-415 | The stored report's `feedbackAudio` is `tts/feedback_<id>.mp3` when the score is below 3.5 and the corrected version is truthy in JavaScript's sense, whether a string, an array or an object. Otherwise the report is stored as parsed. |
| `SessionController.ClipRule` | src/controllers/sessionController.js:418-435 | Without evidence or a video no clip is stored. Otherwise there is one clip per successful item, and no stored path holds a backslash. |
| `SessionController.RubricBeforeTranscript` | src/controllers/sessionController.js:246-251 | A request refused for lack of a transcript still generates and stores a missing rubric. |
| `SessionController.NonListEvidenceFails` | src/controllers/sessionController.js:418-429 | Evidence that is not an array yet has a positive `length` passes the handler's test, the extractor's `map` throws, and the request fails with 500 and writes no session, while a missing rubric has already been stored. |
| `SessionController.GetSessionReport` | src/controllers/sessionController.js:472-505 | A malformed session id gives 500, an unknown one 404. The report carries the id and copies every stored field it names, including the stored clips, and gives [] for missing clips. Its `feedbackAudio` is present exactly when the session's top-level field is set. |
| `SessionController.RunKeepsNoFeedbackAudio` | src/controllers/sessionController.js:438-442 | No sequence of handler calls ever writes the top-level `feedbackAudio`. |
| `SessionController.ReportFeedbackAudioNull` | src/controllers/sessionController.js:498 | Starting from an empty store, the session report's `feedbackAudio` is always `null`. |

## Left out

- Authentication, institutions, other report queries, HTTP routing and PDF drawing are not modelled. Neither are the session report PDF and the `createdAt` timestamps. They are plumbing or rendering over foreign libraries.
- The transcoder, the transcriber, the language model, the rubric generator and the speech service are parameters or oracles. So are `JSON.stringify` and `JSON.parse`. The prompt text and the transcoder options are not modelled.
- Filesystem effects are not modelled: folder creation, file writes and existence checks. The rubric folder is a map from slug to rubric, on the assumption that a saved rubric reads back unchanged. A corrupted rubric file is not modelled.
- `Promise.all` and the asynchronous callbacks are modelled as order-preserving sequential maps. Concurrency is out of scope.
- Floating point is not modelled. Times are integer milliseconds, and segment times, durations, averages and ratios are exact `real`s. The "X.XX sec" duration text, `Math.round` and `toFixed` rounding on binary floats, and the 1.0 s threshold under float error are out of scope.
- JsNumber.Number: only optionally signed decimal digit strings (and blank text) are read. Every other form gives `NaN` in the model, including those JavaScript reads as numbers: decimal fractions, exponents, hex, binary and octal literals, and `Infinity`.
- Strings are ASCII `seq<char>`. Unicode semantics of `\s`, `\w`, `\b` and `toLowerCase` are out of scope.
- `countWords`, `countSentences` and `detectFillers` are unused helpers in the metrics file and are not modelled.
- AudioMetrics.PaceScore: takes an integer or `NaN` words-per-minute, as `Math.round` supplies. Fractional arguments are not modelled.
- AudioMetrics.ClarityScore: takes an integer or `NaN` words-per-minute, as above.
- AudioMetrics.CalculateAudioMetrics: a pause object that lacks a `pauses` field cannot be written in the model. The sentence variance is computed on exact reals.
- PauseDetector.FewerThanTwoCues: states the result only for text whose timing lines parse. A malformed timing line throws, as `TimeToMs` shows.
- CleanerChars.CleanKeepsCharacters: assumes the input holds no '<'. Literal paragraph-marker text in the input interacts with the marker replacement.
- SessionController.StagePauses: segment times outside the years 0000-9999 go to the no-pause fallback. The source throws only beyond ±8.64·10^15 ms, and otherwise slices a six-digit-year ISO string.
- Session ids count as document identifiers when they are 24 hexadecimal digits. Other forms a database driver may also accept, such as a 12-byte value, are not modelled.
- SessionController.ScoreSession: `finalScore` counts only as a number. A numeric string or `null` would compare with 3.5 in JavaScript. JSON that parses to a non-object is not modelled. A `feedbackAudio` in the model's reply that is not a string is not modelled. The speech generator's result is discarded by the handler, so the model does not call it (see `ProfessorTts.TextReportGivesNone`).
- SessionController.GenerateTranscript: the transcriber's text and segment fields are taken to be strings and numbers.
- ClipExtractor.GenerateEvidenceClips: `path.join` normalisation is not modelled. The clip folder is a parameter, and paths are joined with '/'.
- ClipExtractor.Fixed3RoundTrip: the duration is in whole milliseconds. Float rounding in `toFixed(3)` is not modelled.
- ProfessorTts.GenerateInstructorAudio: the SSML envelope text and the `toFixed(1)` rendering of the score are abstracted to the score itself. A corrected version that is not a string is not modelled.
- BulkReport.Rankings: `Object.values` lists integer-like keys first in JavaScript. The model keeps plain first-appearance order. `NaN` and non-number scores are not modelled.
