# AI mock interview: a Dafny model of its session logic

The system is a mock-interview application. The single-page browser client
walks a candidate through spoken interview questions:

- choose an interview type and a number of questions;
- record an answer to each question with the browser's speech recogniser, or
  skip it;
- finish on a results page that summarises the session.

A FastAPI server offers the same flow over HTTP. It keeps a question bank,
picks the questions of a new session and asks a language model for a score
once the session is complete.

This project models the part of that system that decides what happens:

- **`Session`** (`session.dfy`) is the client's `InterviewApp` state as a
  value. It has one transition function per operation: starting an interview,
  moving between the landing and setup pages, recording, updating the
  transcript, stopping, error handling, skipping,
  advancing, completing and resetting. The session invariant is `Inv`.
- **`App`** (`app.dfy`) is the `InterviewApp` object itself. It is a class
  whose fields the methods update in place, and each method is proved to
  produce the state the matching `Session` function gives. The module also
  holds the recogniser's `onresult` loop (`CollectTranscripts`), which splits
  results into final and interim text.
- **`Analysis`** (`analysis.dfy`) is the results computation of
  `generateResults`/`generateMockAnalysis`:
  - which responses count as answered;
  - how many words they hold;
  - the feedback bucket and template;
  - the stored analysis record.
- **`Text`** (`text.dfy`) holds JavaScript `trim`, Python `strip`, and
  `split`/`join` on one separator, with their round trips.
- **`Api`** (`api.dfy`) covers three pure parts of the server:
  - question selection in `setup_interview`;
  - the cleaning of the model reply's code fence;
  - the score fallback chain of `complete_interview`.
- **`Wrappers`** holds the `Option` type.

The browser environment enters as parameters:

- whether the recogniser exists and whether its start or restart succeeds;
- the current time in milliseconds;
- the rounded sub-scores;
- the user's answer to the confirmation dialog;
- whether the live-transcript element exists.

For the server, the language model's reply and the JSON parser enter as
parameters.

The canned feedback sentences of the client's templates are named by the
constructors of `Analysis.Phrase`. `Analysis.PhraseText` gives the exact
sentence the client shows for each, so the templates and the analysis record
hold phrase names instead of repeating the sentences.

A response slot written past the end of the responses array grows the array.
In JavaScript the gap holds `undefined`. The model fills the gap with empty
strings (`Session.JsArraySet`), because every reader of the responses treats
`undefined` and `''` alike.

## Model

| member | source | states |
|---|---|---|
| Text.Trim | app.js:512 | the result is `s` with its maximal leading and trailing whitespace runs removed; it is empty iff `s` is all whitespace |
| Text.TrimUnique | app.js:479-480 | the trim of a string is unique, so `Trim` is determined by its specification |
| Text.TrimIdempotent | app.js:512 | trimming twice gives the same result as trimming once |
| Text.Split | app.js:585 | splitting yields at least one piece |
| Text.SplitPiecesLackSep | app.js:585 | no piece of a split contains the separator |
| Text.JoinSplit | app.js:585 | joining the pieces of a split with the separator gives back the original string |
| Text.SplitJoin | app.js:585 | splitting a join of separator-free pieces gives back the pieces |
| Text.SplitConcat | app.js:585 | splitting `a + sep + b` gives the pieces of `a` followed by the pieces of `b` |
| Text.Join | app.js:585 | the join of no parts is empty; otherwise it starts with the first part and its length is the parts' total length plus one separator per gap |
| Analysis.AnsweredResponses | app.js:574 | every answered response (non-empty and not the skip text) is kept as many times as it occurs, and every other response is dropped |
| Analysis.AnsweredCount | app.js:574 | the number of kept responses equals the number of answered positions |
| Analysis.NonEmptyPartsAppend | app.js:585 | filtering out empty words distributes over concatenation |
| Analysis.WordCount | app.js:585 | a string has no words iff it holds nothing but spaces |
| Analysis.NoWordsIffSpaces | app.js:585 | splitting on spaces leaves no non-empty piece iff the string is all spaces |
| Analysis.TotalWords | app.js:585 | the word count of the space-joined responses is the sum of each response's own word count |
| Analysis.JoinedWordsIsSum | app.js:585 | joining with a space neither merges nor invents words |
| Analysis.BucketFor | app.js:594-596 | the bucket is excellent iff score >= 90, good iff 80 <= score < 90, and average iff score < 80 |
| Analysis.TemplateFor | app.js:75-94 | every bucket's template has at least three strengths and two improvements, so the analysis always shows three and two |
| Analysis.Take | app.js:605-606 | `slice(0, n)` has length min(n, length) and is a prefix of its input |
| Analysis.DurationMinutes | app.js:608 | the duration in minutes is the elapsed milliseconds divided by 60000 and rounded half up, with a null start read as 0 |
| Analysis.MockAnalysis | app.js:584-612 | the record passes the four scores through; it holds the first 3 strengths and first 2 improvements of the score bucket's template and all its suggestions; the duration is `DurationMinutes`; the word total is the sum of the answers' word counts; the answered count is the number of answers |
| Analysis.GenerateResults | app.js:573-612 | the record counts the answered positions and sums their word counts; it passes the four scores through; it holds 3 strengths and 2 improvements, each a prefix of the score bucket's template, and the template's suggestions; the duration is `DurationMinutes` of the start and end times |
| Analysis.SkippedThenAnswered | app.js:523-526 | a skipped question followed by an answer gives one answered question, and its words are all counted |
| Session.TypeQuestions | app.js:360 | each of the three known types has a bank of five questions; any other type has none |
| Session.ErrorMessage | app.js:339-351 | the generic message is chosen iff the code is none of "not-allowed", "no-speech", "network"; no error message equals an ordinary status line |
| Session.BlankIffWhitespace | app.js:512 | `!s.trim()` holds iff the string is all JavaScript whitespace |
| Session.JsArraySet | app.js:514 | an indexed write past the end grows the array to index + 1; the written slot reads the value; every other slot reads as before |
| Session.InitialStateInv | app.js:3-17 | the freshly constructed client satisfies the session invariant |
| Session.OpenSetup | app.js:104-107 | the landing page's start button shows the setup page and changes nothing else; the invariant is kept |
| Session.BackToLanding | app.js:110-112 | the setup page's back button shows the landing page and changes nothing else; the invariant is kept |
| Session.SetupRoundTrip | app.js:104-112 | going to the setup page and back restores a landing-page state exactly |
| Session.StartInterview | app.js:356-363 | the questions are a prefix of the type's bank of length min(count, bank size); the responses are `count` empty strings; the start time is stamped; the index is 0 on the interview page; the invariant holds |
| Session.StartUnknownTypeHasNoQuestions | app.js:360 | a type missing from the bank starts a session with no questions |
| Session.UpdateTranscript | app.js:501-521 | nothing changes without the transcript element or with blank final text; otherwise the final text is appended to the transcript, which becomes the current slot's response, and advancing is enabled; other slots are unchanged and the invariant is kept |
| Session.InterimNeverStored | app.js:501-521 | interim text has no effect on the stored state |
| Session.StopRecording | app.js:451-485 | recording is off; the status shows the completed text; advancing is enabled iff the current response is not blank; nothing else changes |
| Session.StopRecordingIdempotent | app.js:451-485 | stopping twice is stopping once |
| Session.StartRecording | app.js:417-449 | without a recogniser nothing changes; otherwise recording is on iff the start succeeds, the transcript is cleared, and a failed start ends in the stopped state; responses are untouched |
| Session.ToggleRecording | app.js:409-415 | stops when recording; otherwise recording is on afterwards iff a recogniser exists and starts; responses are untouched |
| Session.HandleRecognitionError | app.js:336-354 | every error code ends recording, with the same state as a plain stop (the category message is overwritten) |
| Session.OnRecognitionEnd | app.js:316-330 | an end event while recording either restarts (no change) or stops; recording is off afterwards iff it was off or the restart failed |
| Session.ResetQuestionState | app.js:540-559 | the transcript is cleared, advancing is disabled and the prompt is shown; nothing else changes; the invariant holds after iff it held before |
| Session.CompleteInterview | app.js:567-571 | the end time is stamped; the analysis counts the answered responses and their words and keeps the overall score; the page becomes results; the invariant holds after iff the responses cover the questions |
| Session.NextQuestion | app.js:528-538 | the index moves up by one; the results page is shown iff the new index passes the last question (or it was already shown); otherwise the per-question state resets; responses and questions are unchanged; the invariant is kept |
| Session.SkipQuestion | app.js:523-526 | the current slot reads the skip text, other slots are unchanged, the index advances, and the invariant is kept |
| Session.EndInterview | app.js:561-565 | a confirmed end completes the interview; a declined one changes nothing; the invariant is kept |
| Session.ResetInterview | app.js:767-801 | a running recording is stopped; the client returns to the landing page with index 0, an empty transcript and the default session record |
| Session.ResponsesNotResized | app.js:501-526 | during an interview with questions, neither a transcript update nor a skip resizes the responses |
| Session.RecordAnswer | app.js:417-521 | start, one non-blank final fragment and stop leave that fragment as the current response, other slots unchanged and advancing enabled |
| Session.StartTwoTechnical | app.js:356-363 | starting a two-question Technical session gives two questions, two empty responses and question 0 on the interview page |
| Session.SkipFirstOfTwo | app.js:523-538 | skipping the first of two questions moves to the second, with responses [skip text, ""] |
| Session.TranscribeSecondOfTwo | app.js:417-521 | starting to record and receiving a non-blank final transcript on the second question stores it in slot 1 and keeps the skip text in slot 0 |
| Session.AnswerSecondOfTwo | app.js:417-521 | after that answer and a stop, the responses are [skip text, answer] and advancing is enabled |
| Session.CompleteLast | app.js:528-538 | advancing past the last of two questions shows the results, which count one answered question and its words |
| Session.TwoQuestionScenario | app.js:409-612 | in a started two-question session, skip, answer and advance end on the results page with one answered question whose words are all counted |
| App.FinalFragments | app.js:299-306 | there are no more final fragments than results |
| App.InterimFragments | app.js:299-306 | there are no more interim fragments than results |
| App.FragmentCounts | app.js:299-306 | there are exactly as many final fragments as final results and as many interim fragments as interim results |
| App.FinalFragmentMembers | app.js:299-306 | a string is a final fragment iff some final result carries it |
| App.InterimFragmentMembers | app.js:299-306 | a string is an interim fragment iff some interim result carries it |
| App.FragmentsPartition | app.js:299-306 | every result's transcript lands in exactly one of the final and interim lists |
| App.FinalTextIsConcat | app.js:299-306 | the running final text is the concatenation of the final fragment list |
| App.InterimTextIsConcat | app.js:299-306 | the running interim text is the concatenation of the interim fragment list |
| App.CollectTranscripts | app.js:296-306 | the loop's two strings are the concatenations of the final and the interim transcripts from `resultIndex` on |
| App.InterviewApp.constructor | app.js:3-17 | the new client is in the initial state and satisfies the invariant |
| App.InterviewApp.SelectInterviewType | app.js:114-117 | only the session's interview type changes |
| App.InterviewApp.SelectQuestionCount | app.js:119-122 | only the session's question count changes |
| App.InterviewApp.OpenSetup | app.js:104-107 | the new state is `Session.OpenSetup` of the old; the invariant is kept |
| App.InterviewApp.BackToLanding | app.js:110-112 | the new state is `Session.BackToLanding` of the old; the invariant is kept |
| App.InterviewApp.StartInterview | app.js:356-363 | the new state is `Session.StartInterview` of the old |
| App.InterviewApp.OnResult | app.js:295-309 | the new state is the transcript update with the concatenated final and interim text |
| App.InterviewApp.UpdateTranscript | app.js:501-521 | the new state is `Session.UpdateTranscript` of the old |
| App.InterviewApp.HandleRecognitionError | app.js:336-354 | the new state is `Session.HandleRecognitionError` of the old |
| App.InterviewApp.OnEnd | app.js:316-330 | a restart is attempted iff recording; the new state is `Session.OnRecognitionEnd` of the old |
| App.InterviewApp.ToggleRecording | app.js:409-415 | the new state is `Session.ToggleRecording` of the old |
| App.InterviewApp.StartRecording | app.js:417-449 | the new state is `Session.StartRecording` of the old |
| App.InterviewApp.StopRecording | app.js:451-485 | the new state is `Session.StopRecording` of the old |
| App.InterviewApp.SkipQuestion | app.js:523-526 | the new state is `Session.SkipQuestion` of the old |
| App.InterviewApp.NextQuestion | app.js:528-538 | the new state is `Session.NextQuestion` of the old |
| App.InterviewApp.ResetQuestionState | app.js:540-559 | the new state is `Session.ResetQuestionState` of the old; the invariant is kept |
| App.InterviewApp.EndInterview | app.js:561-565 | the new state is `Session.EndInterview` of the old |
| App.InterviewApp.CompleteInterview | app.js:567-571 | the new state is `Session.CompleteInterview` of the old; from any state whose responses cover its questions (as after `NextQuestion` moves past the last question) the invariant holds afterwards |
| App.InterviewApp.ResetInterview | app.js:767-801 | the new state is `Session.ResetInterview` of the old |
| Api.PySliceTo | main.py:235 | Python `[:n]` is a prefix of length min(n, len) for n >= 0 and max(0, len + n) for n < 0 |
| Api.AvailableQuestions | main.py:237 | a known type gets its own bank; any other type gets the General bank |
| Api.SelectQuestions | main.py:234-238 | non-empty custom questions take precedence and are cut to the count; otherwise the type's bank is used; the length is min(count, source size) |
| Api.EmptyCustomIsAbsent | main.py:234 | an empty custom list behaves exactly like no custom list |
| Api.UnknownTypeUsesGeneral | main.py:237-238 | without custom questions, an unknown type gets the first `count` General questions |
| Api.PyStrip | main.py:303 | the result is the input without its leading and trailing Python whitespace; it is empty iff the input is all whitespace |
| Api.CleanFence | main.py:303-307 | the cleaned text is a prefix of the stripped reply (after "```json" when that is its start), shorter by exactly 3 when a "```" closes it |
| Api.CleanUnfenced | main.py:303-307 | a reply with neither fence is only stripped |
| Api.CleanFenced | main.py:303-307 | "```json" + body + "```" cleans to body |
| Api.FeedbackScore | main.py:299-332 | the score is the reply's converted "score" when it parses; 75 when the member is absent; 75 (canned feedback) when parsing or conversion fails; 70 when the model call fails |
| Api.FencedReplyParsesBody | main.py:299-311 | a fenced reply whose body parses to a score yields that score |

## Left out

- Rendering is left out: page visibility, the question display, the progress bar, wave animations, button classes, modal dialogs and the results pages. The model keeps only the current page, the enabled flag of the advance control and the recording-status text.
- Navigation's DOM lookup is left out. Every page element is taken to exist, so `navigateToPage` always switches the page.
- Event-listener wiring and its re-attachment after each navigation are left out. The two listeners that change the session, the landing page's start button and the setup page's back button, are modelled as `OpenSetup` and `BackToLanding`. Every listener is taken to be live on every page, as the client attaches them all at once.
- Timers are left out. The 100 ms delayed restart in the `end` handler runs at once in `App.InterviewApp.OnEnd`. The 300 ms display delays are dropped.
- The microphone test (`getUserMedia`) and speech synthesis of questions are left out. They are browser I/O that never touches the session.
- Alerts and the confirmation dialog are left out. The dialog's answer is the `confirmed` parameter of `EndInterview`.
- `saveResults` (JSON download) and the results and transcript views are left out. They only read the session.
- Analysis.GenerateResults does not model the floating-point sub-scores of `generateMockAnalysis` (clarity from the average answer length, relevance and tone from `Math.random`). The four rounded scores are inputs.
- Analysis.DurationMinutes uses exact integer arithmetic. It does not model floating-point rounding for durations too large for a double.
- Every element a transition touches is assumed to exist, except the live-transcript element. Its presence is the `hasTranscriptElement` parameter.
- Session.InitialState: the enabled flag of the advance control and the initial status text come from the page markup, which is not part of this model. The model takes them as disabled and the microphone prompt.
- The question count is a natural number. A `parseInt` that yields `NaN` from the selector, and the `RangeError` it would cause in `new Array`, are not modelled.
- App.SpeechResult keeps only the first alternative of each recognition result, because that is the only one the handler reads.
- The server's authentication (JWT), password hashing, SQLite storage, the HTTP layer and the other routes are left out. Of `main.py` only the three pure computations above are modelled.
- The language-model call is left out. It enters as `Api.ModelReply`.
- `json.loads` and `int()` are left out. The parse result is the `parse` parameter of `Api.FeedbackScore`, and conversion is `Api.ScoreValue`.
- The feedback texts stored beside the score are left out. `Api.FeedbackScore` records only which of the three sources the feedback came from.
- The feedback templates' `scoreRange` fields are data that no code reads. The average bucket covers every score below 80 (`Analysis.BucketFor`), not only 70-79.
