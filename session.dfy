/**
 * The interview session of the browser client as plain data: the fields the
 * `InterviewApp` class keeps, and one function per transition giving the state
 * after it. The class in module App updates its fields in place and proves each
 * of its methods against the matching function here.
 *
 * The view is abstracted away: every element the transitions touch is taken to
 * be present, except the live-transcript element, whose absence turns a
 * transcript update into a no-op. Of the view only the advance ("next question")
 * control's enabled flag and the recording-status text are kept.
 */
module Session {
  import Text
  import opened Wrappers
  import Analysis

  datatype Page = LandingPage | SetupPage | InterviewPage | ResultsPage

  /** The session record (`interviewData`). */
  datatype InterviewData = InterviewData(
    interviewType: string,
    questionCount: nat,
    questions: seq<string>,
    responses: seq<string>,
    startTime: Option<int>,
    endTime: Option<int>,
    analysis: Option<Analysis.AnalysisRecord>)

  /** The record a new client starts with and a reset restores. */
  const DefaultInterviewData: InterviewData :=
    InterviewData("General", 5, [], [], None, None, None)

  datatype State = State(
    currentPage: Page,
    currentQuestionIndex: nat,
    interviewData: InterviewData,
    isRecording: bool,
    currentTranscript: string,
    nextEnabled: bool,        // the advance control is enabled
    recordingStatus: string)  // the recording-status line shown to the user

  const PromptStatus: string := "Click the microphone to start recording your answer"
  const RecordingStatus: string := "Recording your response... Click again to stop."
  const CompletedStatus: string := "Recording completed. Review your response below."

  /** The state of a freshly constructed client. */
  const InitialState: State :=
    State(LandingPage, 0, DefaultInterviewData, false, "", false, PromptStatus)

  /** The question bank of the client, by interview type. */
  const InterviewTypes: map<string, seq<string>> := map[
    "Technical" := [
      "Explain your approach to debugging complex software issues and walk me through a specific example.",
      "Describe a challenging technical project you've worked on and how you overcame obstacles.",
      "How do you ensure code quality and maintainability in your development process?",
      "Tell me about a time you had to learn a new technology quickly for a project.",
      "How do you approach system design and scalability considerations?"],
    "Behavioral" := [
      "Tell me about yourself and your professional background.",
      "Describe a time you overcame a significant challenge at work.",
      "How do you handle working under pressure and tight deadlines?",
      "Give me an example of when you had to work with a difficult team member.",
      "Tell me about a time you failed and what you learned from it."],
    "General" := [
      "What motivates you in your career and daily work?",
      "Where do you see yourself in 5 years professionally?",
      "Why are you interested in this position and our company?",
      "What are your greatest strengths and how do they benefit a team?",
      "Describe your ideal work environment and company culture."]
  ]

  /**
   * `interviewTypes[type]?.questions || []`: each of the three known types has
   * a bank of five questions; any other type has none.
   */
  function TypeQuestions(interviewType: string): (qs: seq<string>)
    ensures interviewType in InterviewTypes <==> |qs| == 5
    ensures interviewType !in InterviewTypes ==> qs == []
    ensures InterviewTypes.Keys == {"Technical", "Behavioral", "General"}
  {
    if interviewType in InterviewTypes then InterviewTypes[interviewType] else []
  }

  const GenericErrorMessage: string := "Speech recognition error. Please try again."

  /**
   * The status text `handleRecognitionError` picks for an error code: a message
   * of its own for each of "not-allowed", "no-speech" and "network", the generic
   * one for every other code, and never one of the ordinary status lines.
   */
  function ErrorMessage(code: string): (m: string)
    ensures m == GenericErrorMessage <==> code != "not-allowed" && code != "no-speech" && code != "network"
    ensures m != PromptStatus && m != RecordingStatus && m != CompletedStatus
  {
    if code == "not-allowed" then "Microphone access denied. Please allow microphone access."
    else if code == "no-speech" then "No speech detected. Please try speaking louder."
    else if code == "network" then "Network error occurred. Please check your connection."
    else GenericErrorMessage
  }

  /** `!s.trim()`: the string is empty once JavaScript whitespace is trimmed. */
  predicate JsBlank(s: string) {
    Text.Trim(s, Text.IsJsWhitespace) == []
  }

  /** A string is blank exactly when it holds nothing but JavaScript whitespace. */
  lemma BlankIffWhitespace(s: string)
    ensures JsBlank(s) <==> forall k :: 0 <= k < |s| ==> Text.IsJsWhitespace(s[k])
  { }

  /**
   * Reading `responses[i]`. A slot past the end reads `undefined`, which every
   * reader of the responses treats exactly like the empty string.
   */
  function ResponseAt(responses: seq<string>, i: nat): string {
    if i < |responses| then responses[i] else ""
  }

  /**
   * JavaScript `responses[i] = v`: inside the array the slot is replaced; past
   * the end the array grows to `i + 1`, the gap reading as empty.
   */
  function JsArraySet(responses: seq<string>, i: nat, v: string): (r: seq<string>)
    ensures |r| == if i < |responses| then |responses| else i + 1
    ensures ResponseAt(r, i) == v
    ensures forall j: nat :: j != i ==> ResponseAt(r, j) == ResponseAt(responses, j)
  {
    if i < |responses| then responses[i := v]
    else responses + seq(i - |responses|, _ => "") + [v]
  }

  /**
   * The session invariant: the responses cover every question, and on the
   * interview page the index names a question (or the question list is empty).
   */
  ghost predicate Inv(s: State) {
    && |s.interviewData.questions| <= |s.interviewData.responses|
    && (s.currentPage == InterviewPage ==>
          s.currentQuestionIndex < |s.interviewData.questions|
          || (s.currentQuestionIndex == 0 && s.interviewData.questions == []))
  }

  lemma InitialStateInv()
    ensures Inv(InitialState)
  { }

  /** The landing page's start button: `navigateToPage('setup-page')`; only the page changes. */
  function OpenSetup(s: State): (r: State)
    ensures r.currentPage == SetupPage
    ensures r.(currentPage := s.currentPage) == s
    ensures Inv(s) ==> Inv(r)
  {
    s.(currentPage := SetupPage)
  }

  /** The setup page's back button: `navigateToPage('landing-page')`; only the page changes. */
  function BackToLanding(s: State): (r: State)
    ensures r.currentPage == LandingPage
    ensures r.(currentPage := s.currentPage) == s
    ensures Inv(s) ==> Inv(r)
  {
    s.(currentPage := LandingPage)
  }

  /** Going to the setup page and back leaves a landing-page state exactly as it was. */
  lemma SetupRoundTrip(s: State)
    requires s.currentPage == LandingPage
    ensures BackToLanding(OpenSetup(s)) == s
  { }

  /** `startInterview`: take the type's questions, zero-fill the responses, go to question 0. */
  function StartInterview(s: State, now: int): (r: State)
    ensures r.currentPage == InterviewPage && r.currentQuestionIndex == 0
    ensures var d, d' := s.interviewData, r.interviewData;
      && d'.questions <= TypeQuestions(d.interviewType)
      && |d'.questions| == (if d.questionCount < |TypeQuestions(d.interviewType)|
                            then d.questionCount else |TypeQuestions(d.interviewType)|)
      && |d'.responses| == d.questionCount
      && (forall i :: 0 <= i < |d'.responses| ==> d'.responses[i] == "")
      && d'.startTime == Some(now)
      && d' == d.(questions := d'.questions, responses := d'.responses, startTime := d'.startTime)
    ensures r.isRecording == s.isRecording && r.currentTranscript == s.currentTranscript
    ensures r.nextEnabled == s.nextEnabled && r.recordingStatus == s.recordingStatus
    ensures Inv(r)
  {
    var d := s.interviewData;
    var qs := Analysis.Take(TypeQuestions(d.interviewType), d.questionCount);
    s.(interviewData := d.(startTime := Some(now), questions := qs,
                           responses := seq(d.questionCount, _ => "")),
       currentQuestionIndex := 0,
       currentPage := InterviewPage)
  }

  /** An interview type the bank does not know starts a session without questions. */
  lemma StartUnknownTypeHasNoQuestions(s: State, now: int)
    requires s.interviewData.interviewType !in InterviewTypes
    ensures StartInterview(s, now).interviewData.questions == []
  { }

  /**
   * `updateTranscript`: a final fragment that is not blank is appended to the
   * current transcript, which then becomes the response to the current question;
   * interim text is only displayed. Without the transcript element nothing happens.
   */
  function UpdateTranscript(s: State, finalTranscript: string, interimTranscript: string,
                            hasTranscriptElement: bool): (r: State)
    ensures !hasTranscriptElement || JsBlank(finalTranscript) ==> r == s
    ensures hasTranscriptElement && !JsBlank(finalTranscript) ==>
      && r.currentTranscript == s.currentTranscript + finalTranscript
      && ResponseAt(r.interviewData.responses, s.currentQuestionIndex) == r.currentTranscript
      && r.nextEnabled
    ensures forall j: nat :: j != s.currentQuestionIndex ==>
      ResponseAt(r.interviewData.responses, j) == ResponseAt(s.interviewData.responses, j)
    ensures r.interviewData.(responses := s.interviewData.responses) == s.interviewData
    ensures r.currentPage == s.currentPage && r.currentQuestionIndex == s.currentQuestionIndex
    ensures r.isRecording == s.isRecording && r.recordingStatus == s.recordingStatus
    ensures Inv(s) ==> Inv(r)
  {
    if !hasTranscriptElement || JsBlank(finalTranscript) then s
    else
      var t := s.currentTranscript + finalTranscript;
      s.(currentTranscript := t,
         interviewData := s.interviewData.(
           responses := JsArraySet(s.interviewData.responses, s.currentQuestionIndex, t)),
         nextEnabled := true)
  }

  /** Interim text never reaches the stored state. */
  lemma InterimNeverStored(s: State, finalTranscript: string, interim1: string, interim2: string, hasElement: bool)
    ensures UpdateTranscript(s, finalTranscript, interim1, hasElement)
         == UpdateTranscript(s, finalTranscript, interim2, hasElement)
  { }

  /**
   * `stopRecording`: recording is off, and the advance control is enabled exactly
   * when the current response is not blank.
   */
  function StopRecording(s: State): (r: State)
    ensures !r.isRecording
    ensures r.nextEnabled <==>
      !JsBlank(ResponseAt(s.interviewData.responses, s.currentQuestionIndex))
    ensures r.recordingStatus == CompletedStatus
    ensures r.(isRecording := s.isRecording, nextEnabled := s.nextEnabled,
               recordingStatus := s.recordingStatus) == s
  {
    s.(isRecording := false,
       recordingStatus := CompletedStatus,
       nextEnabled := !JsBlank(ResponseAt(s.interviewData.responses, s.currentQuestionIndex)))
  }

  /** Stopping is idempotent. */
  lemma StopRecordingIdempotent(s: State)
    ensures StopRecording(StopRecording(s)) == StopRecording(s)
  { }

  /**
   * `startRecording`: without a recogniser nothing changes; otherwise recording
   * turns on with an empty transcript, and a recogniser that fails to start is
   * stopped again at once. Responses are never touched.
   */
  function StartRecording(s: State, hasRecognition: bool, startSucceeds: bool): (r: State)
    ensures !hasRecognition ==> r == s
    ensures hasRecognition ==>
      && r.isRecording == startSucceeds
      && r.currentTranscript == ""
      && (startSucceeds ==> r.recordingStatus == RecordingStatus && r.nextEnabled == s.nextEnabled)
      && (!startSucceeds ==> r == StopRecording(s.(currentTranscript := "")))
    ensures r.interviewData == s.interviewData
    ensures r.currentPage == s.currentPage && r.currentQuestionIndex == s.currentQuestionIndex
  {
    if !hasRecognition then s
    else
      var on := s.(isRecording := true, currentTranscript := "", recordingStatus := RecordingStatus);
      if startSucceeds then on else StopRecording(on)
  }

  /** `toggleRecording`: stop when recording, start otherwise. */
  function ToggleRecording(s: State, hasRecognition: bool, startSucceeds: bool): (r: State)
    ensures s.isRecording ==> r == StopRecording(s)
    ensures !s.isRecording ==> r.isRecording == (hasRecognition && startSucceeds)
    ensures r.interviewData == s.interviewData
  {
    if s.isRecording then StopRecording(s) else StartRecording(s, hasRecognition, startSucceeds)
  }

  /**
   * `handleRecognitionError`: whatever the error code, recording ends. The
   * category message is written and then replaced by the stop message, so the
   * outcome is the same as a plain stop.
   */
  function HandleRecognitionError(s: State, code: string): (r: State)
    ensures !r.isRecording
    ensures r == StopRecording(s)
    ensures r.recordingStatus == CompletedStatus
  {
    StopRecording(s.(recordingStatus := ErrorMessage(code)))
  }

  /**
   * The recogniser's `end` event: a restart is attempted only while recording;
   * one that fails forces recording off.
   */
  function OnRecognitionEnd(s: State, restartSucceeds: bool): (r: State)
    ensures !s.isRecording ==> r == s
    ensures s.isRecording && restartSucceeds ==> r == s
    ensures s.isRecording && !restartSucceeds ==> r == StopRecording(s)
    ensures !r.isRecording <==> !s.isRecording || !restartSucceeds
  {
    if s.isRecording && !restartSucceeds then StopRecording(s) else s
  }

  /** `resetQuestionState`: clear the transcript, disable advancing, show the prompt. */
  function ResetQuestionState(s: State): (r: State)
    ensures r.currentTranscript == "" && !r.nextEnabled && r.recordingStatus == PromptStatus
    ensures r.(currentTranscript := s.currentTranscript, nextEnabled := s.nextEnabled,
               recordingStatus := s.recordingStatus) == s
    ensures Inv(r) <==> Inv(s)
  {
    s.(currentTranscript := "", nextEnabled := false, recordingStatus := PromptStatus)
  }

  /**
   * `completeInterview`: stamp the end time, store the analysis of the responses
   * and show the results.
   */
  function CompleteInterview(s: State, now: int, scores: Analysis.Scores): (r: State)
    ensures r.currentPage == ResultsPage
    ensures r.interviewData.endTime == Some(now)
    ensures r.interviewData.analysis.Some?
    ensures var a := r.interviewData.analysis.value;
      && a.answeredQuestions == |Analysis.AnsweredIndices(s.interviewData.responses)|
      && a.totalWords == Analysis.SumWordCounts(Analysis.AnsweredResponses(s.interviewData.responses))
      && a.overallScore == scores.overall
    ensures r.interviewData.(endTime := s.interviewData.endTime, analysis := s.interviewData.analysis)
         == s.interviewData
    ensures r.(currentPage := s.currentPage, interviewData := s.interviewData) == s
    ensures Inv(r) <==> |s.interviewData.questions| <= |s.interviewData.responses|
  {
    var d := s.interviewData;
    s.(interviewData := d.(endTime := Some(now),
         analysis := Some(Analysis.GenerateResults(d.responses, scores, d.startTime, now))),
       currentPage := ResultsPage)
  }

  /**
   * `nextQuestion`: advance the index by one; past the last question the
   * interview completes, otherwise the per-question state is reset.
   */
  function NextQuestion(s: State, now: int, scores: Analysis.Scores): (r: State)
    ensures r.currentQuestionIndex == s.currentQuestionIndex + 1
    ensures r.currentPage == ResultsPage <==>
      s.currentQuestionIndex + 1 >= |s.interviewData.questions| || s.currentPage == ResultsPage
    ensures s.currentQuestionIndex + 1 >= |s.interviewData.questions| ==>
      r == CompleteInterview(s.(currentQuestionIndex := s.currentQuestionIndex + 1), now, scores)
    ensures s.currentQuestionIndex + 1 < |s.interviewData.questions| ==>
      && r.currentTranscript == "" && !r.nextEnabled
      && r.interviewData == s.interviewData && r.currentPage == s.currentPage
    ensures r.interviewData.responses == s.interviewData.responses
    ensures r.interviewData.questions == s.interviewData.questions
    ensures r.isRecording == s.isRecording
    ensures Inv(s) ==> Inv(r)
  {
    var advanced := s.(currentQuestionIndex := s.currentQuestionIndex + 1);
    if advanced.currentQuestionIndex >= |s.interviewData.questions|
    then CompleteInterview(advanced, now, scores)
    else ResetQuestionState(advanced)
  }

  /** `skipQuestion`: write the skip sentinel at the current index, then advance. */
  function SkipQuestion(s: State, now: int, scores: Analysis.Scores): (r: State)
    ensures ResponseAt(r.interviewData.responses, s.currentQuestionIndex) == Analysis.SkipSentinel
    ensures forall j: nat :: j != s.currentQuestionIndex ==>
      ResponseAt(r.interviewData.responses, j) == ResponseAt(s.interviewData.responses, j)
    ensures r.currentQuestionIndex == s.currentQuestionIndex + 1
    ensures r.interviewData.questions == s.interviewData.questions
    ensures r.isRecording == s.isRecording
    ensures Inv(s) ==> Inv(r)
  {
    var d := s.interviewData;
    var written := s.(interviewData := d.(
      responses := JsArraySet(d.responses, s.currentQuestionIndex, Analysis.SkipSentinel)));
    NextQuestion(written, now, scores)
  }

  /** `endInterview`: complete at once if the user confirms, otherwise nothing. */
  function EndInterview(s: State, confirmed: bool, now: int, scores: Analysis.Scores): (r: State)
    ensures confirmed ==> r == CompleteInterview(s, now, scores)
    ensures !confirmed ==> r == s
    ensures Inv(s) ==> Inv(r)
  {
    if confirmed then CompleteInterview(s, now, scores) else s
  }

  /**
   * `resetInterview`: stop a running recording, then return to the landing page
   * with the default session record.
   */
  function ResetInterview(s: State): (r: State)
    ensures !r.isRecording && r.currentQuestionIndex == 0 && r.currentTranscript == ""
    ensures r.interviewData == DefaultInterviewData && r.currentPage == LandingPage
    ensures s.isRecording ==>
      r.nextEnabled == StopRecording(s).nextEnabled && r.recordingStatus == CompletedStatus
    ensures !s.isRecording ==>
      r.nextEnabled == s.nextEnabled && r.recordingStatus == s.recordingStatus
    ensures Inv(r)
  {
    var stopped := if s.isRecording then StopRecording(s) else s;
    stopped.(currentQuestionIndex := 0, currentTranscript := "",
             interviewData := DefaultInterviewData, currentPage := LandingPage)
  }

  /**
   * While an interview with questions is in progress, writing a response (by a
   * transcript update or a skip) never resizes the response array.
   */
  lemma ResponsesNotResized(s: State, finalTranscript: string, interim: string, hasElement: bool,
                            now: int, scores: Analysis.Scores)
    requires Inv(s) && s.currentPage == InterviewPage && s.interviewData.questions != []
    ensures |UpdateTranscript(s, finalTranscript, interim, hasElement).interviewData.responses|
         == |s.interviewData.responses|
    ensures |SkipQuestion(s, now, scores).interviewData.responses| == |s.interviewData.responses|
  {
    assert s.currentQuestionIndex < |s.interviewData.responses|;
  }

  /**
   * Recording an answer: a recogniser that starts, one non-blank final fragment
   * and a stop leave that fragment as the response to the current question, every
   * other slot as it was, and the advance control enabled.
   */
  lemma RecordAnswer(s: State, answer: string, interim: string)
    requires !JsBlank(answer)
    ensures var r := StopRecording(UpdateTranscript(StartRecording(s, true, true), answer, interim, true));
      && ResponseAt(r.interviewData.responses, s.currentQuestionIndex) == answer
      && (forall j: nat :: j != s.currentQuestionIndex ==>
            ResponseAt(r.interviewData.responses, j) == ResponseAt(s.interviewData.responses, j))
      && r.nextEnabled && !r.isRecording
      && r.currentQuestionIndex == s.currentQuestionIndex && r.currentPage == s.currentPage
      && r.interviewData.questions == s.interviewData.questions
      && (s.currentQuestionIndex < |s.interviewData.responses| ==>
            |r.interviewData.responses| == |s.interviewData.responses|)
  {
    var s3 := StartRecording(s, true, true);
    assert s3.currentTranscript + answer == answer;
  }

  /** Starting a two-question Technical session: two questions, two empty responses, question 0. */
  lemma StartTwoTechnical(s0: State, t0: int)
    requires s0.interviewData.interviewType == "Technical" && s0.interviewData.questionCount == 2
    ensures var s1 := StartInterview(s0, t0);
      && s1.currentPage == InterviewPage && s1.currentQuestionIndex == 0
      && |s1.interviewData.questions| == 2
      && s1.interviewData.responses == ["", ""]
  {
    var s1 := StartInterview(s0, t0);
    assert s1.interviewData.responses == ["", ""];
  }

  /** Skipping the first of two questions moves to the second, with the sentinel in slot 0. */
  lemma SkipFirstOfTwo(s1: State, t1: int, scores: Analysis.Scores)
    requires s1.currentPage == InterviewPage && s1.currentQuestionIndex == 0
    requires |s1.interviewData.questions| == 2 && s1.interviewData.responses == ["", ""]
    ensures var s2 := SkipQuestion(s1, t1, scores);
      && s2.currentPage == InterviewPage && s2.currentQuestionIndex == 1
      && s2.interviewData.responses == [Analysis.SkipSentinel, ""]
      && |s2.interviewData.questions| == 2
  {
    var s2 := SkipQuestion(s1, t1, scores);
    assert s2.interviewData.responses == s1.interviewData.responses[0 := Analysis.SkipSentinel];
  }

  /** A final transcript arriving for the second slot, with no text gathered yet, fills that slot. */
  lemma TranscribeIntoSecond(s3: State, first: string, answer: string)
    requires s3.currentQuestionIndex == 1 && s3.currentTranscript == ""
    requires s3.interviewData.responses == [first, ""]
    requires !JsBlank(answer)
    ensures UpdateTranscript(s3, answer, "", true).interviewData.responses == [first, answer]
  {
    var t := s3.currentTranscript + answer;
    assert t == answer;
    var rs := s3.interviewData.responses;
    assert JsArraySet(rs, 1, t) == rs[1 := answer] == [first, answer];
  }

  /** Recording a final transcript for the second of two questions after skipping the first. */
  lemma TranscribeSecondOfTwo(s2: State, answer: string)
    requires s2.currentQuestionIndex == 1
    requires s2.interviewData.responses == [Analysis.SkipSentinel, ""]
    requires !JsBlank(answer)
    ensures var s4 := UpdateTranscript(StartRecording(s2, true, true), answer, "", true);
      && s4.interviewData.responses == [Analysis.SkipSentinel, answer]
      && s4.currentQuestionIndex == 1 && s4.interviewData.questions == s2.interviewData.questions
  {
    TranscribeIntoSecond(StartRecording(s2, true, true), Analysis.SkipSentinel, answer);
  }

  /** Answering the second of two questions after skipping the first. */
  lemma AnswerSecondOfTwo(s2: State, answer: string)
    requires s2.currentQuestionIndex == 1
    requires s2.interviewData.responses == [Analysis.SkipSentinel, ""] && |s2.interviewData.questions| == 2
    requires !JsBlank(answer)
    ensures var s5 := StopRecording(UpdateTranscript(StartRecording(s2, true, true), answer, "", true));
      && s5.interviewData.responses == [Analysis.SkipSentinel, answer]
      && s5.currentQuestionIndex == 1 && |s5.interviewData.questions| == 2
      && s5.nextEnabled
  {
    TranscribeSecondOfTwo(s2, answer);
    var s4 := UpdateTranscript(StartRecording(s2, true, true), answer, "", true);
    assert ResponseAt(s4.interviewData.responses, 1) == answer;
  }

  /** Advancing past the second of two questions completes the session and analyses its responses. */
  lemma CompleteLast(s5: State, answer: string, t2: int, scores: Analysis.Scores)
    requires s5.interviewData.responses == [Analysis.SkipSentinel, answer]
    requires s5.currentQuestionIndex == 1 && |s5.interviewData.questions| == 2
    requires Analysis.IsAnswered(answer)
    ensures var s6 := NextQuestion(s5, t2, scores);
      && s6.currentPage == ResultsPage
      && s6.interviewData.responses == [Analysis.SkipSentinel, answer]
      && s6.interviewData.analysis.Some?
      && s6.interviewData.analysis.value.answeredQuestions == 1
      && s6.interviewData.analysis.value.totalWords == Analysis.WordCount(answer)
  {
    Analysis.SkippedThenAnswered(answer);
  }

  /**
   * In a started two-question session, skipping the first question and answering
   * the second with a non-blank final transcript ends on the results page with
   * one answered question, all of whose words are counted.
   */
  lemma TwoQuestionScenario(s1: State, answer: string, t1: int, t2: int, scores: Analysis.Scores)
    requires s1.currentPage == InterviewPage && s1.currentQuestionIndex == 0
    requires |s1.interviewData.questions| == 2 && s1.interviewData.responses == ["", ""]
    requires !JsBlank(answer) && answer != Analysis.SkipSentinel
    ensures var s2 := SkipQuestion(s1, t1, scores);
      var s5 := StopRecording(UpdateTranscript(StartRecording(s2, true, true), answer, "", true));
      var s6 := NextQuestion(s5, t2, scores);
      && s2.currentPage == InterviewPage && s2.currentQuestionIndex == 1
      && s5.nextEnabled
      && s6.currentPage == ResultsPage
      && s6.interviewData.responses == [Analysis.SkipSentinel, answer]
      && s6.interviewData.analysis.Some?
      && s6.interviewData.analysis.value.answeredQuestions == 1
      && s6.interviewData.analysis.value.totalWords == Analysis.WordCount(answer)
  {
    SkipFirstOfTwo(s1, t1, scores);
    var s2 := SkipQuestion(s1, t1, scores);
    AnswerSecondOfTwo(s2, answer);
    var s5 := StopRecording(UpdateTranscript(StartRecording(s2, true, true), answer, "", true));
    CompleteLast(s5, answer, t2, scores);
  }
}
