/**
 * The browser client's `InterviewApp` object: its fields, updated in place by
 * one method per operation, each proved against the transition function of
 * module Session that gives the state after it. Calls into the browser (speech
 * recognition start, the clock, the random sub-scores, the confirmation dialog)
 * are parameters: whether the recogniser started, the current time in
 * milliseconds, the rounded scores, the user's answer.
 */
module App {
  import Session
  import Analysis
  import opened Wrappers

  /** One entry of a recognition event's result list: its first alternative's transcript and finality. */
  datatype SpeechResult = SpeechResult(transcript: string, isFinal: bool)

  /** Positions of the final results. */
  ghost function FinalIndices(results: seq<SpeechResult>): set<int> {
    set i | 0 <= i < |results| && results[i].isFinal
  }

  /** Positions of the interim results. */
  ghost function InterimIndices(results: seq<SpeechResult>): set<int> {
    set i | 0 <= i < |results| && !results[i].isFinal
  }

  /** Appending one result adds its position to the final or to the interim positions. */
  lemma IndicesSnoc(init: seq<SpeechResult>, last: SpeechResult)
    ensures FinalIndices(init + [last]) == FinalIndices(init) + (if last.isFinal then {|init|} else {})
    ensures InterimIndices(init + [last]) == InterimIndices(init) + (if last.isFinal then {} else {|init|})
    ensures |init| !in FinalIndices(init) && |init| !in InterimIndices(init)
  {
    var whole := init + [last];
    forall i | 0 <= i < |init| ensures whole[i] == init[i] { }
  }

  /**
   * The transcripts of the final results, in order: one fragment per final
   * result (`FragmentCounts`), and a string is a fragment exactly when some
   * final result carries it (`FinalFragmentMembers`).
   */
  function FinalFragments(results: seq<SpeechResult>): (fs: seq<string>)
    ensures |fs| <= |results|
  {
    if results == [] then []
    else
      var last := results[|results| - 1];
      FinalFragments(results[..|results| - 1]) + (if last.isFinal then [last.transcript] else [])
  }

  /**
   * The transcripts of the interim (not final) results, in order: one fragment
   * per interim result (`FragmentCounts`), and a string is a fragment exactly
   * when some interim result carries it (`InterimFragmentMembers`).
   */
  function InterimFragments(results: seq<SpeechResult>): (fs: seq<string>)
    ensures |fs| <= |results|
  {
    if results == [] then []
    else
      var last := results[|results| - 1];
      InterimFragments(results[..|results| - 1]) + (if last.isFinal then [] else [last.transcript])
  }

  /** Every transcript, in order. */
  function Transcripts(results: seq<SpeechResult>): (ts: seq<string>)
    ensures |ts| == |results|
    ensures forall i :: 0 <= i < |results| ==> ts[i] == results[i].transcript
  {
    seq(|results|, i requires 0 <= i < |results| => results[i].transcript)
  }

  /** String concatenation of the fragments, left to right. */
  function Concat(fs: seq<string>): string {
    if fs == [] then "" else Concat(fs[..|fs| - 1]) + fs[|fs| - 1]
  }

  /** The results a handler visits: from `resultIndex` to the end (none when it is past the end). */
  function Window(results: seq<SpeechResult>, resultIndex: nat): seq<SpeechResult> {
    if resultIndex <= |results| then results[resultIndex..] else []
  }

  lemma FinalSnoc(results: seq<SpeechResult>, r: SpeechResult)
    ensures FinalFragments(results + [r])
         == if r.isFinal then FinalFragments(results) + [r.transcript] else FinalFragments(results)
  {
    assert (results + [r])[..|results|] == results;
  }

  lemma InterimSnoc(results: seq<SpeechResult>, r: SpeechResult)
    ensures InterimFragments(results + [r])
         == if r.isFinal then InterimFragments(results) else InterimFragments(results) + [r.transcript]
  {
    assert (results + [r])[..|results|] == results;
  }

  lemma ConcatSnoc(fs: seq<string>, f: string)
    ensures Concat(fs + [f]) == Concat(fs) + f
  {
    assert (fs + [f])[..|fs|] == fs;
  }

  /**
   * No fragment is lost or duplicated: every result lands in exactly one of the
   * two fragment lists.
   */
  lemma {:induction false} FragmentsPartition(results: seq<SpeechResult>)
    ensures |FinalFragments(results)| + |InterimFragments(results)| == |results|
    ensures multiset(FinalFragments(results)) + multiset(InterimFragments(results))
         == multiset(Transcripts(results))
  {
    if results != [] {
      var init, last := results[..|results| - 1], results[|results| - 1];
      assert results == init + [last];
      FragmentsPartition(init);
      assert Transcripts(results) == Transcripts(init) + [last.transcript];
    }
  }

  /** There is one final fragment per final result and one interim fragment per interim result. */
  lemma {:induction false} FragmentCounts(results: seq<SpeechResult>)
    ensures |FinalFragments(results)| == |FinalIndices(results)|
    ensures |InterimFragments(results)| == |InterimIndices(results)|
  {
    if results != [] {
      var init, last := results[..|results| - 1], results[|results| - 1];
      assert results == init + [last];
      FragmentCounts(init);
      FinalSnoc(init, last);
      InterimSnoc(init, last);
      IndicesSnoc(init, last);
    }
  }

  /** A string is a final fragment exactly when some final result carries it. */
  lemma {:induction false} FinalFragmentMembers(results: seq<SpeechResult>)
    ensures forall t :: t in FinalFragments(results) <==>
      exists i :: 0 <= i < |results| && results[i].isFinal && results[i].transcript == t
  {
    if results != [] {
      var init, last := results[..|results| - 1], results[|results| - 1];
      assert results == init + [last];
      FinalFragmentMembers(init);
      FinalSnoc(init, last);
      forall i | 0 <= i < |init| ensures results[i] == init[i] { }
    }
  }

  /** A string is an interim fragment exactly when some interim result carries it. */
  lemma {:induction false} InterimFragmentMembers(results: seq<SpeechResult>)
    ensures forall t :: t in InterimFragments(results) <==>
      exists i :: 0 <= i < |results| && !results[i].isFinal && results[i].transcript == t
  {
    if results != [] {
      var init, last := results[..|results| - 1], results[|results| - 1];
      assert results == init + [last];
      InterimFragmentMembers(init);
      InterimSnoc(init, last);
      forall i | 0 <= i < |init| ensures results[i] == init[i] { }
    }
  }

  /** The final transcripts of `results[lo..hi]`, concatenated left to right. */
  function FinalText(results: seq<SpeechResult>, lo: nat, hi: nat): string
    requires lo <= hi <= |results|
    decreases hi - lo
  {
    if hi == lo then ""
    else FinalText(results, lo, hi - 1) + (if results[hi - 1].isFinal then results[hi - 1].transcript else "")
  }

  /** The interim transcripts of `results[lo..hi]`, concatenated left to right. */
  function InterimText(results: seq<SpeechResult>, lo: nat, hi: nat): string
    requires lo <= hi <= |results|
    decreases hi - lo
  {
    if hi == lo then ""
    else InterimText(results, lo, hi - 1) + (if results[hi - 1].isFinal then "" else results[hi - 1].transcript)
  }

  /** The running final text is the concatenation of the final fragments of the visited results. */
  lemma {:induction false} FinalTextIsConcat(results: seq<SpeechResult>, lo: nat, hi: nat)
    requires lo <= hi <= |results|
    ensures FinalText(results, lo, hi) == Concat(FinalFragments(results[lo..hi]))
    decreases hi - lo
  {
    if hi > lo {
      FinalTextIsConcat(results, lo, hi - 1);
      var done, r := results[lo..hi - 1], results[hi - 1];
      assert results[lo..hi] == done + [r];
      FinalSnoc(done, r);
      var fd := FinalFragments(done);
      if r.isFinal {
        ConcatSnoc(fd, r.transcript);
        assert FinalFragments(results[lo..hi]) == fd + [r.transcript];
      } else {
        assert FinalFragments(results[lo..hi]) == fd;
        assert FinalText(results, lo, hi) == FinalText(results, lo, hi - 1) + "";
      }
    }
  }

  /** The running interim text is the concatenation of the interim fragments of the visited results. */
  lemma {:induction false} InterimTextIsConcat(results: seq<SpeechResult>, lo: nat, hi: nat)
    requires lo <= hi <= |results|
    ensures InterimText(results, lo, hi) == Concat(InterimFragments(results[lo..hi]))
    decreases hi - lo
  {
    if hi > lo {
      InterimTextIsConcat(results, lo, hi - 1);
      var done, r := results[lo..hi - 1], results[hi - 1];
      assert results[lo..hi] == done + [r];
      InterimSnoc(done, r);
      var fd := InterimFragments(done);
      if !r.isFinal {
        ConcatSnoc(fd, r.transcript);
        assert InterimFragments(results[lo..hi]) == fd + [r.transcript];
      } else {
        assert InterimFragments(results[lo..hi]) == fd;
        assert InterimText(results, lo, hi) == InterimText(results, lo, hi - 1) + "";
      }
    }
  }

  /**
   * The `onresult` handler's loop: walk the results from `resultIndex`,
   * appending final transcripts to one string and the others to a second.
   */
  method CollectTranscripts(results: seq<SpeechResult>, resultIndex: nat)
    returns (finalTranscript: string, interimTranscript: string)
    ensures finalTranscript == Concat(FinalFragments(Window(results, resultIndex)))
    ensures interimTranscript == Concat(InterimFragments(Window(results, resultIndex)))
  {
    finalTranscript, interimTranscript := "", "";
    var i := resultIndex;
    while i < |results|
      invariant resultIndex <= i
      invariant resultIndex <= |results| ==> i <= |results|
      invariant i <= |results| ==> finalTranscript == FinalText(results, resultIndex, i)
      invariant i <= |results| ==> interimTranscript == InterimText(results, resultIndex, i)
      invariant |results| < i ==> finalTranscript == "" && interimTranscript == ""
    {
      if results[i].isFinal {
        finalTranscript := finalTranscript + results[i].transcript;
      } else {
        interimTranscript := interimTranscript + results[i].transcript;
      }
      i := i + 1;
    }
    if resultIndex <= |results| {
      FinalTextIsConcat(results, resultIndex, |results|);
      InterimTextIsConcat(results, resultIndex, |results|);
      assert Window(results, resultIndex) == results[resultIndex..|results|];
    }
  }

  class InterviewApp {
    var currentPage: Session.Page
    var currentQuestionIndex: nat
    var interviewData: Session.InterviewData
    var isRecording: bool
    var currentTranscript: string
    var nextEnabled: bool
    var recordingStatus: string
    /** Whether the browser offered a speech recogniser when the client initialised. */
    const hasRecognition: bool

    /** The fields as one value of the session model. */
    function State(): Session.State
      reads this
    {
      Session.State(currentPage, currentQuestionIndex, interviewData, isRecording,
                    currentTranscript, nextEnabled, recordingStatus)
    }

    ghost predicate Valid()
      reads this
    {
      Session.Inv(State())
    }

    constructor (recognitionAvailable: bool)
      ensures Valid()
      ensures State() == Session.InitialState && hasRecognition == recognitionAvailable
    {
      currentPage := Session.LandingPage;
      currentQuestionIndex := 0;
      interviewData := Session.DefaultInterviewData;
      isRecording := false;
      currentTranscript := "";
      nextEnabled := false;
      recordingStatus := Session.PromptStatus;
      hasRecognition := recognitionAvailable;
    }

    /** The interview-type selector's change handler. */
    method SelectInterviewType(interviewType: string)
      requires Valid()
      modifies this
      ensures Valid()
      ensures State() == old(State()).(interviewData := old(interviewData).(interviewType := interviewType))
    {
      interviewData := interviewData.(interviewType := interviewType);
    }

    /** The question-count selector's change handler. */
    method SelectQuestionCount(count: nat)
      requires Valid()
      modifies this
      ensures Valid()
      ensures State() == old(State()).(interviewData := old(interviewData).(questionCount := count))
    {
      interviewData := interviewData.(questionCount := count);
    }

    /** The landing page's start button. */
    method OpenSetup()
      requires Valid()
      modifies this
      ensures Valid()
      ensures State() == Session.OpenSetup(old(State()))
    {
      currentPage := Session.SetupPage;
    }

    /** The setup page's back button. */
    method BackToLanding()
      requires Valid()
      modifies this
      ensures Valid()
      ensures State() == Session.BackToLanding(old(State()))
    {
      currentPage := Session.LandingPage;
    }

    method StartInterview(now: int)
      requires Valid()
      modifies this
      ensures Valid()
      ensures State() == Session.StartInterview(old(State()), now)
    {
      interviewData := interviewData.(startTime := Some(now));
      var typeQuestions := Session.TypeQuestions(interviewData.interviewType);
      interviewData := interviewData.(
        questions := Analysis.Take(typeQuestions, interviewData.questionCount));
      interviewData := interviewData.(responses := seq(interviewData.questionCount, _ => ""));
      currentQuestionIndex := 0;
      currentPage := Session.InterviewPage;
    }

    /** The recogniser's `result` event. */
    method OnResult(results: seq<SpeechResult>, resultIndex: nat, hasTranscriptElement: bool)
      requires Valid()
      modifies this
      ensures Valid()
      ensures State() == Session.UpdateTranscript(old(State()),
        Concat(FinalFragments(Window(results, resultIndex))),
        Concat(InterimFragments(Window(results, resultIndex))),
        hasTranscriptElement)
    {
      var finalTranscript, interimTranscript := CollectTranscripts(results, resultIndex);
      UpdateTranscript(finalTranscript, interimTranscript, hasTranscriptElement);
    }

    method UpdateTranscript(finalTranscript: string, interimTranscript: string, hasTranscriptElement: bool)
      requires Valid()
      modifies this
      ensures Valid()
      ensures State() == Session.UpdateTranscript(old(State()), finalTranscript, interimTranscript,
                                                  hasTranscriptElement)
    {
      if !hasTranscriptElement {
        return;
      }
      if !Session.JsBlank(finalTranscript) {
        currentTranscript := currentTranscript + finalTranscript;
        interviewData := interviewData.(responses :=
          Session.JsArraySet(interviewData.responses, currentQuestionIndex, currentTranscript));
        nextEnabled := true;
      }
    }

    /** The recogniser's `error` event. */
    method HandleRecognitionError(code: string)
      requires Valid()
      modifies this
      ensures Valid()
      ensures State() == Session.HandleRecognitionError(old(State()), code)
    {
      recordingStatus := Session.ErrorMessage(code);
      StopRecording();
    }

    /**
     * The recogniser's `end` event, with the delayed restart run at once;
     * `restartSucceeds` says whether the recogniser's restart would succeed.
     */
    method OnEnd(restartSucceeds: bool) returns (restartAttempted: bool)
      requires Valid()
      modifies this
      ensures Valid()
      ensures restartAttempted == old(isRecording)
      ensures State() == Session.OnRecognitionEnd(old(State()), restartSucceeds)
    {
      restartAttempted := false;
      if isRecording {
        restartAttempted := true;
        if !restartSucceeds {
          StopRecording();
        }
      }
    }

    method ToggleRecording(startSucceeds: bool)
      requires Valid()
      modifies this
      ensures Valid()
      ensures State() == Session.ToggleRecording(old(State()), hasRecognition, startSucceeds)
    {
      if isRecording {
        StopRecording();
      } else {
        StartRecording(startSucceeds);
      }
    }

    method StartRecording(startSucceeds: bool)
      requires Valid()
      modifies this
      ensures Valid()
      ensures State() == Session.StartRecording(old(State()), hasRecognition, startSucceeds)
    {
      if !hasRecognition {
        return;
      }
      isRecording := true;
      currentTranscript := "";
      recordingStatus := Session.RecordingStatus;
      if !startSucceeds {
        StopRecording();
      }
    }

    method StopRecording()
      requires Valid()
      modifies this
      ensures Valid()
      ensures State() == Session.StopRecording(old(State()))
    {
      isRecording := false;
      recordingStatus := Session.CompletedStatus;
      var response := Session.ResponseAt(interviewData.responses, currentQuestionIndex);
      nextEnabled := !Session.JsBlank(response);
    }

    method SkipQuestion(now: int, scores: Analysis.Scores)
      requires Valid()
      modifies this
      ensures Valid()
      ensures State() == Session.SkipQuestion(old(State()), now, scores)
    {
      interviewData := interviewData.(responses :=
        Session.JsArraySet(interviewData.responses, currentQuestionIndex, Analysis.SkipSentinel));
      NextQuestion(now, scores);
    }

    method NextQuestion(now: int, scores: Analysis.Scores)
      requires Valid()
      modifies this
      ensures Valid()
      ensures State() == Session.NextQuestion(old(State()), now, scores)
    {
      currentQuestionIndex := currentQuestionIndex + 1;
      if currentQuestionIndex >= |interviewData.questions| {
        CompleteInterview(now, scores);
      } else {
        ResetQuestionState();
      }
    }

    method ResetQuestionState()
      requires Valid()
      modifies this
      ensures Valid()
      ensures State() == Session.ResetQuestionState(old(State()))
    {
      currentTranscript := "";
      nextEnabled := false;
      recordingStatus := Session.PromptStatus;
    }

    /** The end-interview button; `confirmed` is the user's answer to the confirmation dialog. */
    method EndInterview(confirmed: bool, now: int, scores: Analysis.Scores)
      requires Valid()
      modifies this
      ensures Valid()
      ensures State() == Session.EndInterview(old(State()), confirmed, now, scores)
    {
      if confirmed {
        CompleteInterview(now, scores);
      }
    }

    /**
     * Also reached from `NextQuestion` after the index has moved past the last
     * question, where only the length part of `Valid` holds; that part is all
     * the results page needs.
     */
    method CompleteInterview(now: int, scores: Analysis.Scores)
      requires |interviewData.questions| <= |interviewData.responses|
      modifies this
      ensures Valid()
      ensures State() == Session.CompleteInterview(old(State()), now, scores)
    {
      interviewData := interviewData.(endTime := Some(now));
      var analysis := Analysis.GenerateResults(interviewData.responses, scores,
                                               interviewData.startTime, now);
      interviewData := interviewData.(analysis := Some(analysis));
      currentPage := Session.ResultsPage;
    }

    method ResetInterview()
      requires Valid()
      modifies this
      ensures Valid()
      ensures State() == Session.ResetInterview(old(State()))
    {
      if isRecording {
        StopRecording();
      }
      currentQuestionIndex := 0;
      currentTranscript := "";
      interviewData := Session.DefaultInterviewData;
      currentPage := Session.LandingPage;
    }
  }
}
