/**
 * The mock analysis the browser client computes when an interview completes:
 * which responses count as answered, how many words they hold, which feedback
 * bucket the overall score selects, and the record stored on the session.
 * The floating-point and random sub-scores are inputs (see `Scores`).
 */
module Analysis {
  import Text
  import opened Wrappers

  /** The fixed text written into a response slot when the candidate skips a question. */
  const SkipSentinel: string := "Question skipped by candidate."

  /** A response counts as answered when it is truthy (non-empty) and is not the skip sentinel. */
  predicate IsAnswered(r: string) {
    r != "" && r != SkipSentinel
  }

  /** `responses.filter(r => r && r !== SkipSentinel)`: the answered responses, in order. */
  function AnsweredResponses(responses: seq<string>): (r: seq<string>)
    ensures |r| <= |responses|
    ensures forall x :: x in r <==> x in responses && IsAnswered(x)
    ensures forall x :: multiset(r)[x] == if IsAnswered(x) then multiset(responses)[x] else 0
  {
    if responses == [] then []
    else
      var rest := AnsweredResponses(responses[..|responses| - 1]);
      var last := responses[|responses| - 1];
      assert responses == responses[..|responses| - 1] + [last];
      if IsAnswered(last) then rest + [last] else rest
  }

  /** Positions of the answered responses. */
  ghost function AnsweredIndices(responses: seq<string>): set<int> {
    set i | 0 <= i < |responses| && IsAnswered(responses[i])
  }

  /** Appending one response adds its position exactly when it is answered. */
  lemma AnsweredIndicesSnoc(init: seq<string>, last: string)
    ensures AnsweredIndices(init + [last])
         == AnsweredIndices(init) + (if IsAnswered(last) then {|init|} else {})
  {
    var whole := init + [last];
    forall i | 0 <= i < |init| ensures whole[i] == init[i] { }
  }

  /** The number of answered responses is the number of answered positions. */
  lemma {:induction false} AnsweredCount(responses: seq<string>)
    ensures |AnsweredResponses(responses)| == |AnsweredIndices(responses)|
  {
    if responses != [] {
      var n := |responses| - 1;
      var init, last := responses[..n], responses[n];
      assert responses == init + [last];
      AnsweredCount(init);
      AnsweredIndicesSnoc(init, last);
      assert n !in AnsweredIndices(init);
    }
  }

  /** The non-empty strings of `parts`, in order (`filter(w => w.length > 0)`). */
  function NonEmptyParts(parts: seq<string>): (r: seq<string>)
    ensures |r| <= |parts|
    ensures forall p :: p in r <==> p in parts && p != []
  {
    if parts == [] then []
    else if parts[0] == [] then NonEmptyParts(parts[1..])
    else [parts[0]] + NonEmptyParts(parts[1..])
  }

  lemma {:induction false} NonEmptyPartsAppend(a: seq<string>, b: seq<string>)
    ensures NonEmptyParts(a + b) == NonEmptyParts(a) + NonEmptyParts(b)
  {
    if a == [] {
      assert a + b == b;
    } else {
      assert (a + b)[0] == a[0];
      assert (a + b)[1..] == a[1..] + b;
      NonEmptyPartsAppend(a[1..], b);
    }
  }

  /**
   * `s.split(' ').filter(w => w.length > 0).length`: the number of space-separated
   * words, which is zero exactly when the string holds nothing but spaces.
   */
  function WordCount(s: string): (n: nat)
    ensures n == 0 <==> forall k :: 0 <= k < |s| ==> s[k] == ' '
  {
    NoWordsIffSpaces(s);
    |NonEmptyParts(Text.Split(s, ' '))|
  }

  lemma {:induction false} NoWordsIffSpaces(s: string)
    ensures NonEmptyParts(Text.Split(s, ' ')) == [] <==> forall k :: 0 <= k < |s| ==> s[k] == ' '
  {
    if s != [] {
      var rest := Text.Split(s[1..], ' ');
      var parts := Text.Split(s, ' ');
      NoWordsIffSpaces(s[1..]);
      assert forall k :: 1 <= k < |s| ==> s[k] == s[1..][k - 1];
      if s[0] == ' ' {
        assert parts == [[]] + rest;
        assert parts[1..] == rest;
      } else {
        assert parts[0] != [];
      }
    }
  }

  /** Sum of the word counts of each response taken on its own. */
  function SumWordCounts(responses: seq<string>): nat {
    if responses == [] then 0 else WordCount(responses[0]) + SumWordCounts(responses[1..])
  }

  /**
   * `responses.join(' ').split(' ').filter(w => w.length > 0).length`. Joining
   * with a space neither merges nor invents words: the total is the sum of the
   * responses' own word counts.
   */
  function TotalWords(responses: seq<string>): (n: nat)
    ensures n == SumWordCounts(responses)
  {
    JoinedWordsIsSum(responses);
    WordCount(Text.Join(responses, ' '))
  }

  lemma {:induction false} JoinedWordsIsSum(responses: seq<string>)
    ensures |NonEmptyParts(Text.Split(Text.Join(responses, ' '), ' '))| == SumWordCounts(responses)
  {
    if |responses| == 1 {
      assert SumWordCounts(responses[1..]) == 0;
    } else if |responses| > 1 {
      var head, tail := responses[0], responses[1..];
      JoinedWordsIsSum(tail);
      Text.SplitConcat(head, Text.Join(tail, ' '), ' ');
      NonEmptyPartsAppend(Text.Split(head, ' '), Text.Split(Text.Join(tail, ' '), ' '));
    }
  }

  datatype Bucket = Excellent | Good | Average

  /** The feedback bucket of `generateMockAnalysis` for an overall score. */
  function BucketFor(overallScore: int): (b: Bucket)
    ensures b == Excellent <==> overallScore >= 90
    ensures b == Good <==> 80 <= overallScore < 90
    ensures b == Average <==> overallScore < 80
  {
    if overallScore >= 90 then Excellent
    else if overallScore >= 80 then Good
    else Average
  }

  /**
   * The canned feedback sentences of the client's templates. Each is named by a
   * constructor; `PhraseText` gives the sentence the client displays.
   */
  datatype Phrase =
    // strengths
    | ClearArticulate | WellStructured | StrongExamples | ProfessionalDemeanor
    | GoodCommunication | RelevantExperience | ProfessionalApproach | ClearUnderstanding
    | AttemptedAll | ShowsPotential | BasicCommunication
    // improvements
    | KeepBuilding | AddMetrics | AddExamples | UseStar
    | MoreDetail | WorkOnStructure | BuildConfidence
    // suggestions
    | InterviewReady | ResearchCompany | HarderQuestions | ConciseStorytelling
    | PracticeDaily | RecordYourself | ResearchStar

  function PhraseText(p: Phrase): string {
    match p
    case ClearArticulate => "Clear and articulate communication"
    case WellStructured => "Well-structured responses"
    case StrongExamples => "Strong examples and evidence"
    case ProfessionalDemeanor => "Professional demeanor"
    case GoodCommunication => "Good communication skills"
    case RelevantExperience => "Relevant experience shared"
    case ProfessionalApproach => "Professional approach"
    case ClearUnderstanding => "Clear understanding of questions"
    case AttemptedAll => "Attempted all questions"
    case ShowsPotential => "Shows potential"
    case BasicCommunication => "Basic communication skills"
    case KeepBuilding => "Continue building on your excellent communication skills"
    case AddMetrics => "Consider adding more specific metrics where applicable"
    case AddExamples => "Add more specific examples to strengthen responses"
    case UseStar => "Consider structuring answers using the STAR method"
    case MoreDetail => "Provide more detailed and specific examples"
    case WorkOnStructure => "Work on response structure and clarity"
    case BuildConfidence => "Build confidence in delivery"
    case InterviewReady => "You're interview-ready! Practice maintaining this level consistently"
    case ResearchCompany => "Research company-specific questions for your target roles"
    case HarderQuestions => "Practice with more challenging questions"
    case ConciseStorytelling => "Work on concise storytelling techniques"
    case PracticeDaily => "Practice common interview questions daily"
    case RecordYourself => "Record yourself to improve delivery"
    case ResearchStar => "Research the STAR method for behavioral questions"
  }

  datatype Template = Template(strengths: seq<Phrase>, improvements: seq<Phrase>, suggestions: seq<Phrase>)

  /** The client's feedback template of each bucket. */
  function TemplateFor(b: Bucket): (t: Template)
    ensures |t.strengths| >= 3 && |t.improvements| >= 2
  {
    match b
    case Excellent => Template(
      [ClearArticulate, WellStructured, StrongExamples, ProfessionalDemeanor],
      [KeepBuilding, AddMetrics],
      [InterviewReady, ResearchCompany])
    case Good => Template(
      [GoodCommunication, RelevantExperience, ProfessionalApproach, ClearUnderstanding],
      [AddExamples, UseStar],
      [HarderQuestions, ConciseStorytelling])
    case Average => Template(
      [AttemptedAll, ShowsPotential, BasicCommunication],
      [MoreDetail, WorkOnStructure, BuildConfidence],
      [PracticeDaily, RecordYourself, ResearchStar])
  }

  /** JavaScript `slice(0, n)` for a non-negative `n`. */
  function Take<T>(s: seq<T>, n: nat): (r: seq<T>)
    ensures |r| == if n < |s| then n else |s|
    ensures r <= s
  {
    if n < |s| then s[..n] else s
  }

  /**
   * The rounded sub-scores. In the client they come from floating-point formulas,
   * two of them random; here they are given.
   */
  datatype Scores = Scores(overall: int, clarity: int, relevance: int, tone: int)

  datatype AnalysisRecord = AnalysisRecord(
    overallScore: int, clarity: int, relevance: int, tone: int,
    strengths: seq<Phrase>, improvements: seq<Phrase>, suggestions: seq<Phrase>,
    duration: int, totalWords: nat, answeredQuestions: nat)

  /**
   * `Math.round((end - start) / 1000 / 60)` on millisecond timestamps; a missing
   * start time (`null`) converts to 0. Math.round rounds halves up.
   */
  function DurationMinutes(startTime: Option<int>, endTime: int): (m: int)
    ensures var d := endTime - startTime.GetOr(0);
      60000 * m - 30000 <= d < 60000 * m + 30000
  {
    var d := endTime - startTime.GetOr(0);
    (d + 30000) / 60000
  }

  /** `generateMockAnalysis` applied to the already-filtered responses. */
  function MockAnalysis(answered: seq<string>, scores: Scores, startTime: Option<int>, endTime: int): (a: AnalysisRecord)
    ensures a.overallScore == scores.overall && a.clarity == scores.clarity
         && a.relevance == scores.relevance && a.tone == scores.tone
    ensures var t := TemplateFor(BucketFor(scores.overall));
      && |a.strengths| == 3 && a.strengths <= t.strengths
      && |a.improvements| == 2 && a.improvements <= t.improvements
      && a.suggestions == t.suggestions
    ensures a.duration == DurationMinutes(startTime, endTime)
    ensures a.totalWords == SumWordCounts(answered)
    ensures a.answeredQuestions == |answered|
  {
    var t := TemplateFor(BucketFor(scores.overall));
    AnalysisRecord(
      scores.overall, scores.clarity, scores.relevance, scores.tone,
      Take(t.strengths, 3), Take(t.improvements, 2), t.suggestions,
      DurationMinutes(startTime, endTime),
      TotalWords(answered), |answered|)
  }

  /** `generateResults`: filter the session's responses and analyse what is left. */
  function GenerateResults(responses: seq<string>, scores: Scores, startTime: Option<int>, endTime: int): (a: AnalysisRecord)
    ensures a.answeredQuestions == |AnsweredIndices(responses)|
    ensures a.totalWords == SumWordCounts(AnsweredResponses(responses))
    ensures a.overallScore == scores.overall && a.clarity == scores.clarity
         && a.relevance == scores.relevance && a.tone == scores.tone
    ensures var t := TemplateFor(BucketFor(scores.overall));
      && |a.strengths| == 3 && a.strengths <= t.strengths
      && |a.improvements| == 2 && a.improvements <= t.improvements
      && a.suggestions == t.suggestions
    ensures a.duration == DurationMinutes(startTime, endTime)
  {
    AnsweredCount(responses);
    MockAnalysis(AnsweredResponses(responses), scores, startTime, endTime)
  }

  /** A skipped question followed by an answered one: one answer, whose words are all counted. */
  lemma SkippedThenAnswered(answer: string)
    requires IsAnswered(answer)
    ensures |AnsweredIndices([SkipSentinel, answer])| == 1
    ensures SumWordCounts(AnsweredResponses([SkipSentinel, answer])) == WordCount(answer)
  {
    var rs := [SkipSentinel, answer];
    assert AnsweredIndices(rs) == {1};
    assert AnsweredResponses(rs) == [answer];
    assert SumWordCounts([answer]) == WordCount(answer) + SumWordCounts([]);
  }
}
