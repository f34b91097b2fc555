/**
 * Two computations of the API server lifted out of their request handlers:
 * choosing the questions of a new session (`setup_interview`) and turning the
 * language model's reply into a score (`complete_interview`). JSON parsing is
 * a parameter: what `json.loads` makes of a string, as far as the score goes.
 */
module Api {
  import Text
  import opened Wrappers

  /** The server's question bank, by interview type. */
  const SampleQuestions: map<string, seq<string>> := map[
    "Technical" := [
      "Explain a complex technical problem you solved recently.",
      "How do you approach debugging a difficult issue?",
      "Describe your experience with system design.",
      "What programming languages are you most comfortable with?",
      "How do you ensure code quality in your projects?"],
    "Behavioral" := [
      "Tell me about yourself and your background.",
      "Describe a challenging situation you faced at work and how you handled it.",
      "What are your greatest strengths and how do they apply to this role?",
      "Where do you see yourself in 5 years?",
      "Why do you want to work for our company?"],
    "General" := [
      "What motivates you in your work?",
      "How do you handle stress and pressure?",
      "Describe a time when you had to work with a difficult team member.",
      "What is your biggest professional achievement?",
      "What is your biggest weakness and how are you working to improve it?"]
  ]

  /** Python's `s[:n]`: a negative `n` counts from the end. */
  function PySliceTo<T>(s: seq<T>, n: int): (r: seq<T>)
    ensures r <= s
    ensures n >= 0 ==> |r| == if n < |s| then n else |s|
    ensures n < 0 ==> |r| == if |s| + n > 0 then |s| + n else 0
  {
    if n >= 0 then (if n < |s| then s[..n] else s)
    else if |s| + n > 0 then s[..|s| + n]
    else []
  }

  /** `SAMPLE_QUESTIONS.get(interview_type, SAMPLE_QUESTIONS["General"])` */
  function AvailableQuestions(interviewType: string): (qs: seq<string>)
    ensures interviewType in SampleQuestions ==> qs == SampleQuestions[interviewType]
    ensures interviewType !in SampleQuestions ==> qs == SampleQuestions["General"]
  {
    if interviewType in SampleQuestions then SampleQuestions[interviewType]
    else SampleQuestions["General"]
  }

  /** A list of custom questions is used when present and non-empty (Python truthiness). */
  predicate HasCustomQuestions(customQuestions: Option<seq<string>>) {
    customQuestions.Some? && customQuestions.value != []
  }

  /** The questions `setup_interview` stores for a new session. */
  function SelectQuestions(interviewType: string, questionCount: int,
                           customQuestions: Option<seq<string>>): (qs: seq<string>)
    ensures HasCustomQuestions(customQuestions) ==> qs <= customQuestions.value
    ensures !HasCustomQuestions(customQuestions) ==> qs <= AvailableQuestions(interviewType)
    ensures questionCount >= 0 ==>
      var source := if HasCustomQuestions(customQuestions) then customQuestions.value
                    else AvailableQuestions(interviewType);
      |qs| == if questionCount < |source| then questionCount else |source|
  {
    if HasCustomQuestions(customQuestions) then PySliceTo(customQuestions.value, questionCount)
    else PySliceTo(AvailableQuestions(interviewType), questionCount)
  }

  /** An empty custom list counts as no custom list. */
  lemma EmptyCustomIsAbsent(interviewType: string, questionCount: int)
    ensures SelectQuestions(interviewType, questionCount, Some([]))
         == SelectQuestions(interviewType, questionCount, None)
  { }

  /** Without custom questions, an unknown type draws from the General bank. */
  lemma UnknownTypeUsesGeneral(interviewType: string, questionCount: nat,
                               customQuestions: Option<seq<string>>)
    requires interviewType !in SampleQuestions && !HasCustomQuestions(customQuestions)
    ensures var general := SampleQuestions["General"];
      SelectQuestions(interviewType, questionCount, customQuestions)
        == general[..if questionCount < |general| then questionCount else |general|]
  {
    var general := SampleQuestions["General"];
    var qs := SelectQuestions(interviewType, questionCount, customQuestions);
    assert qs <= general;
  }

  const JsonFence: string := "```json"
  const Fence: string := "```"

  /** Python's `str.strip()`: the string without its leading and trailing whitespace. */
  function PyStrip(s: string): (r: string)
    ensures Text.IsTrimOf(r, s, Text.IsPyWhitespace)
    ensures r == [] <==> forall k :: 0 <= k < |s| ==> Text.IsPyWhitespace(s[k])
  {
    Text.Trim(s, Text.IsPyWhitespace)
  }

  predicate StartsWith(s: string, prefix: string) {
    prefix <= s
  }

  predicate EndsWith(s: string, suffix: string) {
    |suffix| <= |s| && s[|s| - |suffix|..] == suffix
  }

  /**
   * The cleaning of the model's reply: strip surrounding whitespace, drop a
   * leading "```json", then drop a trailing "```".
   */
  function CleanFence(text: string): (r: string)
    ensures var t := PyStrip(text);
      var body := if StartsWith(t, JsonFence) then t[|JsonFence|..] else t;
      && r <= body
      && |body| - |r| == (if EndsWith(body, Fence) then |Fence| else 0)
  {
    var t := PyStrip(text);
    var t' := if StartsWith(t, JsonFence) then t[7..] else t;
    if EndsWith(t', Fence) then t'[..|t'| - 3] else t'
  }

  /** Text without either fence is only stripped. */
  lemma CleanUnfenced(text: string)
    requires !StartsWith(PyStrip(text), JsonFence) && !EndsWith(PyStrip(text), Fence)
    ensures CleanFence(text) == PyStrip(text)
  { }

  /** Wrapping any body in the two fences and cleaning gives the body back. */
  lemma CleanFenced(body: string)
    ensures CleanFence(JsonFence + body + Fence) == body
  {
    var fenced := JsonFence + body + Fence;
    assert !Text.IsPyWhitespace(fenced[0]) && !Text.IsPyWhitespace(fenced[|fenced| - 1]);
    assert Text.TrimAt(fenced, fenced, Text.IsPyWhitespace, 0, |fenced|);
    Text.TrimUnique(PyStrip(fenced), fenced, fenced, Text.IsPyWhitespace);
    assert fenced[|JsonFence|..] == body + Fence;
  }

  /** What `int(value)` does with the reply's "score" member. */
  datatype ScoreValue = Convertible(n: int) | NotConvertible

  /** What `json.loads` returns for the cleaned reply, as far as the score is concerned. */
  datatype ParsedReply =
    | ParseFailed                         // json.loads raises
    | NotAnObject                         // a JSON value without `.get`: reading the score raises
    | JsonObject(score: Option<ScoreValue>) // an object, with or without a "score" member

  /** The model call: it raised (or its text could not be read), or it returned text. */
  datatype ModelReply = ModelCallFailed | ModelText(text: string)

  datatype FeedbackSource = FromModel | ParseFallback | ModelErrorFallback

  datatype Feedback = Feedback(source: FeedbackSource, score: int)

  /**
   * The score `complete_interview` records: the reply's "score" when it parses
   * and converts, 75 when the member is absent, 75 with the canned feedback when
   * parsing or conversion fails, 70 with the other canned feedback when the
   * model call fails.
   */
  function FeedbackScore(reply: ModelReply, parse: string -> ParsedReply): (f: Feedback)
    ensures reply.ModelCallFailed? ==> f == Feedback(ModelErrorFallback, 70)
    ensures reply.ModelText? ==> match parse(CleanFence(reply.text))
      case JsonObject(Some(Convertible(n))) => f == Feedback(FromModel, n)
      case JsonObject(None) => f == Feedback(FromModel, 75)
      case _ => f == Feedback(ParseFallback, 75)
    ensures f.source != FromModel ==> f.score == (if f.source == ParseFallback then 75 else 70)
  {
    match reply
    case ModelCallFailed => Feedback(ModelErrorFallback, 70)
    case ModelText(text) =>
      match parse(CleanFence(text))
      case JsonObject(Some(Convertible(n))) => Feedback(FromModel, n)
      case JsonObject(None) => Feedback(FromModel, 75)
      case _ => Feedback(ParseFallback, 75)
  }

  /** A reply wrapped in fences is parsed from its body. */
  lemma FencedReplyParsesBody(body: string, parse: string -> ParsedReply, n: int)
    requires parse(body) == JsonObject(Some(Convertible(n)))
    ensures FeedbackScore(ModelText(JsonFence + body + Fence), parse) == Feedback(FromModel, n)
  {
    CleanFenced(body);
  }
}
