/**
 * Turning the language model's reply into a novelty score: the code-fence
 * stripping and the averaging of `_score_paper`
 * (src/paper_review/agents/ranker.py:128-169, utils/novelty_ranker.py:139-192).
 */
module Scoring {
  import opened Wrappers
  import opened Text
  import opened Llm
  import opened Papers

  /** The score each missing criterion gets, and every criterion of the neutral score. */
  const Neutral: real := 5.0

  /** The message Python gives when `+` meets a non-number (the exact text names the operand types). */
  const TypeErrorMessage: string := "unsupported operand type(s) for +"
  /** The message of `.get` on a decoded value that is not an object. */
  const NotAnObjectMessage: string := "object has no attribute 'get'"
  /** Pydantic's message when `reasoning` is not a string. */
  const ReasoningNotStringMessage: string := "reasoning: Input should be a valid string"

  // ---------------------------------------------------------------------
  // Code fences
  // ---------------------------------------------------------------------

  /**
   * `text.split("```json")[1].split("```")[0]`: the start of what follows the
   * first "```json"; it holds no "```" and runs to a "```" or to the end.
   */
  function JsonFenceBody(text: string): (p: string)
    requires Contains(text, "```json")
    ensures var rest := After(text, "```json");
            |p| <= |rest| && p == rest[..|p|] && !Contains(p, "```")
            && (p == rest || MatchAt(rest, "```", |p|))
  {
    var rest := After(text, "```json");
    CutAtShorter(rest, "```json", "```");
    Before(Before(rest, "```json"), "```")
  }

  /**
   * Cutting at the first `long`, then at the first `short`, where `short`
   * starts `long`, cuts at the first `short`.
   */
  lemma CutAtShorter(rest: string, long: string, short: string)
    requires 0 < |short| <= |long| && short == long[..|short|]
    ensures var p := Before(Before(rest, long), short);
            |p| <= |rest| && p == rest[..|p|] && !Contains(p, short)
            && (p == rest || MatchAt(rest, short, |p|))
  {
    var q := Before(rest, long);
    var p := Before(q, short);
    assert p == rest[..|p|];
    if p != rest {
      if p == q {
        MatchPrefix(rest, long, short, |p|);
      } else {
        MatchInPrefix(rest, |q|, short, |p|);
      }
    }
  }

  /** `text.split("```")[1].split("```")[0]`: the text between the first and the second "```". */
  function PlainFenceBody(text: string): (p: string)
    requires Contains(text, "```")
    ensures var rest := After(text, "```");
            p == Before(rest, "```") && !Contains(p, "```")
  {
    var b := Before(After(text, "```"), "```");
    BeforeNoMatch(b, "```");
    Before(b, "```")
  }

  /**
   * The parsed text: the trimmed "```json" fence body when there is one,
   * else the trimmed plain fence body when there is a "```", else the reply
   * unchanged.
   */
  function StripFence(text: string): (r: string)
    ensures Contains(text, "```json") ==> r == Strip(JsonFenceBody(text))
    ensures !Contains(text, "```json") && Contains(text, "```") ==> r == Strip(PlainFenceBody(text))
    ensures !Contains(text, "```") ==> r == text
  {
    JsonFenceIsFence(text);
    if Contains(text, "```json") then
      Strip(JsonFenceBody(text))
    else if Contains(text, "```") then
      Strip(PlainFenceBody(text))
    else
      text
  }

  /** Every "```json" starts with "```". */
  lemma JsonFenceIsFence(text: string)
    ensures Contains(text, "```json") ==> Contains(text, "```")
  {
    if Contains(text, "```json") {
      var k := IndexOf(text, "```json").value;
      MatchPrefix(text, "```json", "```", k);
    }
  }

  // ---------------------------------------------------------------------
  // The sub-scores
  // ---------------------------------------------------------------------

  /**
   * `scores.get(key, 5.0)` where it must then take part in `+`: a number as
   * itself, a boolean as 1 or 0 (a Python `bool` is an `int`), None for any
   * other value.
   */
  function SubScore(fields: map<string, JsonValue>, key: string): (r: Option<real>)
    ensures key !in fields ==> r == Some(Neutral)
    ensures key in fields && fields[key].JNumber? ==> r == Some(fields[key].n)
    ensures key in fields && fields[key].JBool? ==> r == Some(if fields[key].b then 1.0 else 0.0)
    ensures r.None? <==> key in fields && !fields[key].JNumber? && !fields[key].JBool?
  {
    if key !in fields then Some(Neutral)
    else match fields[key]
      case JNumber(n) => Some(n)
      case JBool(b) => Some(if b then 1.0 else 0.0)
      case _ => None
  }

  /** The parts of a reply that scoring reads: the three criteria and the raw `reasoning` value. */
  datatype Criteria = Criteria(novelty: real, impact: real, clarity: real, reasoning: JsonValue)

  /** The three `.get`s with 5.0 defaults on a decoded object, and its `reasoning` ("" when missing). */
  function CriteriaOf(fields: map<string, JsonValue>): (r: Result<Criteria>)
    ensures r.Failure? <==> SubScore(fields, "novelty").None? || SubScore(fields, "impact").None?
                            || SubScore(fields, "clarity").None?
  {
    var n := SubScore(fields, "novelty");
    var i := SubScore(fields, "impact");
    var c := SubScore(fields, "clarity");
    if n.None? || i.None? || c.None? then Failure(TypeErrorMessage)
    else
      var reasoning := if "reasoning" in fields then fields["reasoning"] else JString("");
      Success(Criteria(n.value, i.value, c.value, reasoning))
  }

  /**
   * Everything inside the `try` of `_score_paper` after the call itself:
   * fence stripping, `json.loads`, then the criteria of the decoded object.
   */
  function ReadCriteria(text: string, decode: Decoder): (r: Result<Criteria>)
  {
    match decode(StripFence(text))
    case Failure(e) => Failure(e)
    case Success(JObject(fields)) => CriteriaOf(fields)
    case Success(_) => Failure(NotAnObjectMessage)
  }

  /** A key other than the four read can be set to anything without changing the criteria. */
  lemma CriteriaIgnores(fields: map<string, JsonValue>, k: string, v: JsonValue)
    requires k != "novelty" && k != "impact" && k != "clarity" && k != "reasoning"
    ensures CriteriaOf(fields[k := v]) == CriteriaOf(fields)
  {
    var fields' := fields[k := v];
    assert SubScore(fields', "novelty") == SubScore(fields, "novelty");
    assert SubScore(fields', "impact") == SubScore(fields, "impact");
    assert SubScore(fields', "clarity") == SubScore(fields, "clarity");
    assert ("reasoning" in fields') == ("reasoning" in fields);
  }

  /** Only "novelty", "impact", "clarity" and "reasoning" are read: a "total_score" from the model is ignored. */
  lemma SuppliedTotalIgnored(text: string, decode: Decoder, fields: map<string, JsonValue>, v: JsonValue)
    requires decode(StripFence(text)) == Success(JObject(fields))
    ensures var d' := (s: string) => if s == StripFence(text) then Success(JObject(fields["total_score" := v])) else decode(s);
            ReadCriteria(text, d') == ReadCriteria(text, decode)
  {
    CriteriaIgnores(fields, "total_score", v);
  }

  /** The arithmetic mean of the three criteria, `(novelty + impact + clarity) / 3.0`. */
  function Mean3(a: real, b: real, c: real): real {
    (a + b + c) / 3.0
  }

  /** The neutral score: 5.0 everywhere, with the given reasoning. */
  function NeutralScore(reasoning: string): (s: NoveltyScore)
    ensures s.novelty == s.impact == s.clarity == Neutral
    ensures s.totalScore == Mean3(s.novelty, s.impact, s.clarity)
    ensures s.reasoning == reasoning
  {
    NoveltyScore(Neutral, Neutral, Neutral, Neutral, reasoning)
  }

  /**
   * `_score_paper` of src/paper_review/agents/ranker.py: any failure of the
   * call, of decoding, of the arithmetic or of building the `NoveltyScore`
   * (a non-string reasoning) gives the neutral score with "Error: " and the
   * message.
   */
  function ScorePaper(outcome: LlmOutcome, decode: Decoder): (s: NoveltyScore)
    ensures s.totalScore == Mean3(s.novelty, s.impact, s.clarity)
  {
    match outcome
    case CallFailed(e) => NeutralScore("Error: " + e)
    case Reply(text) =>
      match ReadCriteria(text, decode)
      case Failure(e) => NeutralScore("Error: " + e)
      case Success(c) =>
        if c.reasoning.JString? then
          NoveltyScore(Mean3(c.novelty, c.impact, c.clarity), c.novelty, c.impact, c.clarity, c.reasoning.s)
        else NeutralScore("Error: " + ReasoningNotStringMessage)
  }

  /** When the reply decodes to an object with numeric (or missing) criteria, the score carries them. */
  lemma ScoreFromGoodReply(text: string, decode: Decoder, fields: map<string, JsonValue>)
    requires decode(StripFence(text)) == Success(JObject(fields))
    requires "novelty" in fields ==> fields["novelty"].JNumber?
    requires "impact" in fields ==> fields["impact"].JNumber?
    requires "clarity" in fields ==> fields["clarity"].JNumber?
    requires "reasoning" in fields ==> fields["reasoning"].JString?
    ensures var s := ScorePaper(Reply(text), decode);
            && Some(s.novelty) == SubScore(fields, "novelty")
            && Some(s.impact) == SubScore(fields, "impact")
            && Some(s.clarity) == SubScore(fields, "clarity")
            && s.reasoning == (if "reasoning" in fields then fields["reasoning"].s else "")
  {
    var c := CriteriaOf(fields);
    assert c.Success?;
    assert ReadCriteria(text, decode) == c;
  }

  /** Every way scoring can fail leaves a neutral score whose reasoning starts with "Error: ". */
  lemma ScoreFailureIsNeutral(outcome: LlmOutcome, decode: Decoder)
    requires outcome.CallFailed? || ReadCriteria(outcome.text, decode).Failure?
             || !ReadCriteria(outcome.text, decode).value.reasoning.JString?
    ensures var s := ScorePaper(outcome, decode);
            s.novelty == s.impact == s.clarity == s.totalScore == Neutral
            && |s.reasoning| >= 7 && s.reasoning[..7] == "Error: "
  {
  }

  // ---------------------------------------------------------------------
  // The dictionary variant of utils/novelty_ranker.py
  // ---------------------------------------------------------------------

  /** The `novelty_score` dictionary: `reasoning` is whatever JSON value the model gave. */
  datatype ScoreRecord = ScoreRecord(totalScore: real, novelty: real, impact: real, clarity: real, reasoning: JsonValue)

  function NeutralRecord(reasoning: string): (s: ScoreRecord)
    ensures s.novelty == s.impact == s.clarity == Neutral
    ensures s.totalScore == Mean3(s.novelty, s.impact, s.clarity)
    ensures s.reasoning == JString(reasoning)
  {
    ScoreRecord(Neutral, Neutral, Neutral, Neutral, JString(reasoning))
  }

  /**
   * `_score_paper` of utils/novelty_ranker.py once the prompt is built: the
   * reply is stripped before the same fence handling, and `reasoning` is
   * passed through unchecked.
   */
  function ScoreRecordOf(outcome: LlmOutcome, decode: Decoder): (s: ScoreRecord)
    ensures s.totalScore == Mean3(s.novelty, s.impact, s.clarity)
  {
    match outcome
    case CallFailed(e) => NeutralRecord("Error: " + e)
    case Reply(text) =>
      match ReadCriteria(Strip(text), decode)
      case Failure(e) => NeutralRecord("Error: " + e)
      case Success(c) => ScoreRecord(Mean3(c.novelty, c.impact, c.clarity), c.novelty, c.impact, c.clarity, c.reasoning)
  }

  /** The two variants agree whenever the reply has no surrounding whitespace and its reasoning is a string. */
  lemma VariantsAgree(text: string, decode: Decoder)
    requires Strip(text) == text
    requires ReadCriteria(text, decode).Success? ==> ReadCriteria(text, decode).value.reasoning.JString?
    ensures var s := ScorePaper(Reply(text), decode);
            var d := ScoreRecordOf(Reply(text), decode);
            d == ScoreRecord(s.totalScore, s.novelty, s.impact, s.clarity, JString(s.reasoning))
  {
  }
}
