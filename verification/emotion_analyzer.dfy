/**
  The emotion analyzer's rule-based path: the state whose keywords a
  conversation matches best, an intensity derived from that match, and an
  emotional-quotient score derived from the user's recent behaviour.
 */
module EmotionAnalyzer {
  import opened Wrappers
  import opened Numbers
  import opened Text
  import opened LlmReply
  import opened Emotions

  /** The behaviour summary as `analyze_conversation` reads it; an absent key is `None`. */
  datatype Behavior = Behavior(
    frequency: Option<real>,
    avgDuration: Option<real>,
    avgInterval: Option<real>,
    timeOfDay: Option<string>,
    cycle: Option<string>)

  /** The fields a decoded reply may carry; an absent field is `None`. */
  datatype ParsedEmotion = ParsedEmotion(
    state: Option<string>,
    intensity: Option<real>,
    reason: Option<string>,
    keywords: Option<seq<string>>,
    eqScore: Option<real>)

  /** One behaviour adjustment: +0.1 inside `[lo, hi]`, -0.1 above it, nothing below it. */
  function Band(x: real, lo: real, hi: real): (d: real)
    requires lo <= hi
    ensures lo <= x <= hi ==> d == 0.1
    ensures x > hi ==> d == -0.1
    ensures x < lo ==> d == 0.0
  {
    if lo <= x <= hi then 0.1 else if x > hi then -0.1 else 0.0
  }

  /** Morning and afternoon count in favour, night and late night against, anything else not at all. */
  function TimeBand(t: string): (d: real)
    ensures t == "morning" || t == "afternoon" ==> d == 0.1
    ensures t == "night" || t == "late_night" ==> d == -0.1
    ensures t != "morning" && t != "afternoon" && t != "night" && t != "late_night" ==> d == 0.0
  {
    if t == "morning" || t == "afternoon" then 0.1
    else if t == "night" || t == "late_night" then -0.1
    else 0.0
  }

  /**
    `_calculate_eq_score`: four adjustments of at most 0.1 around 0.5, so the
    score lies in [0.1, 0.9] and the final clamp to [0, 1] never changes it.
    Missing keys read as 0 and `''`.
   */
  function EqScore(b: Behavior): (r: real)
    ensures 0.1 <= r <= 0.9
    ensures r == 0.5 + Band(b.frequency.GetOr(0.0), 1.0, 5.0) + Band(b.avgDuration.GetOr(0.0), 5.0, 30.0)
                     + Band(b.avgInterval.GetOr(0.0), 1.0, 10.0) + TimeBand(b.timeOfDay.GetOr(""))
  {
    var base := 0.5 + Band(b.frequency.GetOr(0.0), 1.0, 5.0) + Band(b.avgDuration.GetOr(0.0), 5.0, 30.0)
                    + Band(b.avgInterval.GetOr(0.0), 1.0, 10.0) + TimeBand(b.timeOfDay.GetOr(""));
    Clamp(base, 0.0, 1.0)
  }

  /** No behaviour data at all gives exactly 0.5. */
  lemma EqDefault()
    ensures EqScore(Behavior(None, None, None, None, None)) == 0.5
  {
  }

  /** Moderate use at a good time of day gives the top score, excessive use at night the bottom one. */
  lemma EqExtremes(b: Behavior)
    ensures (&& b.frequency.GetOr(0.0) > 5.0 && b.avgDuration.GetOr(0.0) > 30.0 && b.avgInterval.GetOr(0.0) > 10.0
             && b.timeOfDay.GetOr("") == "late_night") ==> EqScore(b) == 0.1
    ensures (&& 1.0 <= b.frequency.GetOr(0.0) <= 5.0 && 5.0 <= b.avgDuration.GetOr(0.0) <= 30.0
             && 1.0 <= b.avgInterval.GetOr(0.0) <= 10.0 && b.timeOfDay.GetOr("") == "morning") ==> EqScore(b) == 0.9
  {
  }

  /**
    `_simple_analysis`: the best-matching state (the first in state order on
    a tie), intensity 1.5 times its score capped at 1, the names of all
    states with a positive score, and the behaviour's EQ score.
   */
  function SimpleAnalysis(conversation: string, b: Behavior): (a: EmotionAnalysis)
    ensures 0.0 <= a.intensity <= 1.0
    ensures forall k :: 0 <= k < |States| ==> (States[k].name in a.keywords <==> StateScores(conversation)[k] > 0.0)
    ensures InStateOrder(a.keywords)
    ensures a.eqScore == EqScore(b) && a.reason == "基于关键词分析"
  {
    var s := StateScores(conversation);
    var i := ArgMax(s);
    var intensity := if 1.5 * s[i] < 1.0 then 1.5 * s[i] else 1.0;
    var a := EmotionAnalysis(States[i].name, intensity, "基于关键词分析", PositiveStates(s), EqScore(b));
    a
  }

  /**
    The chosen state has the greatest keyword score, every earlier state
    scores strictly less, and the intensity is 1.5 times that score capped at 1.
   */
  lemma ChosenStateIsBest(conversation: string, b: Behavior)
    ensures var s := StateScores(conversation);
      exists i :: FirstBest(s, i) && SimpleAnalysis(conversation, b).state == StateName(i)
        && SimpleAnalysis(conversation, b).intensity == (if 1.5 * s[i] < 1.0 then 1.5 * s[i] else 1.0)
  {
    var s := StateScores(conversation);
    var i := ArgMax(s);
    assert FirstBest(s, i);
  }

  /** A conversation with none of the keywords reads as `happy` (the first state) at intensity 0, with no keywords. */
  lemma NoKeywordIsHappy(conversation: string, b: Behavior)
    requires forall k, j :: 0 <= k < |States| && 0 <= j < |States[k].keywords| ==> !Contains(conversation, States[k].keywords[j])
    ensures SimpleAnalysis(conversation, b).state == "happy"
    ensures SimpleAnalysis(conversation, b).intensity == 0.0
    ensures SimpleAnalysis(conversation, b).keywords == []
  {
    var s := StateScores(conversation);
    assert forall k :: 0 <= k < |s| ==> s[k] == 0.0;
    ArgMaxAllEqual(s);
    StatesWellFormed();
    var kws := SimpleAnalysis(conversation, b).keywords;
    if |kws| > 0 {
      assert kws == PositiveFrom(s, 0);
      NoPositiveNames(s, 0);
    }
  }

  lemma {:induction false} NoPositiveNames(s: seq<real>, i: nat)
    requires |s| == |States| && i <= |States|
    requires forall p, q :: 0 <= p < q < |States| ==> States[p].name != States[q].name
    requires forall k :: 0 <= k < |s| ==> s[k] == 0.0
    ensures PositiveFrom(s, i) == []
    decreases |States| - i
  {
    if i < |States| {
      NoPositiveNames(s, i + 1);
    }
  }

  /**
    `analyze_conversation`: a missing or empty reply, or content that is not
    JSON, falls back to the keyword analysis; decoded fields are taken with
    the defaults `'neutral'`, 0.5, `''`, `[]` and 0.5.
   */
  function AnalyzeConversation(conversation: string, b: Behavior, reply: Reply<ParsedEmotion>): (a: EmotionAnalysis)
    ensures FallsBack(reply) ==> a == SimpleAnalysis(conversation, b)
    ensures !FallsBack(reply) ==>
      && a.state == reply.parsed.value.state.GetOr("neutral")
      && a.intensity == reply.parsed.value.intensity.GetOr(0.5)
      && a.reason == reply.parsed.value.reason.GetOr("")
      && a.keywords == reply.parsed.value.keywords.GetOr([])
      && a.eqScore == reply.parsed.value.eqScore.GetOr(0.5)
  {
    match reply
    case Answer(Some(p)) =>
      EmotionAnalysis(p.state.GetOr("neutral"), p.intensity.GetOr(0.5), p.reason.GetOr(""),
        p.keywords.GetOr([]), p.eqScore.GetOr(0.5))
    case _ => SimpleAnalysis(conversation, b)
  }
}
