/**
  The emotion reasoner's rule-based path: the emotional tendency of the last
  few conversations, the current state adjusted by the bot's personality,
  and the change to its emotional quotient that the adjustment implies.
  A personality is the list of a dictionary's items, trait name to weight.
 */
module EmotionReasoner {
  import opened Wrappers
  import opened Numbers
  import opened Text
  import opened LlmReply
  import opened Emotions

  type Personality = seq<(string, real)>

  /** A dictionary's keys are distinct. */
  predicate DistinctTraits(p: Personality)
  {
    forall i, j :: 0 <= i < j < |p| ==> p[i].0 != p[j].0
  }

  /** `personality.get(name, 0)`. */
  function Get(p: Personality, name: string): (w: real)
    ensures (forall k :: 0 <= k < |p| ==> p[k].0 != name) ==> w == 0.0
    ensures forall k :: 0 <= k < |p| && p[k].0 == name && (forall j :: 0 <= j < k ==> p[j].0 != name) ==> w == p[k].1
    decreases |p|
  {
    if |p| == 0 then 0.0
    else if p[0].0 == name then p[0].1
    else
      assert forall k :: 1 <= k < |p| ==> p[1..][k - 1] == p[k];
      Get(p[1..], name)
  }

  /** `conversation_history[-5:]`: the last five entries, or all of them when there are fewer. */
  function Last5(h: seq<string>): (r: seq<string>)
    ensures |r| == (if |h| < 5 then |h| else 5)
    ensures r == h[|h| - |r|..]
  {
    if |h| <= 5 then h else h[|h| - 5..]
  }

  /** The keyword scores of several conversations for one state, added up. */
  function ScoreSum(conversations: seq<string>, keywords: seq<string>): (r: real)
    requires |keywords| > 0
    ensures 0.0 <= r <= |conversations| as real
    ensures r > 0.0 <==> exists c, k :: 0 <= c < |conversations| && 0 <= k < |keywords| && Contains(conversations[c], keywords[k])
    decreases |conversations|
  {
    if |conversations| == 0 then 0.0
    else
      var rest := ScoreSum(conversations[1..], keywords);
      assert forall c :: 1 <= c < |conversations| ==> conversations[1..][c - 1] == conversations[c];
      KeywordScore(conversations[0], keywords) + rest
  }

  /** Some keyword of the `k`-th state occurs in some conversation. */
  predicate Matches(conversations: seq<string>, k: int)
    requires 0 <= k < |States|
  {
    exists c, j :: 0 <= c < |conversations| && 0 <= j < |States[k].keywords| && Contains(conversations[c], States[k].keywords[j])
  }

  /** The unnormalised scores, one per state in state order. */
  function RawScores(conversations: seq<string>): (s: seq<real>)
    ensures |s| == |States|
    ensures forall k :: 0 <= k < |s| ==> s[k] >= 0.0
    ensures forall k :: 0 <= k < |s| ==> (s[k] > 0.0 <==> Matches(conversations, k))
  {
    StatesWellFormed();
    seq(|States|, k requires 0 <= k < |States| => ScoreSum(conversations, States[k].keywords))
  }

  /** Every element divided by `t`. */
  function Scale(xs: seq<real>, t: real): (ys: seq<real>)
    requires t != 0.0
    ensures |ys| == |xs| && forall k :: 0 <= k < |xs| ==> ys[k] == xs[k] / t
  {
    seq(|xs|, k requires 0 <= k < |xs| => xs[k] / t)
  }

  lemma {:induction false} SumScale(xs: seq<real>, t: real)
    requires t != 0.0
    ensures Sum(Scale(xs, t)) == Sum(xs) / t
    decreases |xs|
  {
    if |xs| > 0 {
      SumScale(xs[1..], t);
      assert Scale(xs, t)[1..] == Scale(xs[1..], t);
    }
  }

  /** A sum of non-negative numbers is at least each of them, and zero only when all are. */
  lemma {:induction false} SumNonNegative(xs: seq<real>)
    requires forall k :: 0 <= k < |xs| ==> xs[k] >= 0.0
    ensures forall k :: 0 <= k < |xs| ==> xs[k] <= Sum(xs)
    ensures Sum(xs) == 0.0 ==> forall k :: 0 <= k < |xs| ==> xs[k] == 0.0
    decreases |xs|
  {
    if |xs| > 0 {
      SumNonNegative(xs[1..]);
      assert forall k :: 1 <= k < |xs| ==> xs[1..][k - 1] == xs[k];
    }
  }

  /**
    `_analyze_conversation_emotion`: per state, the sum over the
    conversations of the fraction of its keywords present; divided by the
    total when that is positive.
   */
  function AnalyzeConversationEmotion(conversations: seq<string>): (s: seq<real>)
    ensures |s| == |States|
    ensures forall k :: 0 <= k < |s| ==> (s[k] > 0.0 <==> Matches(conversations, k))
  {
    var raw := RawScores(conversations);
    var total := Sum(raw);
    if total > 0.0 then
      var s := Scale(raw, total);
      assert forall k :: 0 <= k < |s| ==> (s[k] > 0.0 <==> raw[k] > 0.0) by {
        forall k | 0 <= k < |s|
          ensures s[k] > 0.0 <==> raw[k] > 0.0
        {
          PositiveQuotient(raw[k], total);
        }
      }
      s
    else raw
  }

  lemma PositiveQuotient(x: real, t: real)
    requires t > 0.0
    ensures x / t > 0.0 <==> x > 0.0
    ensures x / t >= 0.0 <==> x >= 0.0
  {
    if x > 0.0 {
      assert x / t * t == x;
    }
  }

  /** When any keyword of any state occurs, the scores lie in [0, 1] and add up to 1. */
  lemma ScoresSumToOne(conversations: seq<string>)
    requires exists k :: 0 <= k < |States| && Matches(conversations, k)
    ensures Sum(AnalyzeConversationEmotion(conversations)) == 1.0
    ensures forall k :: 0 <= k < |States| ==> 0.0 <= AnalyzeConversationEmotion(conversations)[k] <= 1.0
  {
    var raw := RawScores(conversations);
    var m :| 0 <= m < |States| && Matches(conversations, m);
    NormaliseSumsToOne(raw, m);
  }

  /** Dividing non-negative numbers, one of them positive, by their total gives fractions adding up to 1. */
  lemma NormaliseSumsToOne(raw: seq<real>, m: int)
    requires forall k :: 0 <= k < |raw| ==> raw[k] >= 0.0
    requires 0 <= m < |raw| && raw[m] > 0.0
    ensures Sum(raw) > 0.0
    ensures Sum(Scale(raw, Sum(raw))) == 1.0
    ensures forall k :: 0 <= k < |raw| ==> 0.0 <= Scale(raw, Sum(raw))[k] <= 1.0
  {
    var total := Sum(raw);
    SumNonNegative(raw);
    assert total > 0.0 by {
      assert total >= raw[m];
    }
    SumScale(raw, total);
    OneQuotient(total);
    var s := Scale(raw, total);
    forall k | 0 <= k < |raw|
      ensures 0.0 <= s[k] <= 1.0
    {
      QuotientUnit(raw[k], total);
    }
  }

  lemma OneQuotient(t: real)
    requires t > 0.0
    ensures t / t == 1.0
  {
  }

  lemma QuotientUnit(x: real, t: real)
    requires 0.0 <= x <= t && t > 0.0
    ensures 0.0 <= x / t <= 1.0
  {
    assert x / t * t == x;
  }

  /** When no keyword of any state occurs, every score is 0. */
  lemma NoMatchScoresZero(conversations: seq<string>)
    requires forall k :: 0 <= k < |States| ==> !Matches(conversations, k)
    ensures forall k :: 0 <= k < |States| ==> AnalyzeConversationEmotion(conversations)[k] == 0.0
  {
    var raw := RawScores(conversations);
    assert forall k :: 0 <= k < |raw| ==> raw[k] == 0.0;
    SumZeros(raw);
    assert AnalyzeConversationEmotion(conversations) == raw;
  }

  /** `personality_impact`: the weight of each trait on the intensity; other traits have none. */
  function TraitImpact(name: string): real
  {
    if name == "humor" then 0.1
    else if name == "seriousness" then -0.1
    else if name == "empathy" then 0.05
    else if name == "creativity" then 0.05
    else 0.0
  }

  /** The loop `adjusted_intensity += personality_impact.get(trait, 0) * weight`, as one sum. */
  function Impact(p: Personality): real
    decreases |p|
  {
    if |p| == 0 then 0.0 else TraitImpact(p[0].0) * p[0].1 + Impact(p[1..])
  }

  /** The impact of a personality depends only on its humor, seriousness, empathy and creativity. */
  lemma {:induction false} ImpactByTrait(p: Personality)
    requires DistinctTraits(p)
    ensures Impact(p) == 0.1 * Get(p, "humor") - 0.1 * Get(p, "seriousness")
                       + 0.05 * Get(p, "empathy") + 0.05 * Get(p, "creativity")
    decreases |p|
  {
    if |p| > 0 {
      ImpactByTrait(p[1..]);
      assert forall k :: 1 <= k < |p| ==> p[1..][k - 1] == p[k];
      assert forall t :: t != p[0].0 ==> Get(p, t) == Get(p[1..], t);
      assert Get(p[1..], p[0].0) == 0.0;
    }
  }

  /**
    `_adjust_emotion_by_personality`: the current intensity moved by the
    personality's impact and clamped to [0, 1]; the state with the greatest
    score; keywords and EQ kept from the current analysis.
   */
  function AdjustByPersonality(current: EmotionAnalysis, scores: seq<real>, p: Personality): (a: EmotionAnalysis)
    requires |scores| == |States|
    ensures 0.0 <= a.intensity <= 1.0
    ensures a.intensity == Clamp(current.intensity + Impact(p), 0.0, 1.0)
    ensures a.reason == "基于对话分析和性格特征调整"
    ensures a.keywords == current.keywords && a.eqScore == current.eqScore
  {
    EmotionAnalysis(StateName(ArgMax(scores)), Clamp(current.intensity + Impact(p), 0.0, 1.0),
      "基于对话分析和性格特征调整", current.keywords, current.eqScore)
  }

  /** The adjusted state is the one with the greatest score, the first of them on a tie. */
  lemma AdjustedStateIsBest(current: EmotionAnalysis, scores: seq<real>, p: Personality)
    requires |scores| == |States|
    ensures exists i :: FirstBest(scores, i) && AdjustByPersonality(current, scores, p).state == StateName(i)
  {
    assert FirstBest(scores, ArgMax(scores));
  }

  /** The EQ effect of a state change: up for a move to happy or neutral, down for any other move. */
  function ChangeTerm(current: EmotionAnalysis, latest: EmotionAnalysis): (d: real)
    ensures latest.state == current.state ==> d == 0.0
    ensures latest.state != current.state && (latest.state == "happy" || latest.state == "neutral") ==> d == 0.05
    ensures latest.state != current.state && latest.state != "happy" && latest.state != "neutral" ==> d == -0.05
  {
    if latest.state != current.state then
      (if latest.state in ["happy", "neutral"] then 0.05 else -0.05)
    else 0.0
  }

  /** The personality loop of `_calculate_eq_adjustment`: empathy counts for, seriousness against. */
  function EqTraits(p: Personality): real
    decreases |p|
  {
    if |p| == 0 then 0.0
    else (if p[0].0 == "empathy" then p[0].1 * 0.1 else if p[0].0 == "seriousness" then -(p[0].1 * 0.05) else 0.0)
         + EqTraits(p[1..])
  }

  lemma {:induction false} EqTraitsByTrait(p: Personality)
    requires DistinctTraits(p)
    ensures EqTraits(p) == 0.1 * Get(p, "empathy") - 0.05 * Get(p, "seriousness")
    decreases |p|
  {
    if |p| > 0 {
      EqTraitsByTrait(p[1..]);
      assert forall k :: 1 <= k < |p| ==> p[1..][k - 1] == p[k];
      assert forall t :: t != p[0].0 ==> Get(p, t) == Get(p[1..], t);
      assert Get(p[1..], p[0].0) == 0.0;
    }
  }

  /**
    `_calculate_eq_adjustment`: the state-change term, a tenth of the
    intensity change and the personality term, clamped to [-0.1, 0.1].
   */
  function EqAdjustment(current: EmotionAnalysis, latest: EmotionAnalysis, p: Personality): (d: real)
    ensures -0.1 <= d <= 0.1
    ensures d == Clamp(ChangeTerm(current, latest) + (latest.intensity - current.intensity) * 0.1 + EqTraits(p), -0.1, 0.1)
  {
    var base := ChangeTerm(current, latest) + (latest.intensity - current.intensity) * 0.1;
    Clamp(base + EqTraits(p), -0.1, 0.1)
  }

  /** No change of state or intensity and no empathy or seriousness: the quotient stays put. */
  lemma EqAdjustmentAtRest(current: EmotionAnalysis, latest: EmotionAnalysis, p: Personality)
    requires latest.state == current.state && latest.intensity == current.intensity
    requires DistinctTraits(p) && Get(p, "empathy") == 0.0 && Get(p, "seriousness") == 0.0
    ensures EqAdjustment(current, latest, p) == 0.0
  {
    EqTraitsByTrait(p);
  }

  /** A move to a happy or neutral state without losing intensity, for a neutral personality, raises the quotient. */
  lemma HappyMoveRaisesEq(current: EmotionAnalysis, latest: EmotionAnalysis, p: Personality)
    requires latest.state != current.state && (latest.state == "happy" || latest.state == "neutral")
    requires latest.intensity >= current.intensity
    requires DistinctTraits(p) && Get(p, "empathy") == 0.0 && Get(p, "seriousness") == 0.0
    ensures EqAdjustment(current, latest, p) > 0.0
  {
    EqTraitsByTrait(p);
  }

  /**
    `_simple_reasoning`: score the last five conversations, adjust the
    current analysis by personality, and compute the EQ adjustment.
   */
  function SimpleReasoning(current: EmotionAnalysis, history: seq<string>, p: Personality): (r: (EmotionAnalysis, real))
    ensures r.0 == AdjustByPersonality(current, AnalyzeConversationEmotion(Last5(history)), p)
    ensures r.1 == EqAdjustment(current, r.0, p)
  {
    var adjusted := AdjustByPersonality(current, AnalyzeConversationEmotion(Last5(history)), p);
    (adjusted, EqAdjustment(current, adjusted, p))
  }

  /** Conversations older than the last five make no difference. */
  lemma OnlyLastFiveMatter(current: EmotionAnalysis, older: seq<string>, recent: seq<string>, p: Personality)
    requires |recent| >= 5
    ensures SimpleReasoning(current, older + recent, p) == SimpleReasoning(current, recent, p)
  {
    var h := older + recent;
    assert h[|h| - 5..] == recent[|recent| - 5..];
    assert Last5(h) == Last5(recent);
  }

  /** `reason_emotion` fails: the name `json` is not bound in the module. */
  datatype ReasonError = NameError

  /**
    `reason_emotion`: with no response, no `choices` key or an empty
    `choices` list it takes the rule-based path; with a choice it evaluates
    `json.loads`, and, `json` never having been imported, raises
    `NameError` whatever the content (the `except json.JSONDecodeError`
    clause raises it too).
   */
  function ReasonEmotion<P>(current: EmotionAnalysis, history: seq<string>, p: Personality, reply: Reply<P>)
    : (r: Result<(EmotionAnalysis, real), ReasonError>)
    ensures reply.Answer? <==> r == Failure(NameError)
    ensures !reply.Answer? ==> r == Success(SimpleReasoning(current, history, p))
  {
    match reply
    case Answer(_) => Failure(NameError)
    case _ => Success(SimpleReasoning(current, history, p))
  }
}
