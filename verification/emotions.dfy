/**
  The emotion vocabulary shared by the analyzer, the manager and the
  reasoner: the analysis record, the configured states with their keywords
  (in declaration order, which is also dictionary order), the keyword score
  of a text for a state, and Python's `max` over scored items.
 */
module Emotions {
  import opened Text
  import opened Numbers

  /** `EmotionAnalysis`. */
  datatype EmotionAnalysis = EmotionAnalysis(
    state: string,
    intensity: real,
    reason: string,
    keywords: seq<string>,
    eqScore: real)

  /** A configured state: its name and the keywords that signal it. */
  datatype StateConfig = StateConfig(name: string, keywords: seq<string>)

  /** `EMOTION_STATES`, in declaration order. */
  const States: seq<StateConfig> := [
    StateConfig("happy", ["开心", "快乐", "高兴", "喜悦", "兴奋", "愉快", "欢乐"]),
    StateConfig("excited", ["兴奋", "激动", "热情", "振奋", "充满活力"]),
    StateConfig("content", ["满足", "满意", "舒适", "安心", "平静"]),
    StateConfig("sad", ["悲伤", "难过", "伤心", "失落", "沮丧"]),
    StateConfig("angry", ["愤怒", "生气", "恼火", "不满", "烦躁"]),
    StateConfig("anxious", ["焦虑", "担心", "紧张", "不安", "恐惧"]),
    StateConfig("neutral", ["平静", "中性", "一般", "普通"]),
    StateConfig("curious", ["好奇", "感兴趣", "探索", "求知"])
  ]

  /** Every state has keywords, so the per-state division is defined; the names are distinct. */
  lemma StatesWellFormed()
    ensures |States| == 8
    ensures forall k :: 0 <= k < |States| ==> |States[k].keywords| > 0
    ensures forall p, q :: 0 <= p < q < |States| ==> States[p].name != States[q].name
    ensures States[0].name == "happy"
  {
  }

  /** `score / len(config['keywords'])`: the fraction of the state's keywords that occur in the text. */
  function KeywordScore(text: string, keywords: seq<string>): (r: real)
    requires |keywords| > 0
    ensures 0.0 <= r <= 1.0
    ensures r > 0.0 <==> exists k :: 0 <= k < |keywords| && Contains(text, keywords[k])
    ensures r == 1.0 <==> forall k :: 0 <= k < |keywords| ==> Contains(text, keywords[k])
  {
    var n := CountContained(text, keywords);
    FractionBounds(n, |keywords|);
    n as real / |keywords| as real
  }

  /** The keyword score of a text for every state, in state order. */
  function StateScores(text: string): (s: seq<real>)
    ensures |s| == |States|
    ensures forall k :: 0 <= k < |s| ==> 0.0 <= s[k] <= 1.0
    ensures forall k :: 0 <= k < |s| ==>
      (s[k] > 0.0 <==> exists j :: 0 <= j < |States[k].keywords| && Contains(text, States[k].keywords[j]))
  {
    StatesWellFormed();
    seq(|States|, k requires 0 <= k < |States| => KeywordScore(text, States[k].keywords))
  }

  /**
    `max(scores.items(), key=lambda x: x[1])`: the index of a greatest score,
    the earliest one on a tie (Python's `max` keeps the first maximal item).
   */
  function ArgMax(s: seq<real>): (i: nat)
    requires |s| > 0
    ensures i < |s|
    ensures forall j :: 0 <= j < |s| ==> s[j] <= s[i]
    ensures forall j :: 0 <= j < i ==> s[j] < s[i]
    decreases |s|
  {
    if |s| == 1 then 0
    else
      var i := ArgMax(s[..|s| - 1]);
      assert forall j :: 0 <= j < |s| - 1 ==> s[..|s| - 1][j] == s[j];
      if s[|s| - 1] > s[i] then |s| - 1 else i
  }

  /** All scores equal (for instance all zero): the first item wins. */
  lemma ArgMaxAllEqual(s: seq<real>)
    requires |s| > 0
    requires forall j :: 0 <= j < |s| ==> s[j] == s[0]
    ensures ArgMax(s) == 0
  {
  }

  /** The names of the states whose score is positive, in state order. */
  function PositiveStates(scores: seq<real>): (names: seq<string>)
    requires |scores| == |States|
    ensures forall k :: 0 <= k < |States| ==> (States[k].name in names <==> scores[k] > 0.0)
    ensures |names| <= |States|
    ensures InStateOrder(names)
  {
    StatesWellFormed();
    PositiveFromOrder(scores, 0);
    PositiveFrom(scores, 0)
  }

  /** Each name in the list belongs to an earlier state than every name after it. */
  predicate InStateOrder(names: seq<string>)
  {
    forall p, q :: 0 <= p < q < |names| ==> StateBefore(names[p], names[q])
  }

  /** Every state named `x` comes before every state named `y`. */
  predicate StateBefore(x: string, y: string)
  {
    forall i, j :: 0 <= i < |States| && 0 <= j < |States| && States[i].name == x && States[j].name == y ==> i < j
  }

  lemma {:induction false} PositiveFromOrder(scores: seq<real>, i: nat)
    requires |scores| == |States| && i <= |States|
    requires forall p, q :: 0 <= p < q < |States| ==> States[p].name != States[q].name
    ensures InStateOrder(PositiveFrom(scores, i))
    decreases |States| - i
  {
    if i < |States| {
      PositiveFromOrder(scores, i + 1);
      var rest := PositiveFrom(scores, i + 1);
      if scores[i] > 0.0 {
        forall y | y in rest
          ensures StateBefore(States[i].name, y)
        {
          FirstBeforeRest(scores, i, y);
        }
        ConsOrder(States[i].name, rest);
        assert PositiveFrom(scores, i) == [States[i].name] + rest;
      } else {
        assert PositiveFrom(scores, i) == rest;
      }
    }
  }

  lemma ConsOrder(x: string, rest: seq<string>)
    requires InStateOrder(rest)
    requires forall y :: y in rest ==> StateBefore(x, y)
    ensures InStateOrder([x] + rest)
  {
    var names := [x] + rest;
    forall p, q | 0 <= p < q < |names|
      ensures StateBefore(names[p], names[q])
    {
      assert names[q] == rest[q - 1];
      if p > 0 {
        assert names[p] == rest[p - 1];
      }
    }
  }

  /** State `i` comes before any state named later in the walk from `i + 1`. */
  lemma FirstBeforeRest(scores: seq<real>, i: nat, y: string)
    requires |scores| == |States| && i < |States|
    requires forall p, q :: 0 <= p < q < |States| ==> States[p].name != States[q].name
    requires y in PositiveFrom(scores, i + 1)
    ensures StateBefore(States[i].name, y)
  {
  }

  function PositiveFrom(scores: seq<real>, i: nat): (names: seq<string>)
    requires |scores| == |States| && i <= |States|
    requires forall p, q :: 0 <= p < q < |States| ==> States[p].name != States[q].name
    ensures forall k :: i <= k < |States| ==> (States[k].name in names <==> scores[k] > 0.0)
    ensures forall k :: 0 <= k < i ==> States[k].name !in names
    ensures |names| <= |States| - i
    decreases |States| - i
  {
    if i == |States| then []
    else (if scores[i] > 0.0 then [States[i].name] else []) + PositiveFrom(scores, i + 1)
  }

  /** `i` holds a greatest score and every earlier score is smaller: the item Python's `max` picks. */
  predicate FirstBest(s: seq<real>, i: int)
  {
    && 0 <= i < |s|
    && (forall j :: 0 <= j < |s| ==> s[j] <= s[i])
    && (forall j :: 0 <= j < i ==> s[j] < s[i])
  }

  /** The name of the `i`-th state. */
  function StateName(i: int): string
  {
    if 0 <= i < |States| then States[i].name else ""
  }
}
