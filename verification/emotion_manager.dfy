/**
  The emotion manager: per-user emotion state (one document per user,
  written by upsert), the log of conversation behaviours, the behaviour
  summary handed to the analyzer, and the rule that blends a new analysis
  into the current state.
 */
module EmotionManager {
  import opened Wrappers
  import opened Numbers
  import opened Sorting
  import opened LlmReply
  import opened Emotions
  import EmotionAnalyzer

  /** A stored emotion state: the analysis and the time it was written. */
  datatype EmotionDoc = EmotionDoc(analysis: EmotionAnalysis, timestamp: int)

  /** One behaviour record: who, when, seconds since the previous one, and the conversation's duration. */
  datatype BehaviorRecord = BehaviorRecord(owner: string, timestamp: int, interval: real, duration: real)

  /** The manager's two collections: emotion states keyed by user, behaviours in insertion order. */
  datatype State = State(emotions: map<string, EmotionDoc>, behaviors: seq<BehaviorRecord>)

  /** The state reported for a user without a stored document. */
  const Initial: EmotionAnalysis := EmotionAnalysis("neutral", 0.5, "初始状态", [], 0.5)

  /** `_get_time_of_day`: the four buckets of the hour. */
  function TimeOfDay(hour: int): (t: string)
    ensures 5 <= hour < 12 <==> t == "morning"
    ensures 12 <= hour < 18 <==> t == "afternoon"
    ensures 18 <= hour < 22 <==> t == "night"
    ensures (hour < 5 || hour >= 22) <==> t == "late_night"
  {
    if 5 <= hour < 12 then "morning"
    else if 12 <= hour < 18 then "afternoon"
    else if 18 <= hour < 22 then "night"
    else "late_night"
  }

  /** `sum(...) / len(...)`, with the callers' `0` for an empty list. */
  function Average(xs: seq<real>): (r: real)
  {
    if |xs| == 0 then 0.0 else Sum(xs) / |xs| as real
  }

  /** The average of values that all lie in `[lo, hi]` lies there too. */
  lemma {:induction false} SumBounds(xs: seq<real>, lo: real, hi: real)
    requires forall k :: 0 <= k < |xs| ==> lo <= xs[k] <= hi
    ensures |xs| as real * lo <= Sum(xs) <= |xs| as real * hi
    decreases |xs|
  {
    if |xs| > 0 {
      SumBounds(xs[1..], lo, hi);
    }
  }

  lemma AverageBounds(xs: seq<real>, lo: real, hi: real)
    requires |xs| > 0
    requires forall k :: 0 <= k < |xs| ==> lo <= xs[k] <= hi
    ensures lo <= Average(xs) <= hi
  {
    SumBounds(xs, lo, hi);
    var n := |xs| as real;
    assert Sum(xs) / n >= lo by {
      assert Sum(xs) >= n * lo;
    }
    assert Sum(xs) / n <= hi by {
      assert Sum(xs) <= n * hi;
    }
  }

  /** `_get_conversation_cycle`: by the average interval — under an hour, under a day, or longer. */
  function ConversationCycle(intervals: seq<real>): (c: string)
    ensures |intervals| == 0 <==> c == "unknown"
    ensures |intervals| > 0 ==> (c == "frequent" <==> Average(intervals) < 3600.0)
    ensures |intervals| > 0 ==> (c == "daily" <==> 3600.0 <= Average(intervals) < 86400.0)
    ensures |intervals| > 0 ==> (c == "occasional" <==> Average(intervals) >= 86400.0)
  {
    if |intervals| == 0 then "unknown"
    else
      var avg := Average(intervals);
      if avg < 3600.0 then "frequent" else if avg < 86400.0 then "daily" else "occasional"
  }

  /** Intervals every few minutes are frequent, and intervals of several days are occasional. */
  lemma CycleOfUniformIntervals(intervals: seq<real>)
    requires |intervals| > 0
    ensures (forall k :: 0 <= k < |intervals| ==> 0.0 <= intervals[k] < 3600.0) ==> ConversationCycle(intervals) == "frequent"
    ensures (forall k :: 0 <= k < |intervals| ==> intervals[k] >= 86400.0) ==> ConversationCycle(intervals) == "occasional"
  {
    var top := MaxOf(intervals);
    var k :| 0 <= k < |intervals| && intervals[k] == top;
    if forall k :: 0 <= k < |intervals| ==> 0.0 <= intervals[k] < 3600.0 {
      AverageBounds(intervals, 0.0, top);
    }
    if forall k :: 0 <= k < |intervals| ==> intervals[k] >= 86400.0 {
      AverageBounds(intervals, 86400.0, top);
    }
  }

  /** The largest value of a non-empty list. */
  function MaxOf(xs: seq<real>): (m: real)
    requires |xs| > 0
    ensures forall k :: 0 <= k < |xs| ==> xs[k] <= m
    ensures exists k :: 0 <= k < |xs| && xs[k] == m
    decreases |xs|
  {
    if |xs| == 1 then xs[0]
    else
      var m := MaxOf(xs[1..]);
      assert forall k :: 1 <= k < |xs| ==> xs[k] == xs[1..][k - 1];
      if xs[0] >= m then xs[0] else m
  }

  /** The user's behaviours of the last day: `timestamp >= now - 1 day`, in insertion order. */
  function RecentBehaviors(log: seq<BehaviorRecord>, owner: string, now: int): (bs: seq<BehaviorRecord>)
    ensures forall k :: 0 <= k < |bs| ==> bs[k].owner == owner && bs[k].timestamp >= now - 86400 && bs[k] in log
    ensures forall k :: 0 <= k < |log| && log[k].owner == owner && log[k].timestamp >= now - 86400 ==> log[k] in bs
  {
    Filter(log, (b: BehaviorRecord) => b.owner == owner && b.timestamp >= now - 86400)
  }

  function Intervals(bs: seq<BehaviorRecord>): (xs: seq<real>)
    ensures |xs| == |bs| && forall k :: 0 <= k < |bs| ==> xs[k] == bs[k].interval
  {
    seq(|bs|, k requires 0 <= k < |bs| => bs[k].interval)
  }

  function Durations(bs: seq<BehaviorRecord>): (xs: seq<real>)
    ensures |xs| == |bs| && forall k :: 0 <= k < |bs| ==> xs[k] == bs[k].duration
  {
    seq(|bs|, k requires 0 <= k < |bs| => bs[k].duration)
  }

  /**
    `_get_user_behavior`: the number of the last day's behaviours, their
    average duration and interval, the hour's bucket and the cycle. With no
    behaviours the counts and averages are 0 and the cycle is `unknown`.
   */
  function GetUserBehavior(log: seq<BehaviorRecord>, owner: string, now: int, hour: int): (b: EmotionAnalyzer.Behavior)
    ensures b.frequency == Some(|RecentBehaviors(log, owner, now)| as real)
    ensures b.timeOfDay == Some(TimeOfDay(hour))
    ensures |RecentBehaviors(log, owner, now)| == 0 ==>
      b.avgDuration == Some(0.0) && b.avgInterval == Some(0.0) && b.cycle == Some("unknown")
    ensures |RecentBehaviors(log, owner, now)| > 0 ==>
      && b.avgDuration == Some(Average(Durations(RecentBehaviors(log, owner, now))))
      && b.avgInterval == Some(Average(Intervals(RecentBehaviors(log, owner, now))))
      && b.cycle.Some? && b.cycle.value != "unknown"
  {
    var bs := RecentBehaviors(log, owner, now);
    EmotionAnalyzer.Behavior(
      Some(|bs| as real),
      Some(Average(Durations(bs))),
      Some(Average(Intervals(bs))),
      Some(TimeOfDay(hour)),
      Some(ConversationCycle(Intervals(bs))))
  }

  /** The summary's cycle is the one its own average interval gives. */
  lemma CycleMatchesAverage(log: seq<BehaviorRecord>, owner: string, now: int, hour: int)
    ensures var b := GetUserBehavior(log, owner, now, hour);
      |RecentBehaviors(log, owner, now)| > 0 ==>
        && (b.cycle == Some("frequent") <==> b.avgInterval.value < 3600.0)
        && (b.cycle == Some("daily") <==> 3600.0 <= b.avgInterval.value < 86400.0)
        && (b.cycle == Some("occasional") <==> b.avgInterval.value >= 86400.0)
  {
  }

  /** With no behaviour in the last day, only the time of day moves the EQ score. */
  lemma QuietDayEq(log: seq<BehaviorRecord>, owner: string, now: int, hour: int)
    requires |RecentBehaviors(log, owner, now)| == 0
    ensures EmotionAnalyzer.EqScore(GetUserBehavior(log, owner, now, hour))
         == 0.5 + EmotionAnalyzer.TimeBand(TimeOfDay(hour))
  {
  }

  /** `_get_current_emotion`: the stored analysis, or the initial neutral state. */
  function GetCurrentEmotion(s: State, owner: string): (e: EmotionAnalysis)
    ensures owner !in s.emotions ==> e == Initial
    ensures owner in s.emotions ==> e == s.emotions[owner].analysis
  {
    if owner in s.emotions then s.emotions[owner].analysis else Initial
  }

  /** `get_emotion_state`. */
  function GetEmotionState(s: State, owner: string): (st: string)
    ensures owner !in s.emotions ==> st == "neutral"
    ensures st == GetCurrentEmotion(s, owner).state
  {
    if owner in s.emotions then s.emotions[owner].analysis.state else "neutral"
  }

  /** `get_emotion_intensity`. */
  function GetEmotionIntensity(s: State, owner: string): (x: real)
    ensures owner !in s.emotions ==> x == 0.5
    ensures x == GetCurrentEmotion(s, owner).intensity
  {
    if owner in s.emotions then s.emotions[owner].analysis.intensity else 0.5
  }

  /** `_update_emotion_state`: upsert of the user's one document. */
  function UpdateEmotionState(s: State, owner: string, e: EmotionAnalysis, now: int): (s': State)
    ensures owner in s'.emotions && s'.emotions.Keys == s.emotions.Keys + {owner}
    ensures forall u :: u in s.emotions && u != owner ==> s'.emotions[u] == s.emotions[u]
    ensures s'.behaviors == s.behaviors
  {
    State(s.emotions[owner := EmotionDoc(e, now)], s.behaviors)
  }

  /** After an upsert the getters read back what was written, for that user only. */
  lemma UpsertReadBack(s: State, owner: string, e: EmotionAnalysis, now: int, other: string)
    requires other != owner
    ensures GetEmotionState(UpdateEmotionState(s, owner, e, now), owner) == e.state
    ensures GetEmotionIntensity(UpdateEmotionState(s, owner, e, now), owner) == e.intensity
    ensures GetCurrentEmotion(UpdateEmotionState(s, owner, e, now), other) == GetCurrentEmotion(s, other)
  {
  }

  /** The latest of the user's behaviours (the first in insertion order among equal times), if any. */
  function LastBehavior(log: seq<BehaviorRecord>, owner: string): (r: Option<BehaviorRecord>)
    ensures r.None? <==> forall k :: 0 <= k < |log| ==> log[k].owner != owner
    ensures r.Some? ==> r.value in log && r.value.owner == owner
    ensures r.Some? ==> forall k :: 0 <= k < |log| && log[k].owner == owner ==> log[k].timestamp <= r.value.timestamp
  {
    var mine := Filter(log, (b: BehaviorRecord) => b.owner == owner);
    var sorted := SortDesc(mine, (b: BehaviorRecord) => b.timestamp as real);
    SortDescSameElements(mine, (b: BehaviorRecord) => b.timestamp as real);
    if |sorted| == 0 then None
    else
      assert sorted[0] in multiset(mine);
      assert forall k :: 0 <= k < |log| && log[k].owner == owner ==> log[k].timestamp <= sorted[0].timestamp by {
        forall k | 0 <= k < |log| && log[k].owner == owner
          ensures log[k].timestamp <= sorted[0].timestamp
        {
          assert log[k] in mine;
          assert log[k] in multiset(sorted);
          var j :| 0 <= j < |sorted| && sorted[j] == log[k];
        }
      }
      Some(sorted[0])
  }

  /**
    `_update_user_behavior`: append a record of duration 0 whose interval is
    the time since the user's latest behaviour, or 0 for a first behaviour.
   */
  function UpdateUserBehavior(s: State, owner: string, now: int): (s': State)
    ensures s'.emotions == s.emotions
    ensures |s'.behaviors| == |s.behaviors| + 1 && s'.behaviors[..|s.behaviors|] == s.behaviors
    ensures var b := s'.behaviors[|s.behaviors|];
      && b.owner == owner && b.timestamp == now && b.duration == 0.0
      && (LastBehavior(s.behaviors, owner).None? ==> b.interval == 0.0)
      && (LastBehavior(s.behaviors, owner).Some? ==> b.interval == (now - LastBehavior(s.behaviors, owner).value.timestamp) as real)
  {
    var interval := match LastBehavior(s.behaviors, owner)
      case None => 0.0
      case Some(last) => (now - last.timestamp) as real;
    State(s.emotions, s.behaviors + [BehaviorRecord(owner, now, interval, 0.0)])
  }

  /** A user whose latest behaviour is no later than now gets a non-negative interval. */
  lemma IntervalNonNegative(s: State, owner: string, now: int)
    requires forall k :: 0 <= k < |s.behaviors| ==> s.behaviors[k].timestamp <= now
    ensures UpdateUserBehavior(s, owner, now).behaviors[|s.behaviors|].interval >= 0.0
  {
  }

  /**
    `_calculate_new_emotion`: the current intensity decays by `decayRate`
    and is averaged with the new one; a high EQ holds on to a happy or
    neutral state (else neutral), a low EQ to a sad or angry one (else
    neutral), and otherwise the new state is taken. Reason, keywords and EQ
    come from the new analysis.
   */
  function NewEmotion(current: EmotionAnalysis, latest: EmotionAnalysis, decayRate: real): (e: EmotionAnalysis)
    ensures e.intensity == (current.intensity * (1.0 - decayRate) + latest.intensity) / 2.0
    ensures latest.eqScore > 0.7 ==>
      e.state == (if current.state == "happy" || current.state == "neutral" then current.state else "neutral")
    ensures latest.eqScore < 0.3 ==>
      e.state == (if current.state == "sad" || current.state == "angry" then current.state else "neutral")
    ensures 0.3 <= latest.eqScore <= 0.7 ==> e.state == latest.state
    ensures e.reason == latest.reason && e.keywords == latest.keywords && e.eqScore == latest.eqScore
  {
    var intensity := (current.intensity * (1.0 - decayRate) + latest.intensity) / 2.0;
    var state :=
      if latest.eqScore > 0.7 then (if current.state in ["happy", "neutral"] then current.state else "neutral")
      else if latest.eqScore < 0.3 then (if current.state in ["sad", "angry"] then current.state else "neutral")
      else latest.state;
    EmotionAnalysis(state, intensity, latest.reason, latest.keywords, latest.eqScore)
  }

  /** Intensities and decay rate in [0, 1] give a blended intensity in [0, 1]. */
  lemma NewIntensityBounded(current: EmotionAnalysis, latest: EmotionAnalysis, decayRate: real)
    requires 0.0 <= current.intensity <= 1.0 && 0.0 <= latest.intensity <= 1.0 && 0.0 <= decayRate <= 1.0
    ensures 0.0 <= NewEmotion(current, latest, decayRate).intensity <= 1.0
  {
    var x, d := current.intensity, 1.0 - decayRate;
    assert 0.0 <= x * d by {
      assert 0.0 <= d;
    }
    assert x * d <= x by {
      assert x - x * d == x * decayRate;
      assert 0.0 <= x * decayRate;
    }
  }

  /** Whatever the analysis, an EQ above 0.7 or below 0.3 only ever keeps the current state or settles on neutral. */
  lemma ExtremeEqIsConservative(current: EmotionAnalysis, latest: EmotionAnalysis, decayRate: real)
    requires latest.eqScore > 0.7 || latest.eqScore < 0.3
    ensures NewEmotion(current, latest, decayRate).state in {current.state, "neutral"}
  {
  }

  /** `EMOTION_EXPRESSIONS`: the first line for each state. */
  const FirstExpression: map<string, string> := map[
    "happy" := "我感到非常开心！",
    "excited" := "太棒了，我好激动！",
    "content" := "我很满足现在的状态。",
    "sad" := "我有点难过。",
    "angry" := "我有点生气。",
    "anxious" := "我有些担心。",
    "neutral" := "我现在很平静。",
    "curious" := "我对这个很感兴趣！"
  ]

  /** `get_emotion_expression`: the state's first expression, or the calm line for an unknown state. */
  function GetEmotionExpression(state: string): (line: string)
    ensures state in FirstExpression ==> line == FirstExpression[state]
    ensures state !in FirstExpression ==> line == "我现在很平静。"
  {
    if state in FirstExpression then FirstExpression[state] else "我现在很平静。"
  }

  /** An unknown state is expressed like `neutral`; every configured state has a line. */
  lemma UnknownReadsNeutral(state: string)
    ensures state !in FirstExpression ==> GetEmotionExpression(state) == GetEmotionExpression("neutral")
    ensures forall k :: 0 <= k < |States| ==> States[k].name in FirstExpression
  {
  }

  /**
    `update_emotion`: summarise the user's behaviour, analyse the
    conversation (the analyzer's reply is a parameter), blend with the
    current state, upsert it, and log the behaviour. `hour` is the hour of
    `now`.
   */
  function UpdateEmotion(s: State, owner: string, conversation: string, now: int, hour: int,
                         reply: Reply<EmotionAnalyzer.ParsedEmotion>, decayRate: real): (r: (State, EmotionAnalysis))
    ensures r.1 == NewEmotion(GetCurrentEmotion(s, owner),
      EmotionAnalyzer.AnalyzeConversation(conversation, GetUserBehavior(s.behaviors, owner, now, hour), reply), decayRate)
    ensures GetCurrentEmotion(r.0, owner) == r.1
    ensures r.0.emotions == s.emotions[owner := EmotionDoc(r.1, now)]
    ensures |r.0.behaviors| == |s.behaviors| + 1 && r.0.behaviors[|s.behaviors|].owner == owner
  {
    var behavior := GetUserBehavior(s.behaviors, owner, now, hour);
    var analysis := EmotionAnalyzer.AnalyzeConversation(conversation, behavior, reply);
    var e := NewEmotion(GetCurrentEmotion(s, owner), analysis, decayRate);
    var s1 := UpdateEmotionState(s, owner, e, now);
    var s2 := UpdateUserBehavior(s1, owner, now);
    (s2, e)
  }
}
