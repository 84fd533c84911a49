/**
  The memory encoder: from raw content and caller metadata it derives the
  fields a record is scored and typed by — an embedding, a strength in [0,1],
  a memory type and a list of key points.
 */
module Encoder {
  import opened Wrappers
  import opened Text
  import opened Metadata
  import opened Foreign
  import opened Numbers

  /** The four memory kinds; `Semantic` is the fallback. */
  datatype MemoryType = Explicit | Procedural | Episodic | Semantic

  datatype Encoding = Encoding(
    content: string,
    embedding: Embedding,
    strength: real,
    memoryType: MemoryType,
    keyPoints: seq<string>,
    metadata: Meta)

  /** Python raises `TypeError` when the strength formula meets a non-numeric metadata value. */
  datatype EncodeError = NotANumber(key: string)

  /** `metadata.get(key, default)` used as a number. */
  function NumberOr(m: Meta, key: string, default: real): (r: Result<real, EncodeError>)
    ensures key !in m ==> r == Success(default)
    ensures r.Failure? <==> key in m && AsNumber(m[key]).None?
  {
    if key !in m then Success(default)
    else match AsNumber(m[key])
      case Some(x) => Success(x)
      case None => Failure(NotANumber(key))
  }

  /** +0.1 above 100 characters, -0.1 below 20. */
  function LengthBonus(n: nat): real
  {
    if n > 100 then 0.1 else if n < 20 then -0.1 else 0.0
  }

  /** The strength before decay: 0.5, the length bonus, and a fifth of each input's distance from 0.5. */
  function BaseStrength(n: nat, emotion: real, importance: real): real
  {
    0.5 + LengthBonus(n) + (emotion - 0.5) * 0.2 + (importance - 0.5) * 0.2
  }

  /** The strength formula once the three metadata numbers have been read. */
  function StrengthFormula(n: nat, emotion: real, importance: real, decay: real): (s: real)
    ensures 0.0 <= s <= 1.0
  {
    Clamp(BaseStrength(n, emotion, importance) * (1.0 - decay), 0.0, 1.0)
  }

  /** The three metadata entries the strength formula reads are numbers or absent. */
  predicate NumericInputs(m: Meta)
  {
    && NumberOr(m, "emotion_intensity", 0.5).Success?
    && NumberOr(m, "importance", 0.5).Success?
    && NumberOr(m, "time_decay", 0.0).Success?
  }

  /** `_calculate_memory_strength`: fails exactly when one of the three inputs is not a number. */
  function Strength(content: string, m: Meta): (r: Result<real, EncodeError>)
    ensures r.Success? <==> NumericInputs(m)
    ensures r.Success? ==> 0.0 <= r.value <= 1.0
    ensures r.Failure? <==>
      NumberOr(m, "emotion_intensity", 0.5).Failure?
      || NumberOr(m, "importance", 0.5).Failure?
      || NumberOr(m, "time_decay", 0.0).Failure?
  {
    var emotion :- NumberOr(m, "emotion_intensity", 0.5);
    var importance :- NumberOr(m, "importance", 0.5);
    var decay :- NumberOr(m, "time_decay", 0.0);
    Success(StrengthFormula(|content|, emotion, importance, decay))
  }

  /** With none of the three keys present: 0.4 below 20 characters, 0.6 above 100, 0.5 otherwise. */
  lemma StrengthDefaults(content: string, m: Meta)
    requires "emotion_intensity" !in m && "importance" !in m && "time_decay" !in m
    ensures |content| < 20 ==> Strength(content, m) == Success(0.4)
    ensures 20 <= |content| <= 100 ==> Strength(content, m) == Success(0.5)
    ensures |content| > 100 ==> Strength(content, m) == Success(0.6)
  {
  }

  /** A `time_decay` of 1 forces strength 0, whatever the other inputs. */
  lemma StrengthFullDecay(content: string, m: Meta)
    requires "time_decay" in m && AsNumber(m["time_decay"]) == Some(1.0)
    requires Strength(content, m).Success?
    ensures Strength(content, m) == Success(0.0)
  {
  }

  /** For a decay in [0,1], strength never drops as emotion intensity or importance grows. */
  lemma StrengthMonotone(n: nat, e1: real, e2: real, i1: real, i2: real, decay: real)
    requires e1 <= e2 && i1 <= i2
    requires 0.0 <= decay <= 1.0
    ensures StrengthFormula(n, e1, i1, decay) <= StrengthFormula(n, e2, i2, decay)
  {
    var b1, b2 := BaseStrength(n, e1, i1), BaseStrength(n, e2, i2);
    assert b1 <= b2;
    MulNonNeg(b2 - b1, 1.0 - decay);
    assert b1 * (1.0 - decay) <= b2 * (1.0 - decay);
    ClampMonotone(b1 * (1.0 - decay), b2 * (1.0 - decay), 0.0, 1.0);
  }

  lemma MulNonNeg(x: real, y: real)
    requires x >= 0.0 && y >= 0.0
    ensures x * y >= 0.0
  {
  }

  /** `_determine_memory_type`: the first truthy flag among is_explicit, is_procedural, is_episodic. */
  function DetermineType(m: Meta): MemoryType
  {
    if Truthy(Get(m, "is_explicit", Flag(false))) then Explicit
    else if Truthy(Get(m, "is_procedural", Flag(false))) then Procedural
    else if Truthy(Get(m, "is_episodic", Flag(false))) then Episodic
    else if Truthy(Get(m, "is_semantic", Flag(false))) then Semantic
    else Semantic
  }

  /** Priority explicit > procedural > episodic > semantic, each type reachable only through its flag. */
  lemma TypePriority(m: Meta)
    ensures DetermineType(m) == Explicit <==> Truthy(Get(m, "is_explicit", Flag(false)))
    ensures DetermineType(m) == Procedural <==>
      !Truthy(Get(m, "is_explicit", Flag(false))) && Truthy(Get(m, "is_procedural", Flag(false)))
    ensures DetermineType(m) == Episodic <==>
      !Truthy(Get(m, "is_explicit", Flag(false))) && !Truthy(Get(m, "is_procedural", Flag(false)))
      && Truthy(Get(m, "is_episodic", Flag(false)))
  {
  }

  /** The `is_semantic` flag never changes the outcome: semantic is also the default. */
  lemma SemanticFlagIrrelevant(m: Meta, v: Value)
    ensures DetermineType(m["is_semantic" := v]) == DetermineType(m)
  {
  }

  /** The markers whose presence makes a sentence a key point. */
  const KeyPointMarkers: seq<string> := ["重要", "关键", "必须", "一定"]

  predicate HasMarker(s: string)
  {
    exists k :: 0 <= k < |KeyPointMarkers| && Contains(s, KeyPointMarkers[k])
  }

  /** A segment qualifies when it is not blank and contains a marker. */
  predicate Qualifies(segment: string)
  {
    |Strip(segment)| > 0 && HasMarker(segment)
  }

  /** What one segment contributes: itself stripped when it qualifies, nothing otherwise. */
  function KeyPointOf(segment: string): seq<string>
  {
    if Qualifies(segment) then [Strip(segment)] else []
  }

  /** The stripped qualifying segments, in order. */
  function KeyPointsOf(segments: seq<string>): seq<string>
    decreases |segments|
  {
    if |segments| == 0 then [] else KeyPointOf(segments[0]) + KeyPointsOf(segments[1..])
  }

  /** `_extract_key_points`: split on the full-width stop `。`, keep stripped segments with a marker. */
  function ExtractKeyPoints(content: string): seq<string>
  {
    KeyPointsOf(SplitOn(content, '。'))
  }

  /** Key points of a concatenation are the concatenation of key points: source order is kept. */
  lemma {:induction false} KeyPointsOfAppend(a: seq<string>, b: seq<string>)
    ensures KeyPointsOf(a + b) == KeyPointsOf(a) + KeyPointsOf(b)
    decreases |a|
  {
    if |a| > 0 {
      var h, t := KeyPointOf(a[0]), KeyPointsOf(a[1..]);
      calc {
        KeyPointsOf(a + b);
        { KeyPointsOfCons(a, b); }
        h + KeyPointsOf(a[1..] + b);
        { KeyPointsOfAppend(a[1..], b); }
        h + (t + KeyPointsOf(b));
        (h + t) + KeyPointsOf(b);
      }
    } else {
      assert a + b == b;
    }
  }

  /** The first segment of a non-empty front part contributes first. */
  lemma KeyPointsOfCons(a: seq<string>, b: seq<string>)
    requires |a| > 0
    ensures KeyPointsOf(a + b) == KeyPointOf(a[0]) + KeyPointsOf(a[1..] + b)
  {
    assert (a + b)[0] == a[0] && (a + b)[1..] == a[1..] + b;
  }

  /** No key points exactly when no segment qualifies. */
  lemma {:induction false} KeyPointsEmptyIff(segments: seq<string>)
    ensures |KeyPointsOf(segments)| == 0 <==> forall k :: 0 <= k < |segments| ==> !Qualifies(segments[k])
    decreases |segments|
  {
    if |segments| > 0 {
      KeyPointsEmptyIff(segments[1..]);
      assert forall k :: 1 <= k < |segments| ==> segments[k] == segments[1..][k - 1];
    }
  }

  lemma MarkersHaveNoSpace(k: int)
    requires 0 <= k < |KeyPointMarkers|
    ensures |KeyPointMarkers[k]| > 0
    ensures forall i :: 0 <= i < |KeyPointMarkers[k]| ==> !IsSpace(KeyPointMarkers[k][i])
  {
  }

  /** A word with no whitespace at its ends that occurs in `s` still occurs in `s.strip()`. */
  lemma ContainsSurvivesStrip(s: string, w: string)
    requires |w| > 0 && !IsSpace(w[0]) && !IsSpace(w[|w| - 1])
    requires Contains(s, w)
    ensures Contains(Strip(s), w)
  {
    ContainsIffOccurs(s, w);
    var i :| OccursAt(s, w, i);
    var a, b := StripWindow(s);
    OccurrenceInsideWindow(s, w, i, a, b);
    ContainsIffOccurs(Strip(s), w);
  }

  lemma OccurrenceInsideWindow(s: string, w: string, i: int, a: nat, b: nat)
    requires |w| > 0 && !IsSpace(w[0]) && !IsSpace(w[|w| - 1])
    requires OccursAt(s, w, i)
    requires a <= b <= |s| && AllSpace(s[..a]) && AllSpace(s[b..])
    ensures OccursAt(s[a..b], w, i - a)
  {
    assert s[i] == w[0] by { assert s[i..i + |w|][0] == s[i]; }
    assert s[i + |w| - 1] == w[|w| - 1] by { assert s[i..i + |w|][|w| - 1] == s[i + |w| - 1]; }
    assert 0 <= i - a && i - a + |w| <= b - a;
    var inner := s[a..b][i - a..i - a + |w|];
    var outer := s[i..i + |w|];
    forall j | 0 <= j < |w|
      ensures inner[j] == outer[j]
    {
      assert s[a..b][i - a + j] == s[i + j];
    }
    assert inner == outer;
  }

  /** One qualifying segment yields a key point of the promised shape. */
  lemma QualifyingSegmentShape(s: string)
    requires '。' !in s
    requires Qualifies(s)
    ensures var p := Strip(s);
      |p| > 0 && '。' !in p && HasMarker(p) && !IsSpace(p[0]) && !IsSpace(p[|p| - 1])
  {
    var p := Strip(s);
    var a, b := StripWindow(s);
    assert '。' !in p by {
      forall j | 0 <= j < |p|
        ensures p[j] != '。'
      {
        assert p[j] == s[a + j];
      }
    }
    var k :| 0 <= k < |KeyPointMarkers| && Contains(s, KeyPointMarkers[k]);
    MarkersHaveNoSpace(k);
    ContainsSurvivesStrip(s, KeyPointMarkers[k]);
  }

  /** Each key point is a non-empty, stripped, stop-free segment that contains a marker. */
  lemma {:induction false} KeyPointShape(content: string)
    ensures forall k :: 0 <= k < |ExtractKeyPoints(content)| ==> KeyPointShaped(ExtractKeyPoints(content)[k])
  {
    var segments := SplitOn(content, '。');
    KeyPointShapeOf(segments);
  }

  ghost predicate KeyPointShaped(p: string)
  {
    |p| > 0 && '。' !in p && HasMarker(p) && !IsSpace(p[0]) && !IsSpace(p[|p| - 1])
  }

  lemma {:induction false} KeyPointShapeOf(segments: seq<string>)
    requires forall k :: 0 <= k < |segments| ==> '。' !in segments[k]
    ensures forall k :: 0 <= k < |KeyPointsOf(segments)| ==> KeyPointShaped(KeyPointsOf(segments)[k])
    decreases |segments|
  {
    if |segments| > 0 {
      var rest := KeyPointsOf(segments[1..]);
      KeyPointShapeOf(segments[1..]);
      var s := segments[0];
      if Qualifies(s) {
        QualifyingSegmentShape(s);
        assert KeyPointsOf(segments) == [Strip(s)] + rest;
      } else {
        assert KeyPointsOf(segments) == rest;
      }
    }
  }

  /** `encode_memory`: the embedding, strength, type and key points of `content`. */
  function Encode(env: Env, content: string, m: Meta): (r: Result<Encoding, EncodeError>)
    ensures r.Success? <==> Strength(content, m).Success?
    ensures r.Success? ==> (r.value.content == content && r.value.metadata == m
      && 0.0 <= r.value.strength <= 1.0
      && r.value.embedding == env.embed(content))
    ensures r.Success? ==> (r.value.strength == Strength(content, m).value
      && r.value.memoryType == DetermineType(m)
      && r.value.keyPoints == ExtractKeyPoints(content))
  {
    var strength :- Strength(content, m);
    Success(Encoding(content, env.embed(content), strength, DetermineType(m), ExtractKeyPoints(content), m))
  }

  /** `encode_batch`: `zip` stops at the shorter list; the first failing item aborts the batch. */
  function EncodeBatch(env: Env, contents: seq<string>, metas: seq<Meta>): (r: Result<seq<Encoding>, EncodeError>)
    ensures r.Success? ==> |r.value| == if |contents| < |metas| then |contents| else |metas|
    ensures r.Success? ==> forall k :: 0 <= k < |r.value| ==>
      r.value[k].content == contents[k] && r.value[k].metadata == metas[k]
    ensures r.Success? ==> forall k :: 0 <= k < |r.value| ==> Encode(env, contents[k], metas[k]) == Success(r.value[k])
    ensures r.Failure? <==> exists k :: 0 <= k < |contents| && k < |metas| && Strength(contents[k], metas[k]).Failure?
    decreases |contents|
  {
    if |contents| == 0 || |metas| == 0 then Success([])
    else
      var first :- Encode(env, contents[0], metas[0]);
      var rest :- EncodeBatch(env, contents[1..], metas[1..]);
      BatchCons(env, contents, metas, first, rest);
      Success([first] + rest)
  }

  /** Encoding the first item, then the rest, encodes every item at its own position. */
  lemma BatchCons(env: Env, contents: seq<string>, metas: seq<Meta>, first: Encoding, rest: seq<Encoding>)
    requires |contents| > 0 && |metas| > 0
    requires Encode(env, contents[0], metas[0]) == Success(first)
    requires |rest| <= |contents| - 1 && |rest| <= |metas| - 1
    requires forall k :: 0 <= k < |rest| ==> Encode(env, contents[1..][k], metas[1..][k]) == Success(rest[k])
    ensures forall k :: 0 <= k < |[first] + rest| ==> Encode(env, contents[k], metas[k]) == Success(([first] + rest)[k])
  {
    var r := [first] + rest;
    forall k | 0 <= k < |r|
      ensures Encode(env, contents[k], metas[k]) == Success(r[k])
    {
      if k > 0 {
        assert r[k] == rest[k - 1] && contents[k] == contents[1..][k - 1] && metas[k] == metas[1..][k - 1];
      }
    }
  }
}
