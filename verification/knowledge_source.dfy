/**
  The knowledge memory source: a collection of knowledge snippets, each stored
  with a clamped relevance score that orders what `get_memories` returns.
 */
module KnowledgeSource {
  import opened Wrappers
  import opened Numbers
  import opened Metadata
  import opened Foreign
  import opened Encoder
  import opened Sorting
  import opened Store

  /** `get_source_name`. */
  const SourceName: string := "knowledge"

  /** +0.1 above 200 characters, -0.1 below 50. */
  function LengthAdjustment(n: nat): real
  {
    if n > 200 then 0.1 else if n < 50 then -0.1 else 0.0
  }

  /** +0.2 for `knowledge_type == 'domain'`, +0.1 for `'fact'`, nothing for any other value. */
  function KindAdjustment(kind: Value): real
  {
    if kind == Text("domain") then 0.2 else if kind == Text("fact") then 0.1 else 0.0
  }

  /** The relevance formula once the confidence has been read as a number. */
  function RelevanceFormula(n: nat, kind: Value, confidence: real): (s: real)
    ensures 0.0 <= s <= 1.0
  {
    Clamp(0.5 + LengthAdjustment(n) + KindAdjustment(kind) + (confidence - 0.5) * 0.2, 0.0, 1.0)
  }

  /**
    `_calculate_relevance_score`: defaults `'general'` and 0.5; a confidence
    Python cannot subtract from raises `TypeError`.
   */
  function Relevance(content: string, m: Meta): (r: Result<real, EncodeError>)
    ensures r.Success? ==> 0.0 <= r.value <= 1.0
    ensures r.Failure? <==> "confidence" in m && AsNumber(m["confidence"]).None?
    ensures r.Success? ==> r.value == RelevanceFormula(|content|, Get(m, "knowledge_type", Text("general")),
      if "confidence" in m then AsNumber(m["confidence"]).value else 0.5)
  {
    var confidence :- NumberOr(m, "confidence", 0.5);
    Success(RelevanceFormula(|content|, Get(m, "knowledge_type", Text("general")), confidence))
  }

  /** With a confidence in [0,1] the clamp never binds: the score is the plain sum, in [0.3, 0.9]. */
  lemma RelevanceUnclamped(n: nat, kind: Value, confidence: real)
    requires 0.0 <= confidence <= 1.0
    ensures RelevanceFormula(n, kind, confidence)
         == 0.5 + LengthAdjustment(n) + KindAdjustment(kind) + (confidence - 0.5) * 0.2
    ensures 0.3 <= RelevanceFormula(n, kind, confidence) <= 0.9
  {
  }

  /** With neither key present: 0.4 below 50 characters, 0.6 above 200, 0.5 otherwise. */
  lemma RelevanceDefaults(content: string, m: Meta)
    requires "knowledge_type" !in m && "confidence" !in m
    ensures |content| < 50 ==> Relevance(content, m) == Success(0.4)
    ensures 50 <= |content| <= 200 ==> Relevance(content, m) == Success(0.5)
    ensures |content| > 200 ==> Relevance(content, m) == Success(0.6)
  {
  }

  /** A higher confidence never lowers the score. */
  lemma RelevanceMonotone(n: nat, kind: Value, c1: real, c2: real)
    requires c1 <= c2
    ensures RelevanceFormula(n, kind, c1) <= RelevanceFormula(n, kind, c2)
  {
  }

  /** The sort key of `relevance_score`; a document without the field sorts after every score. */
  function RelevanceKey(d: Doc): real
  {
    d.rec.relevance.GetOr(-1.0)
  }

  /**
    `get_memories`: the owner's documents inside the inclusive time window, in
    non-increasing relevance (ties in insertion order), cut to a MongoDB `limit`.
   */
  function GetMemories(c: Collection, query: string, owner: string, limit: int,
                       range: Option<(int, int)>): (docs: seq<Doc>)
    ensures forall k :: 0 <= k < |docs| ==>
      (Matches(docs[k], owner, range) && docs[k].id in c.records && docs[k].rec == c.records[docs[k].id])
    ensures forall j, k :: 0 <= j < k < |docs| ==> RelevanceKey(docs[j]) >= RelevanceKey(docs[k])
    ensures KeepsBest(docs, Find(c, owner, range), RelevanceKey)
    ensures var n := |Find(c, owner, range)|;
      |docs| == if limit == 0 || n < Abs(limit) then n else Abs(limit)
  {
    FindSorted(c, owner, range, RelevanceKey, limit)
  }

  /** Every document this source writes carries a score in [0,1]. */
  ghost predicate Scored(c: Collection)
  {
    forall id :: id in c.records ==> c.records[id].relevance.Some? && 0.0 <= c.records[id].relevance.value <= 1.0
  }

  /**
    `add_memory`: encode, score, then insert one document holding the encoding,
    the caller's metadata verbatim and the score. Either step can raise first.
   */
  function AddMemory(env: Env, c: Collection, content: string, owner: string, m: Meta, now: int): (r: Result<Collection, EncodeError>)
    requires Valid(c)
    ensures r.Success? <==> Strength(content, m).Success? && Relevance(content, m).Success?
    ensures r.Success? ==> Valid(r.value) && |r.value.records| == |c.records| + 1
    ensures r.Success? && Scored(c) ==> Scored(r.value)
    ensures r.Success? ==>
      exists id :: (
        && id !in c.records && id in r.value.records
        && r.value.records == c.records[id := r.value.records[id]]
        && r.value.records[id].content == content && r.value.records[id].metadata == m
        && r.value.records[id].owner == owner && r.value.records[id].timestamp == now
        && r.value.records[id].relevance == Some(Relevance(content, m).value))
  {
    var e :- Encode(env, content, m);
    var score :- Relevance(content, m);
    var (c', id) := InsertOne(c, NewRecord(e, owner, now, Some(score)));
    Success(c')
  }

  /** `update_memory`: re-encodes and re-scores `id` only; an absent id changes nothing. */
  function UpdateMemory(env: Env, c: Collection, id: Id, content: string, m: Meta, now: int): (r: Result<Collection, EncodeError>)
    ensures r.Success? <==> Strength(content, m).Success? && Relevance(content, m).Success?
    ensures r.Success? && id !in c.records ==> r.value == c
    ensures r.Success? ==> r.value.records.Keys == c.records.Keys
    ensures r.Success? && Scored(c) ==> Scored(r.value)
    ensures r.Success? ==> forall other :: other in c.records && other != id ==> r.value.records[other] == c.records[other]
    ensures r.Success? && id in c.records ==>
      (r.value.records[id].content == content && r.value.records[id].metadata == m
      && r.value.records[id].owner == c.records[id].owner
      && r.value.records[id].timestamp == c.records[id].timestamp
      && r.value.records[id].updatedAt == Some(now)
      && r.value.records[id].relevance == Some(Relevance(content, m).value))
  {
    var e :- Encode(env, content, m);
    var score :- Relevance(content, m);
    Success(SetEncoded(c, id, e, now, Some(score)))
  }

  /** `delete_memory`. */
  function DeleteMemory(c: Collection, id: Id): (c': Collection)
    ensures c'.records == c.records - {id}
    ensures Delete(c', id) == c'
  {
    Delete(c, id)
  }

  /** `get_memory_stats`. */
  function GetMemoryStats(c: Collection, owner: string): (s: Stats)
    ensures s.total == SumCounts(s.typeCounts)
    ensures s.total == |Find(c, owner, None)|
    ensures s.typeCounts == TypeCounts(Find(c, owner, None))
    ensures s.latest == Latest(Find(c, owner, None))
    ensures s.latest.None? <==> s.total == 0
  {
    StatsFor(c, owner)
  }
}
