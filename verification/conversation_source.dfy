/**
  The conversation memory source: a collection of dialogue memories that is
  read back newest first and never ranked by the query text.
 */
module ConversationSource {
  import opened Wrappers
  import opened Metadata
  import opened Foreign
  import opened Encoder
  import opened Sorting
  import opened Store

  /** `get_source_name`. */
  const SourceName: string := "conversation"

  /**
    `get_memories`: the owner's documents inside the inclusive time window,
    newest first (ties in insertion order), cut to a MongoDB `limit`.
   */
  function GetMemories(c: Collection, query: string, owner: string, limit: int,
                       range: Option<(int, int)>): (docs: seq<Doc>)
    ensures forall k :: 0 <= k < |docs| ==>
      (Matches(docs[k], owner, range) && docs[k].id in c.records && docs[k].rec == c.records[docs[k].id])
    ensures SortedDesc(docs, TimestampKey)
    ensures KeepsBest(docs, Find(c, owner, range), TimestampKey)
    ensures var n := |Find(c, owner, range)|;
      |docs| == if limit == 0 || n < Abs(limit) then n else Abs(limit)
  {
    FindSorted(c, owner, range, TimestampKey, limit)
  }

  /** `get_memories` returns the newest documents first. */
  lemma NewestFirst(c: Collection, query: string, owner: string, limit: int, range: Option<(int, int)>)
    ensures var docs := GetMemories(c, query, owner, limit, range);
      forall j, k :: 0 <= j < k < |docs| ==> docs[j].rec.timestamp >= docs[k].rec.timestamp
  {
    var docs := GetMemories(c, query, owner, limit, range);
    assert forall j, k :: 0 <= j < k < |docs| ==> TimestampKey(docs[j]) >= TimestampKey(docs[k]);
  }

  /** With no limit, every matching document is returned. */
  lemma GetMemoriesComplete(c: Collection, query: string, owner: string, range: Option<(int, int)>, id: Id)
    requires Valid(c)
    requires id in c.records && Matches(Doc(id, c.records[id]), owner, range)
    ensures Doc(id, c.records[id]) in GetMemories(c, query, owner, 0, range)
  {
    assert Doc(id, c.records[id]) in Find(c, owner, range);
  }

  /** The query text plays no part in what is returned. */
  lemma QueryIgnored(c: Collection, q1: string, q2: string, owner: string, limit: int, range: Option<(int, int)>)
    ensures GetMemories(c, q1, owner, limit, range) == GetMemories(c, q2, owner, limit, range)
  {
  }

  /** `add_memory`: one new document holding the encoder's output and the caller's metadata, stamped `now`. */
  function AddMemory(env: Env, c: Collection, content: string, owner: string, m: Meta, now: int): (r: Result<Collection, EncodeError>)
    requires Valid(c)
    ensures r.Success? <==> Strength(content, m).Success?
    ensures r.Success? ==> Valid(r.value) && |r.value.records| == |c.records| + 1
    ensures r.Success? ==>
      exists id :: (
        && id !in c.records && id in r.value.records
        && r.value.records == c.records[id := r.value.records[id]]
        && r.value.records[id].content == content && r.value.records[id].metadata == m
        && r.value.records[id].owner == owner && r.value.records[id].timestamp == now
        && r.value.records[id].relevance.None?)
  {
    var (c', id) :- AddEncoded(env, c, content, owner, m, now, None);
    assert c'.records == c.records[id := c'.records[id]];
    Success(c')
  }

  /** `update_memory`: rewrites the encoded fields of `id` only; an absent id changes nothing. */
  function UpdateMemory(env: Env, c: Collection, id: Id, content: string, m: Meta, now: int): (r: Result<Collection, EncodeError>)
    ensures r.Success? <==> Strength(content, m).Success?
    ensures r.Success? && id !in c.records ==> r.value == c
    ensures r.Success? ==> r.value.records.Keys == c.records.Keys
    ensures r.Success? ==> forall other :: other in c.records && other != id ==> r.value.records[other] == c.records[other]
    ensures r.Success? && id in c.records ==>
      (r.value.records[id].content == content && r.value.records[id].metadata == m
      && r.value.records[id].owner == c.records[id].owner
      && r.value.records[id].timestamp == c.records[id].timestamp
      && r.value.records[id].updatedAt == Some(now))
  {
    UpdateEncoded(env, c, id, content, m, now, None)
  }

  /** `delete_memory`. */
  function DeleteMemory(c: Collection, id: Id): (c': Collection)
    ensures c'.records == c.records - {id}
    ensures Delete(c', id) == c'
  {
    Delete(c, id)
  }

  /** `get_memory_stats`. */
  function GetMemoryStats(c: Collection, owner: string): (s: Stats)
    ensures s.total == SumCounts(s.typeCounts)
    ensures s.total == |Find(c, owner, None)|
    ensures s.typeCounts == TypeCounts(Find(c, owner, None))
    ensures s.latest == Latest(Find(c, owner, None))
    ensures s.latest.None? <==> s.total == 0
  {
    StatsFor(c, owner)
  }
}
