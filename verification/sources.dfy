/**
  The memory-source interface: every source has a name, answers
  `get_memories`, accepts `add_memory` / `update_memory` / `delete_memory`,
  and reports statistics. The two implementations of the core are the only
  ones, so the interface is a closed datatype whose functions dispatch on the
  variant.
 */
module Sources {
  import opened Wrappers
  import opened Metadata
  import opened Foreign
  import opened Encoder
  import Sorting
  import Store
  import ConversationSource
  import KnowledgeSource

  datatype Source =
    | ConversationStore(c: Store.Collection)
    | KnowledgeStore(c: Store.Collection)

  ghost predicate Valid(s: Source)
  {
    Store.Valid(s.c)
  }

  /** `get_source_name`. */
  function Name(s: Source): (n: string)
    ensures n == "conversation" <==> s.ConversationStore?
    ensures n == "knowledge" <==> s.KnowledgeStore?
  {
    match s
    case ConversationStore(_) => ConversationSource.SourceName
    case KnowledgeStore(_) => KnowledgeSource.SourceName
  }

  /** The field a source ranks its answers by: the timestamp for conversations, the relevance for knowledge. */
  function OrderKey(s: Source): Store.Doc -> real
  {
    match s
    case ConversationStore(_) => Store.TimestampKey
    case KnowledgeStore(_) => KnowledgeSource.RelevanceKey
  }

  /**
    `get_memories`: the owner's documents inside the window, best first by the
    source's own order, and the best `|limit|` of them unless the limit is 0.
   */
  function GetMemories(s: Source, query: string, owner: string, limit: int, range: Option<(int, int)>): (docs: seq<Store.Doc>)
    ensures forall k :: 0 <= k < |docs| ==>
      (Store.Matches(docs[k], owner, range) && docs[k].id in s.c.records && docs[k].rec == s.c.records[docs[k].id])
    ensures Sorting.SortedDesc(docs, OrderKey(s))
    ensures Sorting.KeepsBest(docs, Store.Find(s.c, owner, range), OrderKey(s))
    ensures var n := |Store.Find(s.c, owner, range)|;
      |docs| == if limit == 0 || n < Sorting.Abs(limit) then n else Sorting.Abs(limit)
  {
    match s
    case ConversationStore(c) => ConversationSource.GetMemories(c, query, owner, limit, range)
    case KnowledgeStore(c) => KnowledgeSource.GetMemories(c, query, owner, limit, range)
  }

  /** `add_memory`; the source keeps its kind (and so its name). */
  function AddMemory(env: Env, s: Source, content: string, owner: string, m: Meta, now: int): (r: Result<Source, EncodeError>)
    requires Valid(s)
    ensures r.Failure? ==> Strength(content, m).Failure? || (s.KnowledgeStore? && KnowledgeSource.Relevance(content, m).Failure?)
    ensures Strength(content, m).Failure? ==> r.Failure?
    ensures r.Success? ==> Valid(r.value) && Name(r.value) == Name(s)
    ensures r.Success? ==> |r.value.c.records| == |s.c.records| + 1
  {
    match s
    case ConversationStore(c) =>
      var c' :- ConversationSource.AddMemory(env, c, content, owner, m, now);
      Success(ConversationStore(c'))
    case KnowledgeStore(c) =>
      var c' :- KnowledgeSource.AddMemory(env, c, content, owner, m, now);
      Success(KnowledgeStore(c'))
  }

  /** `update_memory`; an absent id leaves the documents as they are. */
  function UpdateMemory(env: Env, s: Source, id: Id, content: string, m: Meta, now: int): (r: Result<Source, EncodeError>)
    ensures Strength(content, m).Failure? ==> r.Failure?
    ensures r.Success? ==> Name(r.value) == Name(s) && r.value.c.records.Keys == s.c.records.Keys
    ensures r.Success? && id !in s.c.records ==> r.value == s
    ensures r.Success? && id in s.c.records ==> r.value.c.records[id].content == content && r.value.c.records[id].metadata == m
    ensures r.Success? ==> forall other :: other in s.c.records && other != id ==> r.value.c.records[other] == s.c.records[other]
    ensures Valid(s) && r.Success? ==> Valid(r.value)
  {
    match s
    case ConversationStore(c) =>
      var c' :- ConversationSource.UpdateMemory(env, c, id, content, m, now);
      Success(ConversationStore(c'))
    case KnowledgeStore(c) =>
      var c' :- KnowledgeSource.UpdateMemory(env, c, id, content, m, now);
      Success(KnowledgeStore(c'))
  }

  /** `delete_memory`. */
  function DeleteMemory(s: Source, id: Id): (r: Source)
    ensures Name(r) == Name(s) && r.c.records == s.c.records - {id}
    ensures Valid(s) ==> Valid(r)
  {
    match s
    case ConversationStore(c) => ConversationStore(ConversationSource.DeleteMemory(c, id))
    case KnowledgeStore(c) => KnowledgeStore(KnowledgeSource.DeleteMemory(c, id))
  }

  /** `get_memory_stats`. */
  function GetMemoryStats(s: Source, owner: string): (st: Store.Stats)
    ensures st.total == Store.SumCounts(st.typeCounts)
    ensures st.total == |Store.Find(s.c, owner, None)|
    ensures st.typeCounts == Store.TypeCounts(Store.Find(s.c, owner, None))
    ensures st.latest == Store.Latest(Store.Find(s.c, owner, None))
    ensures st.latest.None? <==> st.total == 0
  {
    match s
    case ConversationStore(c) => ConversationSource.GetMemoryStats(c, owner)
    case KnowledgeStore(c) => KnowledgeSource.GetMemoryStats(c, owner)
  }
}
