/**
  The single-collection memory manager: one `memories` collection written
  through the encoder, read through the retriever, and consolidated by
  merging neighbouring similar memories of one owner and one type, oldest
  first.
 */
module MemoryManager {
  import opened Wrappers
  import opened Metadata
  import opened Foreign
  import opened Encoder
  import opened Sorting
  import opened Text
  import opened Consolidation
  import opened Store
  import Retriever
  import MultiSource

  /** Every stored metadata map can be fed to the strength formula. */
  ghost predicate AllNumeric(c: Collection)
  {
    forall id :: id in c.records ==> NumericInputs(c.records[id].metadata)
  }

  /**
    `add_memory`: encode, then insert one document with the encoder's
    strength, type and key points, the caller's metadata verbatim, and the
    time `now`.
   */
  function AddMemory(env: Env, c: Collection, content: string, owner: string, m: Meta, now: int): (r: Result<Collection, EncodeError>)
    requires Valid(c)
    ensures r.Success? <==> NumericInputs(m)
    ensures r.Success? ==> Valid(r.value) && |r.value.records| == |c.records| + 1
    ensures r.Success? && AllNumeric(c) ==> AllNumeric(r.value)
    ensures r.Success? ==>
      exists id :: (
        && id !in c.records && id in r.value.records
        && r.value.records == c.records[id := r.value.records[id]]
        && r.value.records[id].owner == owner && r.value.records[id].timestamp == now
        && r.value.records[id].content == content && r.value.records[id].metadata == m
        && Strength(content, m) == Success(r.value.records[id].strength)
        && r.value.records[id].memoryType == DetermineType(m)
        && r.value.records[id].keyPoints == ExtractKeyPoints(content))
  {
    var (c', id) :- AddEncoded(env, c, content, owner, m, now, None);
    assert c'.records == c.records[id := c'.records[id]];
    Success(c')
  }

  /** An added memory counts towards its owner's total and nobody else's. */
  lemma AddMemoryCounts(env: Env, c: Collection, content: string, owner: string, m: Meta, now: int, who: string)
    requires Valid(c)
    requires AddMemory(env, c, content, owner, m, now).Success?
    ensures GetMemoryStats(AddMemory(env, c, content, owner, m, now).value, who).total
         == GetMemoryStats(c, who).total + (if who == owner then 1 else 0)
  {
    var e := Encode(env, content, m).value;
    FindInsert(c, NewRecord(e, owner, now, None), who);
  }

  /**
    `update_memory`: re-encode and `$set` the encoded fields, the metadata and
    `updated_at` on `id` only; an unknown id changes nothing.
   */
  function UpdateMemory(env: Env, c: Collection, id: Id, content: string, m: Meta, now: int): (r: Result<Collection, EncodeError>)
    ensures r.Success? <==> NumericInputs(m)
    ensures r.Success? ==> r.value.records.Keys == c.records.Keys && r.value.nextId == c.nextId
    ensures r.Success? && id !in c.records ==> r.value == c
    ensures r.Success? ==> forall other :: other in c.records && other != id ==> r.value.records[other] == c.records[other]
    ensures r.Success? && AllNumeric(c) ==> AllNumeric(r.value)
    ensures r.Success? && id in c.records ==>
      (&& r.value.records[id].owner == c.records[id].owner
       && r.value.records[id].timestamp == c.records[id].timestamp
       && r.value.records[id].content == content && r.value.records[id].metadata == m
       && r.value.records[id].updatedAt == Some(now)
       && Strength(content, m) == Success(r.value.records[id].strength)
       && r.value.records[id].memoryType == DetermineType(m)
       && r.value.records[id].keyPoints == ExtractKeyPoints(content))
  {
    UpdateEncoded(env, c, id, content, m, now, None)
  }

  /** `clear_memories`: `delete_many` on the owner. */
  function ClearMemories(c: Collection, owner: string): (c': Collection)
    ensures forall id :: id in c'.records <==> id in c.records && c.records[id].owner != owner
    ensures forall id :: id in c'.records ==> c'.records[id] == c.records[id]
    ensures Valid(c) ==> Valid(c')
  {
    DeleteOwner(c, owner)
  }

  /** After clearing, the owner has no memories left and the statistics are empty. */
  lemma ClearedStats(c: Collection, owner: string)
    ensures GetMemoryStats(ClearMemories(c, owner), owner) == Stats(0, map[], None)
  {
  }

  /** `get_memory_stats`. */
  function GetMemoryStats(c: Collection, owner: string): (s: Stats)
    ensures s.total == SumCounts(s.typeCounts)
    ensures s.latest.None? <==> s.total == 0
    ensures s.total == |Find(c, owner, None)|
    ensures s.typeCounts == TypeCounts(Find(c, owner, None))
    ensures s.latest == Latest(Find(c, owner, None))
    ensures forall t :: t in s.typeCounts ==> s.typeCounts[t] > 0
  {
    StatsFor(c, owner)
  }

  /** The retriever's question for `get_memory_context`: the query encoded with `{'is_query': True}`. */
  function QueryMeta(): Meta
  {
    map["is_query" := Flag(true)]
  }

  /**
    `get_memory_context`: the query's encoding never raises, and its
    embedding is what the retriever ranks by.
   */
  function GetMemoryContext(env: Env, c: Collection, query: string, owner: string, window: int, now: int): (s: string)
    requires Retriever.Scorable(c, env.embed(query), owner, None, None)
    ensures s == Retriever.Context(Retriever.RetrieveMemories(env, c, env.embed(query), owner, window, None, None, now))
  {
    var e := Encode(env, query, QueryMeta());
    assert NumericInputs(QueryMeta());
    Retriever.GetMemoryContext(env, c, e.value.embedding, owner, window, now)
  }

  /**
    The merge test of `_consolidate_memory_group`. numpy's unguarded
    `dot / (norm1 * norm2)` yields NaN on a zero vector, and `NaN > 0.8` is
    false, so a zero vector never merges.
   */
  predicate Similar(env: Env, x: Doc, y: Doc)
  {
    && NormSq(x.rec.embedding) > 0.0 && NormSq(y.rec.embedding) > 0.0
    && env.cosine(x.rec.embedding, y.rec.embedding) > 0.8
  }

  /** Both consolidations take the same merge decision on the same pair of embeddings. */
  lemma SameMergeDecision(env: Env, x: Doc, y: Doc)
    ensures Similar(env, x, y) <==> MultiSource.Similarity(env, x.rec.embedding, y.rec.embedding) > 0.8
  {
  }

  /** `memories.sort(key=timestamp)`: oldest first, as a stable descending sort on the negated time. */
  function TimeAscKey(d: Doc): real
  {
    -(d.rec.timestamp as real)
  }

  function MergedContent(left: Doc, right: Doc): string
  {
    left.rec.content + "\n" + right.rec.content
  }

  /** The left memory's metadata plus `merged_from`; the right memory's metadata is dropped. */
  function MergedMeta(left: Doc, right: Doc): Meta
  {
    left.rec.metadata["merged_from" := Ids([left.id, right.id])]
  }

  /** Setting a key other than `key` leaves the lookup of `key` as it was. */
  lemma NumberOrOtherKey(m: Meta, k: string, v: Value, key: string, default: real)
    requires k != key
    ensures NumberOr(m[k := v], key, default) == NumberOr(m, key, default)
  {
    assert (key in m[k := v]) == (key in m);
  }

  lemma MergedMetaNumeric(left: Doc, right: Doc)
    ensures NumericInputs(MergedMeta(left, right)) <==> NumericInputs(left.rec.metadata)
  {
    var v := Ids([left.id, right.id]);
    NumberOrOtherKey(left.rec.metadata, "merged_from", v, "emotion_intensity", 0.5);
    NumberOrOtherKey(left.rec.metadata, "merged_from", v, "importance", 0.5);
    NumberOrOtherKey(left.rec.metadata, "merged_from", v, "time_decay", 0.0);
  }

  /** One merge: `update_memory` on the left snapshot's id, then `delete_one` on the right's. */
  function MergePair(env: Env, c: Collection, left: Doc, right: Doc, now: int): (r: Result<Collection, EncodeError>)
    ensures r.Success? <==> NumericInputs(left.rec.metadata)
    ensures r.Success? ==> r.value.records.Keys == c.records.Keys - {right.id} && r.value.nextId == c.nextId
    ensures r.Success? ==> forall id :: id in c.records && id != left.id && id != right.id ==> r.value.records[id] == c.records[id]
    ensures r.Success? && left.id in c.records && left.id != right.id ==>
      (&& r.value.records[left.id].content == MergedContent(left, right)
       && r.value.records[left.id].metadata == MergedMeta(left, right)
       && r.value.records[left.id].owner == c.records[left.id].owner
       && r.value.records[left.id].timestamp == c.records[left.id].timestamp)
  {
    MergedMetaNumeric(left, right);
    var c1 :- UpdateMemory(env, c, left.id, MergedContent(left, right), MergedMeta(left, right), now);
    Success(Delete(c1, right.id))
  }

  /** No merge of the list has `id` on either side. */
  predicate Untouched(merges: seq<(Doc, Doc)>, id: Id)
  {
    forall k :: 0 <= k < |merges| ==> merges[k].0.id != id && merges[k].1.id != id
  }

  lemma UntouchedTail(merges: seq<(Doc, Doc)>, id: Id)
    requires |merges| > 0 && Untouched(merges, id)
    ensures merges[0].0.id != id && merges[0].1.id != id
    ensures Untouched(merges[1..], id)
  {
    assert forall k :: 0 <= k < |merges[1..]| ==> merges[1..][k] == merges[k + 1];
  }

  /** Every left side carries metadata the strength formula accepts. */
  predicate LeftsNumeric(merges: seq<(Doc, Doc)>)
  {
    forall k :: 0 <= k < |merges| ==> NumericInputs(merges[k].0.rec.metadata)
  }

  /** The ids a list of merges deletes. */
  function Deleted(merges: seq<(Doc, Doc)>): set<Id>
  {
    set k | 0 <= k < |merges| :: merges[k].1.id
  }

  lemma DeletedCons(merges: seq<(Doc, Doc)>)
    requires |merges| > 0
    ensures Deleted(merges) == {merges[0].1.id} + Deleted(merges[1..])
  {
    var rest := merges[1..];
    forall id | id in Deleted(merges)
      ensures id in {merges[0].1.id} + Deleted(rest)
    {
      var k :| 0 <= k < |merges| && merges[k].1.id == id;
      if k > 0 {
        assert rest[k - 1] == merges[k];
      }
    }
    forall id | id in Deleted(rest)
      ensures id in Deleted(merges)
    {
      var k :| 0 <= k < |rest| && rest[k].1.id == id;
      assert rest[k] == merges[k + 1];
    }
  }

  /** The planned merges one after another; the first exception stops the pass with earlier merges committed. */
  function ApplyMerges(env: Env, c: Collection, merges: seq<(Doc, Doc)>, now: int): (r: (Collection, Option<EncodeError>))
    ensures r.0.nextId == c.nextId && r.0.records.Keys <= c.records.Keys
    decreases |merges|
  {
    if |merges| == 0 then (c, None)
    else match MergePair(env, c, merges[0].0, merges[0].1, now)
      case Failure(e) => (c, Some(e))
      case Success(c') => ApplyMerges(env, c', merges[1..], now)
  }

  /** A document no merge names keeps its stored state. */
  lemma {:induction false} ApplyMergesFrame(env: Env, c: Collection, merges: seq<(Doc, Doc)>, now: int, id: Id)
    requires id in c.records && Untouched(merges, id)
    ensures id in ApplyMerges(env, c, merges, now).0.records
    ensures ApplyMerges(env, c, merges, now).0.records[id] == c.records[id]
    decreases |merges|
  {
    if |merges| > 0 {
      var r := MergePair(env, c, merges[0].0, merges[0].1, now);
      if r.Success? {
        UntouchedTail(merges, id);
        ApplyMergesFrame(env, r.value, merges[1..], now, id);
      }
    }
  }

  /** A pass whose left sides all have numeric metadata never raises. */
  lemma {:induction false} ApplyMergesSucceeds(env: Env, c: Collection, merges: seq<(Doc, Doc)>, now: int)
    requires LeftsNumeric(merges)
    ensures ApplyMerges(env, c, merges, now).1.None?
    decreases |merges|
  {
    if |merges| > 0 {
      assert NumericInputs(merges[0].0.rec.metadata);
      var c' := MergePair(env, c, merges[0].0, merges[0].1, now).value;
      assert forall k :: 0 <= k < |merges[1..]| ==> merges[1..][k] == merges[k + 1];
      ApplyMergesSucceeds(env, c', merges[1..], now);
    }
  }

  /** A pass that raises nothing removes exactly the right-hand documents. */
  lemma {:induction false} ApplyMergesKeys(env: Env, c: Collection, merges: seq<(Doc, Doc)>, now: int)
    requires ApplyMerges(env, c, merges, now).1.None?
    ensures ApplyMerges(env, c, merges, now).0.records.Keys == c.records.Keys - Deleted(merges)
    decreases |merges|
  {
    if |merges| > 0 {
      var c' := MergePair(env, c, merges[0].0, merges[0].1, now).value;
      ApplyMergesKeys(env, c', merges[1..], now);
      DeletedCons(merges);
    }
  }

  /**
    When each merge deletes a different present document, a pass that
    raises nothing removes one document per merge.
   */
  lemma {:induction false} ApplyMergesCount(env: Env, c: Collection, merges: seq<(Doc, Doc)>, now: int)
    requires forall j, k :: 0 <= j < k < |merges| ==> merges[j].1.id != merges[k].1.id
    requires forall k :: 0 <= k < |merges| ==> merges[k].1.id in c.records
    requires ApplyMerges(env, c, merges, now).1.None?
    ensures |ApplyMerges(env, c, merges, now).0.records| == |c.records| - |merges|
    decreases |merges|
  {
    if |merges| > 0 {
      var c' := MergePair(env, c, merges[0].0, merges[0].1, now).value;
      assert c'.records.Keys == c.records.Keys - {merges[0].1.id};
      assert |c'.records.Keys| == |c.records.Keys| - 1;
      var rest := merges[1..];
      forall j, k | 0 <= j < k < |rest|
        ensures rest[j].1.id != rest[k].1.id
      {
        assert rest[j] == merges[j + 1] && rest[k] == merges[k + 1];
      }
      forall k | 0 <= k < |rest|
        ensures rest[k].1.id in c'.records
      {
        assert rest[k] == merges[k + 1];
        assert merges[0].1.id != merges[k + 1].1.id;
      }
      ApplyMergesCount(env, c', rest, now);
    }
  }

  /** The planned merges of a group: oldest first, walked with the similarity test. */
  function GroupMerges(env: Env, group: seq<Doc>): seq<(Doc, Doc)>
  {
    Plan(SortDesc(group, TimeAscKey), 0, (x, y) => Similar(env, x, y)).merges
  }

  /** `_consolidate_memory_group`: fewer than two memories are left alone; otherwise oldest first, walk and merge. */
  function ConsolidateGroup(env: Env, c: Collection, group: seq<Doc>, now: int): (r: (Collection, Option<EncodeError>))
    ensures |group| < 2 ==> r == (c, None)
    ensures r.0.nextId == c.nextId && r.0.records.Keys <= c.records.Keys
  {
    if |group| < 2 then (c, None)
    else ApplyMerges(env, c, GroupMerges(env, group), now)
  }

  /** A document that is the current state of its id in `c`. */
  ghost predicate Current(c: Collection, d: Doc)
  {
    d.id in c.records && d.rec == c.records[d.id]
  }

  /** Both sides of every planned merge are members of the group. */
  lemma GroupMergesMembers(env: Env, group: seq<Doc>)
    ensures forall k :: 0 <= k < |GroupMerges(env, group)| ==>
      GroupMerges(env, group)[k].0 in group && GroupMerges(env, group)[k].1 in group
  {
    var sim := (x, y) => Similar(env, x, y);
    var L := SortDesc(group, TimeAscKey);
    var w := Plan(L, 0, sim);
    PlanPartition(L, 0, sim);
    PlanOutcome(L, 0, sim);
    var R := Rights(w.merges);
    forall k | 0 <= k < |w.merges|
      ensures w.merges[k].0 in group && w.merges[k].1 in group
    {
      assert w.merges[k].0 in multiset(w.survivors);
      assert w.merges[k].0 in multiset(L);
      assert R[k] in multiset(R);
      assert w.merges[k].1 in multiset(L);
    }
  }

  /** A document of no group member's id is left as it was by the group pass. */
  lemma GroupFrame(env: Env, c: Collection, group: seq<Doc>, now: int, id: Id)
    requires id in c.records && forall k :: 0 <= k < |group| ==> group[k].id != id
    ensures id in ConsolidateGroup(env, c, group, now).0.records
    ensures ConsolidateGroup(env, c, group, now).0.records[id] == c.records[id]
  {
    if |group| >= 2 {
      var ms := GroupMerges(env, group);
      GroupMergesMembers(env, group);
      ApplyMergesFrame(env, c, ms, now, id);
    }
  }

  /** A group whose members all have numeric metadata is consolidated without an exception. */
  lemma GroupSucceeds(env: Env, c: Collection, group: seq<Doc>, now: int)
    requires forall k :: 0 <= k < |group| ==> NumericInputs(group[k].rec.metadata)
    ensures ConsolidateGroup(env, c, group, now).1.None?
  {
    if |group| >= 2 {
      GroupMergesMembers(env, group);
      ApplyMergesSucceeds(env, c, GroupMerges(env, group), now);
    }
  }

  /** In a group of distinct current documents, the planned merges delete present documents of different ids. */
  lemma GroupRightsDistinct(env: Env, c: Collection, group: seq<Doc>)
    requires Distinct(group)
    requires forall k :: 0 <= k < |group| ==> Current(c, group[k])
    ensures var ms := GroupMerges(env, group);
      && (forall j, k :: 0 <= j < k < |ms| ==> ms[j].1.id != ms[k].1.id)
      && (forall k :: 0 <= k < |ms| ==> ms[k].1.id in c.records)
  {
    var sim := (x, y) => Similar(env, x, y);
    var L := SortDesc(group, TimeAscKey);
    var ms := GroupMerges(env, group);
    forall x
      ensures multiset(L)[x] <= 1
    {
      DistinctCount(group, x);
    }
    CountDistinct(L);
    PlanDisjoint(L, sim);
    assert ms == Plan(L, 0, sim).merges;
    GroupMergesMembers(env, group);
    forall k | 0 <= k < |ms|
      ensures Current(c, ms[k].1)
    {
      var p :| 0 <= p < |group| && group[p] == ms[k].1;
    }
    forall j, k | 0 <= j < k < |ms|
      ensures ms[j].1.id != ms[k].1.id
    {
      assert ms[j].1 != ms[k].1;
    }
  }

  /**
    A group of distinct current documents that is consolidated without an
    exception loses exactly the right-hand document of every planned merge,
    one per merge, and the merges plus the survivors account for the group.
   */
  lemma GroupOutcome(env: Env, c: Collection, group: seq<Doc>, now: int)
    requires Distinct(group)
    requires forall k :: 0 <= k < |group| ==> Current(c, group[k])
    requires |group| >= 2
    requires ConsolidateGroup(env, c, group, now).1.None?
    ensures var w := Plan(SortDesc(group, TimeAscKey), 0, (x, y) => Similar(env, x, y));
      && |w.merges| + |w.survivors| == |group|
      && ConsolidateGroup(env, c, group, now).0.records.Keys == c.records.Keys - Deleted(w.merges)
      && |ConsolidateGroup(env, c, group, now).0.records| == |c.records| - |w.merges|
  {
    var ms := GroupMerges(env, group);
    PlanCounts(SortDesc(group, TimeAscKey), 0, (x, y) => Similar(env, x, y));
    GroupRightsDistinct(env, c, group);
    ApplyMergesCount(env, c, ms, now);
    ApplyMergesKeys(env, c, ms, now);
  }

  /** The memory type a document is grouped by. */
  function TypeOf(d: Doc): MemoryType
  {
    d.rec.memoryType
  }

  /** The groups one after another; an exception ends the whole pass. */
  function ConsolidateGroups(env: Env, c: Collection, groups: seq<seq<Doc>>, now: int): (r: (Collection, Option<EncodeError>))
    ensures r.0.nextId == c.nextId && r.0.records.Keys <= c.records.Keys
    decreases |groups|
  {
    if |groups| == 0 then (c, None)
    else
      var (c', err) := ConsolidateGroup(env, c, groups[0], now);
      if err.Some? then (c', err) else ConsolidateGroups(env, c', groups[1..], now)
  }

  /** No group has a member with this id. */
  predicate OutsideGroups(groups: seq<seq<Doc>>, id: Id)
  {
    forall j, k :: 0 <= j < |groups| && 0 <= k < |groups[j]| ==> groups[j][k].id != id
  }

  lemma {:induction false} GroupsFrame(env: Env, c: Collection, groups: seq<seq<Doc>>, now: int, id: Id)
    requires id in c.records && OutsideGroups(groups, id)
    ensures id in ConsolidateGroups(env, c, groups, now).0.records
    ensures ConsolidateGroups(env, c, groups, now).0.records[id] == c.records[id]
    decreases |groups|
  {
    if |groups| > 0 {
      assert forall k :: 0 <= k < |groups[0]| ==> groups[0][k].id != id;
      GroupFrame(env, c, groups[0], now, id);
      var (c', err) := ConsolidateGroup(env, c, groups[0], now);
      if err.None? {
        assert forall j :: 0 <= j < |groups[1..]| ==> groups[1..][j] == groups[j + 1];
        GroupsFrame(env, c', groups[1..], now, id);
      }
    }
  }

  lemma {:induction false} GroupsSucceed(env: Env, c: Collection, groups: seq<seq<Doc>>, now: int)
    requires forall j, k :: 0 <= j < |groups| && 0 <= k < |groups[j]| ==> NumericInputs(groups[j][k].rec.metadata)
    ensures ConsolidateGroups(env, c, groups, now).1.None?
    decreases |groups|
  {
    if |groups| > 0 {
      GroupSucceeds(env, c, groups[0], now);
      var c' := ConsolidateGroup(env, c, groups[0], now).0;
      assert forall j :: 0 <= j < |groups[1..]| ==> groups[1..][j] == groups[j + 1];
      GroupsSucceed(env, c', groups[1..], now);
    }
  }

  /**
    `consolidate_memories`: the owner's memories in natural order, grouped by
    type in order of first appearance, each group consolidated.
   */
  function ConsolidateMemories(env: Env, c: Collection, owner: string, now: int): (r: (Collection, Option<EncodeError>))
    ensures r.0.nextId == c.nextId && r.0.records.Keys <= c.records.Keys
  {
    ConsolidateGroups(env, c, GroupBy(Find(c, owner, None), TypeOf), now)
  }

  /** Every member of every group is one of the owner's current documents. */
  lemma GroupsOfOwner(c: Collection, owner: string)
    ensures var groups := GroupBy(Find(c, owner, None), TypeOf);
      forall j, k :: 0 <= j < |groups| && 0 <= k < |groups[j]| ==>
        Current(c, groups[j][k]) && groups[j][k].rec.owner == owner
  {
    var docs := Find(c, owner, None);
    GroupsOf(c, owner, docs);
  }

  /** Grouping documents that are all current and the owner's gives groups of such documents. */
  lemma GroupsOf(c: Collection, owner: string, docs: seq<Doc>)
    requires forall k :: 0 <= k < |docs| ==> Current(c, docs[k]) && docs[k].rec.owner == owner
    ensures var groups := GroupBy(docs, TypeOf);
      forall j, k :: 0 <= j < |groups| && 0 <= k < |groups[j]| ==>
        Current(c, groups[j][k]) && groups[j][k].rec.owner == owner
  {
    var groups := GroupBy(docs, TypeOf);
    forall j, k | 0 <= j < |groups| && 0 <= k < |groups[j]|
      ensures Current(c, groups[j][k]) && groups[j][k].rec.owner == owner
    {
      assert groups[j][k] in docs;
      var p :| 0 <= p < |docs| && docs[p] == groups[j][k];
    }
  }

  /** Consolidation keeps the collection well formed and never touches another owner's memories. */
  lemma OtherOwnersUntouched(env: Env, c: Collection, owner: string, now: int)
    requires Valid(c)
    ensures Valid(ConsolidateMemories(env, c, owner, now).0)
    ensures forall id :: id in c.records && c.records[id].owner != owner ==>
      id in ConsolidateMemories(env, c, owner, now).0.records
      && ConsolidateMemories(env, c, owner, now).0.records[id] == c.records[id]
  {
    var groups := GroupBy(Find(c, owner, None), TypeOf);
    GroupsOfOwner(c, owner);
    forall id | id in c.records && c.records[id].owner != owner
      ensures id in ConsolidateMemories(env, c, owner, now).0.records
      ensures ConsolidateMemories(env, c, owner, now).0.records[id] == c.records[id]
    {
      GroupsFrame(env, c, groups, now, id);
    }
  }

  /** Consolidation never raises on a collection whose metadata this manager accepted. */
  lemma ConsolidationSucceeds(env: Env, c: Collection, owner: string, now: int)
    requires AllNumeric(c)
    ensures ConsolidateMemories(env, c, owner, now).1.None?
  {
    GroupsOfOwner(c, owner);
    GroupsSucceed(env, c, GroupBy(Find(c, owner, None), TypeOf), now);
  }

  /**
    Each type group of one owner is consolidated on its own terms: a member
    of another group is never deleted by this group's pass, because the
    groups have different types and a document has one type.
   */
  lemma GroupsDistinct(c: Collection, owner: string)
    requires Valid(c)
    ensures forall j :: 0 <= j < |GroupBy(Find(c, owner, None), TypeOf)| ==>
      Distinct(GroupBy(Find(c, owner, None), TypeOf)[j])
  {
    var scan := Scan(c);
    FilterDistinct(scan, Matching(owner, None));
  }

  /** Two merges in a row that both succeed. */
  lemma ApplyTwo(env: Env, c: Collection, m1: (Doc, Doc), m2: (Doc, Doc), now: int)
    requires NumericInputs(m1.0.rec.metadata) && NumericInputs(m2.0.rec.metadata)
    ensures MergePair(env, c, m1.0, m1.1, now).Success?
    ensures MergePair(env, MergePair(env, c, m1.0, m1.1, now).value, m2.0, m2.1, now).Success?
    ensures ApplyMerges(env, c, [m1, m2], now)
         == (MergePair(env, MergePair(env, c, m1.0, m1.1, now).value, m2.0, m2.1, now).value, None)
  {
    var c1 := MergePair(env, c, m1.0, m1.1, now).value;
    assert [m1, m2][1..] == [m2];
    ApplyFirst(env, c, [m1, m2], now);
    ApplyFirst(env, c1, [m2], now);
  }

  /** A list of merges whose first merge succeeds continues from that merge's result. */
  lemma ApplyFirst(env: Env, c: Collection, merges: seq<(Doc, Doc)>, now: int)
    requires |merges| > 0 && NumericInputs(merges[0].0.rec.metadata)
    ensures MergePair(env, c, merges[0].0, merges[0].1, now).Success?
    ensures ApplyMerges(env, c, merges, now)
         == ApplyMerges(env, MergePair(env, c, merges[0].0, merges[0].1, now).value, merges[1..], now)
  {
  }

  /** Three memories already in time order are walked in that order. */
  lemma OrderedTriple(a: Doc, b: Doc, x: Doc)
    requires a.rec.timestamp <= b.rec.timestamp <= x.rec.timestamp
    ensures SortDesc([a, b, x], TimeAscKey) == [a, b, x]
  {
    assert SortedDesc([a, b, x], TimeAscKey);
    SortSortedIsIdentity([a, b, x], TimeAscKey);
  }

  lemma StaleLeftMerges(env: Env, a: Doc, b: Doc, x: Doc)
    requires a.rec.timestamp <= b.rec.timestamp <= x.rec.timestamp
    requires Similar(env, a, b) && Similar(env, a, x)
    ensures GroupMerges(env, [a, b, x]) == [(a, b), (a, x)]
  {
    OrderedTriple(a, b, x);
    StaleLeftPlan(a, b, x, (p, q) => Similar(env, p, q));
  }

  /**
    The stale left snapshot, as written: three memories of one group, oldest
    first, where the first is similar to the second and to the third. The
    second merge reuses the first memory's ORIGINAL content, so the second
    memory's text is lost and the survivor reads "first\nthird", with
    `merged_from` naming the first and third ids.
   */
  lemma StaleLeftRecord(env: Env, c: Collection, a: Doc, b: Doc, x: Doc, now: int)
    requires Current(c, a) && Current(c, b) && Current(c, x)
    requires a.id != b.id && a.id != x.id && b.id != x.id
    requires a.rec.timestamp <= b.rec.timestamp <= x.rec.timestamp
    requires Similar(env, a, b) && Similar(env, a, x)
    requires NumericInputs(a.rec.metadata)
    ensures var r := ConsolidateGroup(env, c, [a, b, x], now);
      && r.1.None?
      && a.id in r.0.records && b.id !in r.0.records && x.id !in r.0.records
      && r.0.records[a.id].content == a.rec.content + "\n" + x.rec.content
      && r.0.records[a.id].metadata == a.rec.metadata["merged_from" := Ids([a.id, x.id])]
  {
    StaleLeftMerges(env, a, b, x);
    ApplyTwo(env, c, (a, b), (a, x), now);
    var c1 := MergePair(env, c, a, b, now).value;
    var c2 := MergePair(env, c1, a, x, now).value;
    assert ConsolidateGroup(env, c, [a, b, x], now) == (c2, None);
    assert a.id in c1.records && b.id !in c1.records;
    assert c2.records[a.id].content == MergedContent(a, x);
    assert c2.records[a.id].metadata == MergedMeta(a, x);
  }

  /**
    The corrected in-memory left record: after a merge it holds the merged
    content and metadata and the embedding of the merged content, as the
    stored document does.
   */
  function Refresh(env: Env): (merge: (Doc, Doc) -> Doc)
    ensures forall l, r :: merge(l, r).id == l.id && merge(l, r).rec.content == MergedContent(l, r)
    ensures forall l, r :: merge(l, r).rec.metadata == MergedMeta(l, r)
  {
    (l: Doc, r: Doc) => Doc(l.id, l.rec.(content := MergedContent(l, r), metadata := MergedMeta(l, r),
      embedding := env.embed(MergedContent(l, r))))
  }

  /** The corrected planned merges: the walk compares against, and merges into, the refreshed left record. */
  function GroupMergesRefreshed(env: Env, group: seq<Doc>): seq<(Doc, Doc)>
  {
    PlanRefreshed(SortDesc(group, TimeAscKey), 0, (x, y) => Similar(env, x, y), Refresh(env)).merges
  }

  /** The corrected group pass. */
  function ConsolidateGroupRefreshed(env: Env, c: Collection, group: seq<Doc>, now: int): (r: (Collection, Option<EncodeError>))
    ensures |group| < 2 ==> r == (c, None)
    ensures r.0.nextId == c.nextId && r.0.records.Keys <= c.records.Keys
  {
    if |group| < 2 then (c, None)
    else ApplyMerges(env, c, GroupMergesRefreshed(env, group), now)
  }

  function ContentOf(d: Doc): string
  {
    d.rec.content
  }

  /** With refreshing, the group's text survives whole: the survivors' contents joined by newlines are all the contents. */
  lemma RefreshedKeepsAllText(env: Env, group: seq<Doc>)
    ensures var L := SortDesc(group, TimeAscKey);
      Join(Consolidation.Texts(PlanRefreshed(L, 0, (x, y) => Similar(env, x, y), Refresh(env)).survivors, ContentOf), "\n")
        == Join(Consolidation.Texts(L, ContentOf), "\n")
  {
    RefreshedPlanKeepsText(SortDesc(group, TimeAscKey), 0, (x, y) => Similar(env, x, y), Refresh(env), ContentOf);
  }

  /**
    The three memories of `StaleLeftRecord` under the corrected pass, when
    the merged first-and-second memory is similar to the third: one memory
    holding all three texts is left.
   */
  lemma RefreshedThreeRecords(env: Env, c: Collection, a: Doc, b: Doc, x: Doc, now: int)
    requires Current(c, a) && Current(c, b) && Current(c, x)
    requires a.id != b.id && a.id != x.id && b.id != x.id
    requires a.rec.timestamp <= b.rec.timestamp <= x.rec.timestamp
    requires Similar(env, a, b) && Similar(env, Refresh(env)(a, b), x)
    requires NumericInputs(a.rec.metadata)
    ensures var r := ConsolidateGroupRefreshed(env, c, [a, b, x], now);
      && r.1.None?
      && a.id in r.0.records && b.id !in r.0.records && x.id !in r.0.records
      && r.0.records[a.id].content == a.rec.content + "\n" + b.rec.content + "\n" + x.rec.content
  {
    var ab := Refresh(env)(a, b);
    RefreshedMerges(env, a, b, x);
    MergedMetaNumeric(a, b);
    ApplyTwo(env, c, (a, b), (ab, x), now);
    var c1 := MergePair(env, c, a, b, now).value;
    var c2 := MergePair(env, c1, ab, x, now).value;
    assert ConsolidateGroupRefreshed(env, c, [a, b, x], now) == (c2, None);
    assert a.id in c1.records && b.id !in c1.records;
    assert c2.records[a.id].content == MergedContent(ab, x);
  }

  /** The corrected walk merges the second memory into the first, then the third into the refreshed first. */
  lemma RefreshedMerges(env: Env, a: Doc, b: Doc, x: Doc)
    requires a.rec.timestamp <= b.rec.timestamp <= x.rec.timestamp
    requires Similar(env, a, b) && Similar(env, Refresh(env)(a, b), x)
    ensures GroupMergesRefreshed(env, [a, b, x]) == [(a, b), (Refresh(env)(a, b), x)]
  {
    OrderedTriple(a, b, x);
    RefreshedPlan(a, b, x, (p, q) => Similar(env, p, q), Refresh(env));
  }
}
