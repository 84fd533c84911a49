/**
  A MongoDB collection of memory documents, reduced to what the core uses:
  a map from `_id` to document, insertion in natural order (ascending id),
  `find` with an owner / inclusive time-window filter, `update_one` with
  `$set` on one `_id` (a no-op when the id is absent), `delete_one`,
  `delete_many` by owner, and the `count_documents` / `distinct` /
  newest-first `find_one` statistics every store reports.
 */
module Store {
  import opened Wrappers
  import opened Metadata
  import opened Foreign
  import opened Encoder
  import opened Sorting

  /** One stored memory document (`_id` is the key it is stored under). */
  datatype Record = Record(
    owner: string,
    content: string,
    embedding: Embedding,
    strength: real,
    memoryType: MemoryType,
    keyPoints: seq<string>,
    metadata: Meta,
    timestamp: int,
    updatedAt: Option<int>,
    relevance: Option<real>)

  /** A document as a query returns it: its `_id` together with its fields. */
  datatype Doc = Doc(id: Id, rec: Record)

  /** The documents by `_id`; `nextId` is the id the next insertion receives. */
  datatype Collection = Collection(records: map<Id, Record>, nextId: Id)

  /** Every stored id was handed out before `nextId`. */
  ghost predicate Valid(c: Collection)
  {
    forall id :: id in c.records ==> id < c.nextId
  }

  function EmptyCollection(): (c: Collection)
    ensures Valid(c) && |c.records| == 0
  {
    Collection(map[], 0)
  }

  /** The stored ids below `n`, ascending. */
  function IdsBelow(records: map<Id, Record>, n: nat): (ids: seq<Id>)
    ensures forall k :: 0 <= k < |ids| ==> ids[k] in records && ids[k] < n
    ensures forall id :: id in records && id < n ==> id in ids
    ensures forall j, k :: 0 <= j < k < |ids| ==> ids[j] < ids[k]
    decreases n
  {
    if n == 0 then []
    else IdsBelow(records, n - 1) + (if n - 1 in records then [n - 1] else [])
  }

  /** An unfiltered `find()`: every document, in natural (insertion) order. */
  function Scan(c: Collection): (docs: seq<Doc>)
    ensures forall k :: 0 <= k < |docs| ==> docs[k].id in c.records && docs[k].rec == c.records[docs[k].id]
    ensures Valid(c) ==> forall id :: id in c.records ==> Doc(id, c.records[id]) in docs
    ensures forall j, k :: 0 <= j < k < |docs| ==> docs[j].id < docs[k].id
  {
    var ids := IdsBelow(c.records, c.nextId);
    var docs := DocsAt(c.records, ids);
    assert forall id :: id in c.records && id < c.nextId ==> Doc(id, c.records[id]) in docs by {
      forall id | id in c.records && id < c.nextId
        ensures Doc(id, c.records[id]) in docs
      {
        var k :| 0 <= k < |ids| && ids[k] == id;
        assert docs[k] == Doc(id, c.records[id]);
      }
    }
    docs
  }

  /** The documents stored under `ids`, in that order. */
  function DocsAt(records: map<Id, Record>, ids: seq<Id>): (docs: seq<Doc>)
    requires forall k :: 0 <= k < |ids| ==> ids[k] in records
    ensures |docs| == |ids|
    ensures forall k :: 0 <= k < |ids| ==> docs[k] == Doc(ids[k], records[ids[k]])
  {
    seq(|ids|, k requires 0 <= k < |ids| => Doc(ids[k], records[ids[k]]))
  }

  /** Looking up one more id, in a map that agrees on the old ones, appends its document. */
  lemma DocsAtAppend(r1: map<Id, Record>, r2: map<Id, Record>, ids: seq<Id>, id: Id)
    requires forall k :: 0 <= k < |ids| ==> ids[k] in r1 && ids[k] in r2 && r2[ids[k]] == r1[ids[k]]
    requires id in r2
    ensures DocsAt(r2, ids + [id]) == DocsAt(r1, ids) + [Doc(id, r2[id])]
  {
    var a, b := DocsAt(r2, ids + [id]), DocsAt(r1, ids) + [Doc(id, r2[id])];
    forall k | 0 <= k < |a|
      ensures a[k] == b[k]
    {
      if k < |ids| {
        assert (ids + [id])[k] == ids[k];
      }
    }
  }

  /** The `{'user_id': owner, 'timestamp': {'$gte': start, '$lte': end}}` filter; no range means no time condition. */
  predicate Matches(d: Doc, owner: string, range: Option<(int, int)>)
  {
    d.rec.owner == owner && (range.None? || range.value.0 <= d.rec.timestamp <= range.value.1)
  }

  /** `find(filter)` before any sort: the matching documents in natural order. */
  function Find(c: Collection, owner: string, range: Option<(int, int)>): (docs: seq<Doc>)
    ensures forall k :: 0 <= k < |docs| ==>
      (Matches(docs[k], owner, range) && docs[k].id in c.records && docs[k].rec == c.records[docs[k].id])
    ensures Valid(c) ==>
      (forall id :: id in c.records && Matches(Doc(id, c.records[id]), owner, range) ==> Doc(id, c.records[id]) in docs)
    ensures forall j, k :: 0 <= j < k < |docs| ==> docs[j].id < docs[k].id
  {
    FilterAscending(Scan(c), Matching(owner, range), DocId);
    Filter(Scan(c), Matching(owner, range))
  }

  /** A document's id, as a value that lemmas about orders can take. */
  function DocId(d: Doc): int
  {
    d.id
  }

  /** The filter `Find` applies, as one value so that lemmas can name it. */
  function Matching(owner: string, range: Option<(int, int)>): Doc -> bool
  {
    d => Matches(d, owner, range)
  }

  /** The ids below `n` depend only on which ids below `n` are stored. */
  lemma {:induction false} IdsBelowAgree(r1: map<Id, Record>, r2: map<Id, Record>, n: nat)
    requires forall id :: id < n ==> (id in r1 <==> id in r2)
    ensures IdsBelow(r1, n) == IdsBelow(r2, n)
    decreases n
  {
    if n > 0 {
      IdsBelowAgree(r1, r2, n - 1);
    }
  }

  /** An insertion appends the new document to the natural order. */
  lemma ScanInsert(c: Collection, r: Record)
    requires Valid(c)
    ensures Scan(InsertOne(c, r).0) == Scan(c) + [Doc(c.nextId, r)]
  {
    var c' := InsertOne(c, r).0;
    IdsBelowAgree(c'.records, c.records, c.nextId);
    var ids := IdsBelow(c.records, c.nextId);
    assert IdsBelow(c'.records, c'.nextId) == ids + [c.nextId];
    DocsAtAppend(c.records, c'.records, ids, c.nextId);
  }

  /** An insertion adds one document to its owner's `find` and none to anyone else's. */
  lemma FindInsert(c: Collection, r: Record, owner: string)
    requires Valid(c)
    ensures |Find(InsertOne(c, r).0, owner, None)| == |Find(c, owner, None)| + (if r.owner == owner then 1 else 0)
  {
    ScanInsert(c, r);
    FilterAppend(Scan(c), [Doc(c.nextId, r)], Matching(owner, None));
  }

  /**
    `find(filter, sort=[(field, -1)], limit=limit)`: the matching documents in
    non-increasing `key` order, ties in natural order, cut to a MongoDB limit.
   */
  function FindSorted(c: Collection, owner: string, range: Option<(int, int)>, key: Doc -> real, limit: int): (docs: seq<Doc>)
    ensures forall k :: 0 <= k < |docs| ==>
      (Matches(docs[k], owner, range) && docs[k].id in c.records && docs[k].rec == c.records[docs[k].id])
    ensures SortedDesc(docs, key)
    ensures KeepsBest(docs, Find(c, owner, range), key)
    ensures var n := |Find(c, owner, range)|;
      |docs| == if limit == 0 || n < Abs(limit) then n else Abs(limit)
    ensures limit == 0 ==> forall d :: d in Find(c, owner, range) ==> d in docs
  {
    var found := Find(c, owner, range);
    var r := TopLimit(found, key, limit);
    KeptFromFound(c, owner, range, found, r);
    r
  }

  /** Documents drawn from a find's result are current matching documents, and a full permutation of it misses none. */
  lemma KeptFromFound(c: Collection, owner: string, range: Option<(int, int)>, found: seq<Doc>, r: seq<Doc>)
    requires forall k :: 0 <= k < |found| ==>
      (Matches(found[k], owner, range) && found[k].id in c.records && found[k].rec == c.records[found[k].id])
    requires forall i :: 0 <= i < |r| ==> r[i] in found
    ensures forall k :: 0 <= k < |r| ==>
      (Matches(r[k], owner, range) && r[k].id in c.records && r[k].rec == c.records[r[k].id])
    ensures multiset(r) == multiset(found) ==> forall d :: d in found ==> d in r
  {
    forall k | 0 <= k < |r|
      ensures Matches(r[k], owner, range) && r[k].id in c.records && r[k].rec == c.records[r[k].id]
    {
      var j :| 0 <= j < |found| && found[j] == r[k];
    }
    if multiset(r) == multiset(found) {
      forall d | d in found
        ensures d in r
      {
        assert d in multiset(found);
      }
    }
  }

  /** `insert_one`: the document receives a fresh `_id`. */
  function InsertOne(c: Collection, r: Record): (res: (Collection, Id))
    requires Valid(c)
    ensures Valid(res.0)
    ensures res.1 !in c.records && res.0.records == c.records[res.1 := r]
    ensures |res.0.records| == |c.records| + 1
  {
    (Collection(c.records[c.nextId := r], c.nextId + 1), c.nextId)
  }

  /** A new document for `owner` built from an encoding, stamped `now`. */
  function NewRecord(e: Encoding, owner: string, now: int, relevance: Option<real>): Record
  {
    Record(owner, e.content, e.embedding, e.strength, e.memoryType, e.keyPoints, e.metadata, now, None, relevance)
  }

  /** `update_one({'_id': id}, {'$set': ...})` with the fields an encoding rewrites; owner and creation time stay. */
  function SetEncoded(c: Collection, id: Id, e: Encoding, now: int, relevance: Option<real>): (c': Collection)
    ensures c'.nextId == c.nextId && c'.records.Keys == c.records.Keys
    ensures id !in c.records ==> c' == c
    ensures id in c.records ==> c'.records[id] == c.records[id].(
      content := e.content, embedding := e.embedding, strength := e.strength,
      memoryType := e.memoryType, keyPoints := e.keyPoints, metadata := e.metadata,
      updatedAt := Some(now),
      relevance := if relevance.Some? then relevance else c.records[id].relevance)
    ensures forall other :: other in c.records && other != id ==> c'.records[other] == c.records[other]
  {
    if id !in c.records then c
    else
      var old_ := c.records[id];
      var r := old_.(content := e.content, embedding := e.embedding, strength := e.strength,
        memoryType := e.memoryType, keyPoints := e.keyPoints, metadata := e.metadata,
        updatedAt := Some(now), relevance := if relevance.Some? then relevance else old_.relevance);
      Collection(c.records[id := r], c.nextId)
  }

  /** `delete_one({'_id': id})`: absent ids are ignored. */
  function Delete(c: Collection, id: Id): (c': Collection)
    ensures c'.records == c.records - {id} && c'.nextId == c.nextId
    ensures id in c.records ==> |c'.records| == |c.records| - 1
    ensures id !in c.records ==> c' == c
  {
    Collection(c.records - {id}, c.nextId)
  }

  /**
    The shared body of every store's `add_memory`: encode, then insert a
    document holding the encoding, the caller's metadata verbatim, the owner
    and the time `now`. An encoding failure raises before anything is written.
   */
  function AddEncoded(env: Env, c: Collection, content: string, owner: string, m: Meta, now: int,
                      relevance: Option<real>): (r: Result<(Collection, Id), EncodeError>)
    requires Valid(c)
    ensures r.Success? <==> Strength(content, m).Success?
    ensures r.Success? ==> Valid(r.value.0) && r.value.1 !in c.records
    ensures r.Success? ==> r.value.0.records.Keys == c.records.Keys + {r.value.1}
    ensures r.Success? ==> forall id :: id in c.records ==> r.value.0.records[id] == c.records[id]
    ensures r.Success? ==> (
      var n := r.value.0.records[r.value.1];
      && n.owner == owner && n.content == content && n.metadata == m
      && n.timestamp == now && n.updatedAt.None? && n.relevance == relevance
      && n.embedding == env.embed(content) && 0.0 <= n.strength <= 1.0
      && Strength(content, m) == Success(n.strength)
      && n.memoryType == DetermineType(m) && n.keyPoints == ExtractKeyPoints(content))
  {
    var e :- Encode(env, content, m);
    Success(InsertOne(c, NewRecord(e, owner, now, relevance)))
  }

  /**
    The shared body of every store's `update_memory`: encode the new content,
    then `$set` the encoded fields, the metadata and `updated_at` on `id`.
    The encoding happens first, so it can raise even when `id` is absent.
   */
  function UpdateEncoded(env: Env, c: Collection, id: Id, content: string, m: Meta, now: int,
                         relevance: Option<real>): (r: Result<Collection, EncodeError>)
    ensures r.Success? <==> Strength(content, m).Success?
    ensures r.Success? ==> r.value.records.Keys == c.records.Keys && r.value.nextId == c.nextId
    ensures r.Success? && id !in c.records ==> r.value == c
    ensures r.Success? ==> forall other :: other in c.records && other != id ==> r.value.records[other] == c.records[other]
    ensures r.Success? && id in c.records ==> (
      var o := c.records[id];
      var n := r.value.records[id];
      && n.owner == o.owner && n.timestamp == o.timestamp
      && n.content == content && n.metadata == m && n.updatedAt == Some(now)
      && n.embedding == env.embed(content) && 0.0 <= n.strength <= 1.0
      && Strength(content, m) == Success(n.strength)
      && n.memoryType == DetermineType(m) && n.keyPoints == ExtractKeyPoints(content)
      && n.relevance == (if relevance.Some? then relevance else o.relevance))
  {
    var e :- Encode(env, content, m);
    Success(SetEncoded(c, id, e, now, relevance))
  }

  /** Deleting twice is deleting once. */
  lemma DeleteIdempotent(c: Collection, id: Id)
    ensures Delete(Delete(c, id), id) == Delete(c, id)
  {
  }

  /** `delete_many({'user_id': owner})`. */
  function DeleteOwner(c: Collection, owner: string): (c': Collection)
    ensures c'.nextId == c.nextId
    ensures forall id :: id in c'.records <==> id in c.records && c.records[id].owner != owner
    ensures forall id :: id in c'.records ==> c'.records[id] == c.records[id]
  {
    Collection(map id | id in c.records && c.records[id].owner != owner :: c.records[id], c.nextId)
  }

  /** A store's `get_memory_stats` result. */
  datatype Stats = Stats(total: nat, typeCounts: map<MemoryType, nat>, latest: Option<int>)

  /** Documents of type `t`. */
  function CountType(docs: seq<Doc>, t: MemoryType): (n: nat)
    ensures n <= |docs|
    ensures n > 0 <==> exists k :: 0 <= k < |docs| && docs[k].rec.memoryType == t
    decreases |docs|
  {
    if |docs| == 0 then 0
    else
      assert forall k :: 1 <= k < |docs| ==> docs[1..][k - 1] == docs[k];
      (if docs[0].rec.memoryType == t then 1 else 0) + CountType(docs[1..], t)
  }

  /** `distinct('memory_type')` paired with a `count_documents` per type. */
  function TypeCounts(docs: seq<Doc>): (m: map<MemoryType, nat>)
    ensures forall t :: t in m <==> exists k :: 0 <= k < |docs| && docs[k].rec.memoryType == t
    ensures forall t :: t in m ==> m[t] == CountType(docs, t) && m[t] > 0
  {
    var all := {Explicit, Procedural, Episodic, Semantic};
    forall t: MemoryType
      ensures t in all
    {
      EveryType(t);
    }
    map t | t in all && CountType(docs, t) > 0 :: CountType(docs, t)
  }

  lemma EveryType(t: MemoryType)
    ensures t in {Explicit, Procedural, Episodic, Semantic}
  {
    match t
    case Explicit =>
    case Procedural =>
    case Episodic =>
    case Semantic =>
  }

  /** The sum of a type-count table (absent types count 0). */
  function SumCounts(m: map<MemoryType, nat>): nat
  {
    (if Explicit in m then m[Explicit] else 0) + (if Procedural in m then m[Procedural] else 0)
    + (if Episodic in m then m[Episodic] else 0) + (if Semantic in m then m[Semantic] else 0)
  }

  lemma {:induction false} CountsAddUp(docs: seq<Doc>)
    ensures CountType(docs, Explicit) + CountType(docs, Procedural)
      + CountType(docs, Episodic) + CountType(docs, Semantic) == |docs|
    decreases |docs|
  {
    if |docs| > 0 {
      CountsAddUp(docs[1..]);
    }
  }

  function TimestampKey(d: Doc): real
  {
    d.rec.timestamp as real
  }

  /** `find_one(filter, sort=[('timestamp', -1)])['timestamp']`, or `None` when nothing matches. */
  function Latest(docs: seq<Doc>): (r: Option<int>)
    ensures r.None? <==> |docs| == 0
    ensures r.Some? ==> exists k :: 0 <= k < |docs| && docs[k].rec.timestamp == r.value
    ensures r.Some? ==> forall k :: 0 <= k < |docs| ==> docs[k].rec.timestamp <= r.value
  {
    if |docs| == 0 then None
    else
      var sorted := SortDesc(docs, TimestampKey);
      assert forall k :: 0 <= k < |docs| ==> docs[k] in multiset(sorted) by {
        forall k | 0 <= k < |docs|
          ensures docs[k] in multiset(sorted)
        {
          assert docs[k] in multiset(docs);
        }
      }
      assert sorted[0] in multiset(docs);
      Some(sorted[0].rec.timestamp)
  }

  /** The statistics of a list of documents. */
  function StatsOf(docs: seq<Doc>): (s: Stats)
    ensures s.total == |docs| && s.total == SumCounts(s.typeCounts)
    ensures s.typeCounts == TypeCounts(docs)
    ensures s.latest == Latest(docs)
    ensures s.latest.None? <==> s.total == 0
  {
    CountsAddUp(docs);
    Stats(|docs|, TypeCounts(docs), Latest(docs))
  }

  /** `get_memory_stats(owner)` of one collection. */
  function StatsFor(c: Collection, owner: string): (s: Stats)
    ensures s.total == |Find(c, owner, None)| && s.total == SumCounts(s.typeCounts)
    ensures s.typeCounts == TypeCounts(Find(c, owner, None))
    ensures s.latest == Latest(Find(c, owner, None))
    ensures s.latest.None? <==> s.total == 0
  {
    StatsOf(Find(c, owner, None))
  }

  /** An owner's stored document, as `Find` reports it. */
  ghost predicate OwnedBy(c: Collection, owner: string, id: Id)
  {
    id in c.records && c.records[id].owner == owner
  }

  /**
    In terms of the stored documents: `total` counts the owner's documents,
    a type is listed exactly when one of them has it, and `latest` is the
    timestamp of the newest of them.
   */
  lemma StatsMeaning(c: Collection, owner: string)
    requires Valid(c)
    ensures var s := StatsFor(c, owner);
      && s.total == |Find(c, owner, None)| == |OwnedIds(c, owner)|
      && (forall t :: t in s.typeCounts <==> exists id :: OwnedBy(c, owner, id) && c.records[id].memoryType == t)
      && (s.latest.Some? <==> exists id :: OwnedBy(c, owner, id))
      && (s.latest.Some? ==> exists id :: OwnedBy(c, owner, id) && c.records[id].timestamp == s.latest.value)
      && (forall id :: OwnedBy(c, owner, id) ==> s.latest.Some? && c.records[id].timestamp <= s.latest.value)
  {
    var docs := Find(c, owner, None);
    forall id | OwnedBy(c, owner, id)
      ensures Doc(id, c.records[id]) in docs
    {
      assert Matches(Doc(id, c.records[id]), owner, None);
    }
    StatsOfOwned(c, owner, docs);
    FindCountsOwned(c, owner);
  }

  /** The ids of the owner's stored documents. */
  ghost function OwnedIds(c: Collection, owner: string): set<Id>
  {
    set id | id in c.records && c.records[id].owner == owner
  }

  /** The ids a list of documents mentions. */
  ghost function IdsOf(docs: seq<Doc>): set<Id>
  {
    set k | 0 <= k < |docs| :: docs[k].id
  }

  /** A list with strictly ascending ids has no repeats: it mentions as many ids as it has documents. */
  lemma {:induction false} AscendingIdsCount(docs: seq<Doc>)
    requires forall j, k :: 0 <= j < k < |docs| ==> docs[j].id < docs[k].id
    ensures |IdsOf(docs)| == |docs|
    decreases |docs|
  {
    if |docs| > 0 {
      var init := docs[..|docs| - 1];
      AscendingIdsCount(init);
      var last := docs[|docs| - 1].id;
      assert IdsOf(docs) == IdsOf(init) + {last} by {
        forall id | id in IdsOf(docs)
          ensures id in IdsOf(init) + {last}
        {
          var k :| 0 <= k < |docs| && docs[k].id == id;
          if k < |docs| - 1 {
            assert init[k] == docs[k];
          }
        }
        forall id | id in IdsOf(init)
          ensures id in IdsOf(docs)
        {
          var k :| 0 <= k < |init| && init[k].id == id;
          assert docs[k] == init[k];
        }
      }
      forall k | 0 <= k < |init|
        ensures init[k].id != last
      {
        assert docs[k] == init[k];
      }
    }
  }

  /** The owner's find lists each of the owner's stored documents exactly once. */
  lemma FindCountsOwned(c: Collection, owner: string)
    requires Valid(c)
    ensures |Find(c, owner, None)| == |OwnedIds(c, owner)|
  {
    var docs := Find(c, owner, None);
    forall id | OwnedBy(c, owner, id)
      ensures Doc(id, c.records[id]) in docs
    {
      assert Matches(Doc(id, c.records[id]), owner, None);
    }
    AscendingIdsCount(docs);
    SameIds(c, owner, docs);
  }

  /** A list holding exactly the owner's documents mentions exactly the owner's ids. */
  lemma SameIds(c: Collection, owner: string, docs: seq<Doc>)
    requires forall k :: 0 <= k < |docs| ==> OwnedBy(c, owner, docs[k].id)
    requires forall id :: OwnedBy(c, owner, id) ==> Doc(id, c.records[id]) in docs
    ensures IdsOf(docs) == OwnedIds(c, owner)
  {
    forall id | id in OwnedIds(c, owner)
      ensures id in IdsOf(docs)
    {
      assert OwnedBy(c, owner, id);
      var k :| 0 <= k < |docs| && docs[k] == Doc(id, c.records[id]);
    }
    forall id | id in IdsOf(docs)
      ensures id in OwnedIds(c, owner)
    {
      var k :| 0 <= k < |docs| && docs[k].id == id;
      assert OwnedBy(c, owner, docs[k].id);
    }
  }

  /** `StatsMeaning` for any list holding exactly the owner's documents. */
  lemma StatsOfOwned(c: Collection, owner: string, docs: seq<Doc>)
    requires forall k :: 0 <= k < |docs| ==> OwnedBy(c, owner, docs[k].id) && docs[k].rec == c.records[docs[k].id]
    requires forall id :: OwnedBy(c, owner, id) ==> Doc(id, c.records[id]) in docs
    ensures var s := StatsOf(docs);
      && (forall t :: t in s.typeCounts <==> exists id :: OwnedBy(c, owner, id) && c.records[id].memoryType == t)
      && (s.latest.Some? <==> exists id :: OwnedBy(c, owner, id))
      && (s.latest.Some? ==> exists id :: OwnedBy(c, owner, id) && c.records[id].timestamp == s.latest.value)
      && (forall id :: OwnedBy(c, owner, id) ==> s.latest.Some? && c.records[id].timestamp <= s.latest.value)
  {
    var s := StatsOf(docs);
    forall t
      ensures t in s.typeCounts <==> exists id :: OwnedBy(c, owner, id) && c.records[id].memoryType == t
    {
      if t in s.typeCounts {
        var k :| 0 <= k < |docs| && docs[k].rec.memoryType == t;
        assert OwnedBy(c, owner, docs[k].id);
      }
      if exists id :: OwnedBy(c, owner, id) && c.records[id].memoryType == t {
        var id :| OwnedBy(c, owner, id) && c.records[id].memoryType == t;
        var k :| 0 <= k < |docs| && docs[k] == Doc(id, c.records[id]);
      }
    }
    if s.latest.Some? {
      var k :| 0 <= k < |docs| && docs[k].rec.timestamp == s.latest.value;
      assert OwnedBy(c, owner, docs[k].id);
    }
    forall id | OwnedBy(c, owner, id)
      ensures s.latest.Some? && c.records[id].timestamp <= s.latest.value
    {
      var k :| 0 <= k < |docs| && docs[k] == Doc(id, c.records[id]);
    }
  }
}
