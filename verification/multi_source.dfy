/**
  The multi-source memory manager: a registry of memory sources keyed by
  their names, in registration order. It fans queries out to the sources,
  merges the answers by strength, routes writes to one named source, sums the
  sources' statistics, and consolidates similar memories across sources.
 */
module MultiSource {
  import opened Wrappers
  import opened Metadata
  import opened Foreign
  import opened Encoder
  import opened Sorting
  import opened OrderedMaps
  import opened Consolidation
  import Store
  import Sources

  /** `self.sources`: name to source, in registration order. */
  type Registry = OMap<string, Sources.Source>

  /** Every source is registered under its own name. */
  ghost predicate WellFormed(reg: Registry)
  {
    && OrderedMaps.Valid(reg)
    && forall n :: n in reg.entries ==> Sources.Name(reg.entries[n]) == n && Sources.Valid(reg.entries[n])
  }

  function NewManager(): (reg: Registry)
    ensures WellFormed(reg) && |reg.keys| == 0
  {
    OrderedMaps.Empty()
  }

  /** `register_source`: keyed by the source's own name; re-registering a name replaces that entry only. */
  function RegisterSource(reg: Registry, s: Sources.Source): (r: Registry)
    requires WellFormed(reg) && Sources.Valid(s)
    ensures WellFormed(r)
    ensures Sources.Name(s) in r.entries && r.entries[Sources.Name(s)] == s
    ensures forall n :: n in reg.entries && n != Sources.Name(s) ==> n in r.entries && r.entries[n] == reg.entries[n]
    ensures r.entries.Keys == reg.entries.Keys + {Sources.Name(s)}
    ensures Sources.Name(s) in reg.entries ==> r.keys == reg.keys
    ensures Sources.Name(s) !in reg.entries ==> r.keys == reg.keys + [Sources.Name(s)]
  {
    Put(reg, Sources.Name(s), s)
  }

  /** A memory as the manager sees it: the document and the name of the source it came from. */
  datatype Hit = Hit(source: string, doc: Store.Doc)

  function StrengthKey(h: Hit): real
  {
    h.doc.rec.strength
  }

  /**
    The sources to query: the registered names among `names`, in the order
    given (repeats included); `None` or an empty list means every source in
    registration order.
   */
  function Selected(reg: Registry, names: Option<seq<string>>): (sel: seq<string>)
    requires OrderedMaps.Valid(reg)
    ensures forall k :: 0 <= k < |sel| ==> sel[k] in reg.entries
    ensures names.None? || |names.value| == 0 ==> sel == reg.keys
    ensures names.Some? && |names.value| > 0 ==>
      (forall k :: 0 <= k < |names.value| && names.value[k] in reg.entries ==> names.value[k] in sel)
    ensures names.Some? && |names.value| > 0 ==> forall k :: 0 <= k < |sel| ==> sel[k] in names.value
    ensures names.Some? && |names.value| > 0 ==>
      forall n :: multiset(sel)[n] == if n in reg.entries then multiset(names.value)[n] else 0
  {
    if names.None? || |names.value| == 0 then reg.keys
    else
      var registered := n => n in reg.entries;
      FilterCount(names.value, registered);
      Filter(names.value, registered)
  }

  /** The names are selected in the order given: selecting from two lists one after the other is selecting from each. */
  lemma SelectedAppend(reg: Registry, a: seq<string>, b: seq<string>)
    requires OrderedMaps.Valid(reg)
    requires |a| > 0 && |b| > 0
    ensures Selected(reg, Some(a + b)) == Selected(reg, Some(a)) + Selected(reg, Some(b))
  {
    FilterAppend(a, b, n => n in reg.entries);
  }

  /** The hits of each selected source, each asked for up to `limit` documents, concatenated in order. */
  function Fetch(reg: Registry, sel: seq<string>, query: string, owner: string, limit: int,
                 range: Option<(int, int)>): (hits: seq<Hit>)
    requires forall k :: 0 <= k < |sel| ==> sel[k] in reg.entries
    ensures forall k :: 0 <= k < |hits| ==> FromSource(reg, hits[k], owner, range) && hits[k].source in sel
    decreases |sel|
  {
    if |sel| == 0 then []
    else
      var head := Tagged(reg, sel[0], Sources.GetMemories(reg.entries[sel[0]], query, owner, limit, range), owner, range);
      var rest := Fetch(reg, sel[1..], query, owner, limit, range);
      HitsAppend(reg, sel, head, rest, owner, range);
      head + rest
  }

  /** A source's hits followed by the hits of the sources after it are hits of the selected sources. */
  lemma HitsAppend(reg: Registry, sel: seq<string>, head: seq<Hit>, rest: seq<Hit>, owner: string,
                   range: Option<(int, int)>)
    requires |sel| > 0
    requires forall k :: 0 <= k < |head| ==> FromSource(reg, head[k], owner, range) && head[k].source == sel[0]
    requires forall k :: 0 <= k < |rest| ==> FromSource(reg, rest[k], owner, range) && rest[k].source in sel[1..]
    ensures forall k :: 0 <= k < |head + rest| ==>
      FromSource(reg, (head + rest)[k], owner, range) && (head + rest)[k].source in sel
  {
    var r := head + rest;
    forall k | 0 <= k < |r|
      ensures FromSource(reg, r[k], owner, range) && r[k].source in sel
    {
      if k < |head| {
        assert r[k] == head[k];
      } else {
        assert r[k] == rest[k - |head|];
        var j :| 0 <= j < |sel[1..]| && sel[1..][j] == r[k].source;
        assert sel[j + 1] == r[k].source;
      }
    }
  }

  /** The documents one source returned, labelled with its name. */
  function Tagged(reg: Registry, name: string, docs: seq<Store.Doc>, owner: string, range: Option<(int, int)>): (hits: seq<Hit>)
    requires name in reg.entries
    requires forall k :: 0 <= k < |docs| ==>
      (Store.Matches(docs[k], owner, range) && docs[k].id in reg.entries[name].c.records
      && docs[k].rec == reg.entries[name].c.records[docs[k].id])
    ensures |hits| == |docs|
    ensures forall k :: 0 <= k < |hits| ==> FromSource(reg, hits[k], owner, range) && hits[k].source == name
  {
    seq(|docs|, k requires 0 <= k < |docs| => Hit(name, docs[k]))
  }

  /** A hit is a current document of the registered source it names, owned by `owner` and inside the window. */
  ghost predicate FromSource(reg: Registry, h: Hit, owner: string, range: Option<(int, int)>)
  {
    && h.source in reg.entries
    && Store.Matches(h.doc, owner, range)
    && h.doc.id in reg.entries[h.source].c.records
    && h.doc.rec == reg.entries[h.source].c.records[h.doc.id]
  }

  /**
    `get_memories`: every selected source's answers, stably sorted by
    strength (highest first), then cut with Python's `[:limit]`.
   */
  function GetMemories(reg: Registry, query: string, owner: string, names: Option<seq<string>>,
                       limit: int, range: Option<(int, int)>): (hits: seq<Hit>)
    requires OrderedMaps.Valid(reg)
    ensures SortedDesc(hits, StrengthKey)
    ensures KeepsBest(hits, Fetch(reg, Selected(reg, names), query, owner, limit, range), StrengthKey)
    ensures KeepsTieOrder(hits, Fetch(reg, Selected(reg, names), query, owner, limit, range), StrengthKey)
    ensures var n := |Fetch(reg, Selected(reg, names), query, owner, limit, range)|;
      limit >= 0 ==> |hits| == if limit < n then limit else n
    ensures var n := |Fetch(reg, Selected(reg, names), query, owner, limit, range)|;
      limit < 0 ==> |hits| == if n + limit > 0 then n + limit else 0
    ensures forall k :: 0 <= k < |hits| ==> FromSource(reg, hits[k], owner, range)
    ensures forall k :: 0 <= k < |hits| ==> hits[k].source in Selected(reg, names)
  {
    var sel := Selected(reg, names);
    var all := Fetch(reg, sel, query, owner, limit, range);
    var r := TopK(all, StrengthKey, limit);
    forall k | 0 <= k < |r|
      ensures FromSource(reg, r[k], owner, range) && r[k].source in sel
    {
      var j :| 0 <= j < |all| && all[j] == r[k];
    }
    r
  }

  /**
    When the limit does not cut, the answer is a permutation of everything
    fetched, strength-sorted, and documents of equal strength keep the order
    in which they were fetched.
   */
  lemma GetMemoriesStable(reg: Registry, query: string, owner: string, names: Option<seq<string>>,
                          limit: int, range: Option<(int, int)>)
    requires OrderedMaps.Valid(reg)
    requires limit >= |Fetch(reg, Selected(reg, names), query, owner, limit, range)|
    ensures var all := Fetch(reg, Selected(reg, names), query, owner, limit, range);
      var hits := GetMemories(reg, query, owner, names, limit, range);
      multiset(hits) == multiset(all) && Stable(hits, all, StrengthKey)
  {
  }

  /** A non-empty list of names none of which is registered selects nothing, so nothing comes back. */
  lemma UnknownNamesOnly(reg: Registry, query: string, owner: string, names: seq<string>,
                         limit: int, range: Option<(int, int)>)
    requires OrderedMaps.Valid(reg)
    requires |names| > 0 && forall k :: 0 <= k < |names| ==> names[k] !in reg.entries
    ensures GetMemories(reg, query, owner, Some(names), limit, range) == []
  {
  }

  /** The exceptions the routing operations raise. */
  datatype RouteError =
    | UnknownSource(name: string)   // `ValueError(f"未知的记忆源: {source_name}")`
    | EncodingFailed(e: EncodeError) // propagated from the source's encoder

  /** Replacing a registered source by a valid one of the same name keeps the registry well formed. */
  lemma ReplaceSource(reg: Registry, name: string, s: Sources.Source)
    requires WellFormed(reg) && name in reg.entries
    requires Sources.Name(s) == Sources.Name(reg.entries[name]) && Sources.Valid(s)
    ensures WellFormed(Put(reg, name, s)) && Put(reg, name, s).keys == reg.keys
    ensures Put(reg, name, s).entries == reg.entries[name := s]
  {
  }

  /** `add_memory`: unknown names raise; otherwise exactly the named source changes. */
  function AddMemory(env: Env, reg: Registry, content: string, owner: string, sourceName: string, m: Meta,
                     now: int): (r: Result<Registry, RouteError>)
    requires WellFormed(reg)
    ensures sourceName !in reg.entries ==> r == Failure(UnknownSource(sourceName))
    ensures sourceName in reg.entries ==>
      (r.Success? <==> Sources.AddMemory(env, reg.entries[sourceName], content, owner, m, now).Success?)
    ensures r.Success? ==> WellFormed(r.value) && r.value.keys == reg.keys && sourceName in reg.entries
    ensures r.Success? ==> r.value.entries == reg.entries[sourceName :=
      Sources.AddMemory(env, reg.entries[sourceName], content, owner, m, now).value]
  {
    if sourceName !in reg.entries then Failure(UnknownSource(sourceName))
    else match Sources.AddMemory(env, reg.entries[sourceName], content, owner, m, now)
      case Failure(e) => Failure(EncodingFailed(e))
      case Success(s) => ReplaceSource(reg, sourceName, s); Success(Put(reg, sourceName, s))
  }

  /** `update_memory`: unknown names raise; otherwise exactly the named source changes. */
  function UpdateMemory(env: Env, reg: Registry, id: Id, content: string, sourceName: string, m: Meta,
                        now: int): (r: Result<Registry, RouteError>)
    requires WellFormed(reg)
    ensures sourceName !in reg.entries ==> r == Failure(UnknownSource(sourceName))
    ensures sourceName in reg.entries ==>
      (r.Success? <==> Sources.UpdateMemory(env, reg.entries[sourceName], id, content, m, now).Success?)
    ensures r.Success? ==> WellFormed(r.value) && r.value.keys == reg.keys && sourceName in reg.entries
    ensures r.Success? ==> r.value.entries == reg.entries[sourceName :=
      Sources.UpdateMemory(env, reg.entries[sourceName], id, content, m, now).value]
  {
    if sourceName !in reg.entries then Failure(UnknownSource(sourceName))
    else match Sources.UpdateMemory(env, reg.entries[sourceName], id, content, m, now)
      case Failure(e) => Failure(EncodingFailed(e))
      case Success(s) => ReplaceSource(reg, sourceName, s); Success(Put(reg, sourceName, s))
  }

  /** `delete_memory`: unknown names raise; otherwise exactly the named source changes. */
  function DeleteMemory(reg: Registry, id: Id, sourceName: string): (r: Result<Registry, RouteError>)
    requires WellFormed(reg)
    ensures sourceName !in reg.entries <==> r == Failure(UnknownSource(sourceName))
    ensures r.Success? ==> WellFormed(r.value) && r.value.keys == reg.keys
    ensures r.Success? ==> r.value.entries == reg.entries[sourceName := Sources.DeleteMemory(reg.entries[sourceName], id)]
  {
    if sourceName !in reg.entries then Failure(UnknownSource(sourceName))
    else
      var s := Sources.DeleteMemory(reg.entries[sourceName], id);
      ReplaceSource(reg, sourceName, s);
      Success(Put(reg, sourceName, s))
  }

  /** `get_memory_stats`: one entry per source in registration order, plus the `'overall'` summary. */
  datatype ManagerStats = ManagerStats(perSource: seq<(string, Store.Stats)>, overall: Store.Stats)

  /** The sum of the per-source totals. */
  function TotalOf(ps: seq<(string, Store.Stats)>): nat
    decreases |ps|
  {
    if |ps| == 0 then 0 else ps[0].1.total + TotalOf(ps[1..])
  }

  /** The count of type `t`, summed over the sources (a source without `t` adds 0). */
  function TypeTotal(ps: seq<(string, Store.Stats)>, t: MemoryType): (n: nat)
    ensures (forall k :: 0 <= k < |ps| ==> t !in ps[k].1.typeCounts) ==> n == 0
    decreases |ps|
  {
    if |ps| == 0 then 0
    else
      assert forall k :: 1 <= k < |ps| ==> ps[1..][k - 1] == ps[k];
      (if t in ps[0].1.typeCounts then ps[0].1.typeCounts[t] else 0) + TypeTotal(ps[1..], t)
  }

  /** The merged `type_counts`: a type appears when some source reports it. */
  function MergedCounts(ps: seq<(string, Store.Stats)>): (m: map<MemoryType, nat>)
    ensures forall t :: t in m <==> exists k :: 0 <= k < |ps| && t in ps[k].1.typeCounts
    ensures forall t :: t in m ==> m[t] == TypeTotal(ps, t)
  {
    var all := {Explicit, Procedural, Episodic, Semantic};
    forall t: MemoryType
      ensures t in all
    {
      Store.EveryType(t);
    }
    map t | t in all && (exists k :: 0 <= k < |ps| && t in ps[k].1.typeCounts) :: TypeTotal(ps, t)
  }

  /** The larger of two optional times; `None` is below every time. */
  function MaxTime(a: Option<int>, b: Option<int>): Option<int>
  {
    if a.None? then b else if b.None? then a else Some(if a.value >= b.value then a.value else b.value)
  }

  /** `max(non-None latest times, default=None)`. */
  function LatestOf(ps: seq<(string, Store.Stats)>): (r: Option<int>)
    ensures r.None? <==> forall k :: 0 <= k < |ps| ==> ps[k].1.latest.None?
    ensures r.Some? ==> exists k :: 0 <= k < |ps| && ps[k].1.latest == r
    ensures r.Some? ==> forall k :: 0 <= k < |ps| && ps[k].1.latest.Some? ==> ps[k].1.latest.value <= r.value
    decreases |ps|
  {
    if |ps| == 0 then None
    else
      assert forall k :: 1 <= k < |ps| ==> ps[1..][k - 1] == ps[k];
      MaxTime(ps[0].1.latest, LatestOf(ps[1..]))
  }

  /** Each source's statistics, in registration order. */
  function PerSource(reg: Registry, owner: string): (ps: seq<(string, Store.Stats)>)
    requires OrderedMaps.Valid(reg)
    ensures |ps| == |reg.keys|
    ensures forall k :: 0 <= k < |ps| ==> ps[k] == (reg.keys[k], Sources.GetMemoryStats(reg.entries[reg.keys[k]], owner))
  {
    seq(|reg.keys|, k requires 0 <= k < |reg.keys| => (reg.keys[k], Sources.GetMemoryStats(reg.entries[reg.keys[k]], owner)))
  }

  /** `get_memory_stats`. */
  function GetMemoryStats(reg: Registry, owner: string): (s: ManagerStats)
    requires OrderedMaps.Valid(reg)
    ensures s.perSource == PerSource(reg, owner)
    ensures s.overall.total == TotalOf(s.perSource)
    ensures s.overall.total == Store.SumCounts(s.overall.typeCounts)
    ensures s.overall.typeCounts == MergedCounts(s.perSource)
    ensures forall t :: t in s.overall.typeCounts ==> s.overall.typeCounts[t] == TypeTotal(s.perSource, t)
    ensures s.overall.latest == LatestOf(s.perSource)
    ensures s.overall.latest.None? <==> forall k :: 0 <= k < |s.perSource| ==> s.perSource[k].1.latest.None?
  {
    var ps := PerSource(reg, owner);
    OverallCountsAddUp(ps);
    ManagerStats(ps, Store.Stats(TotalOf(ps), MergedCounts(ps), LatestOf(ps)))
  }

  /** When every source's total is the sum of its type counts, so is the overall total. */
  lemma {:induction false} OverallCountsAddUp(ps: seq<(string, Store.Stats)>)
    requires forall k :: 0 <= k < |ps| ==> ps[k].1.total == Store.SumCounts(ps[k].1.typeCounts)
    ensures TotalOf(ps) == Store.SumCounts(MergedCounts(ps))
    decreases |ps|
  {
    SumByTypeIsTotal(ps);
  }

  lemma {:induction false} SumByTypeIsTotal(ps: seq<(string, Store.Stats)>)
    requires forall k :: 0 <= k < |ps| ==> ps[k].1.total == Store.SumCounts(ps[k].1.typeCounts)
    ensures TotalOf(ps) == TypeTotal(ps, Explicit) + TypeTotal(ps, Procedural)
      + TypeTotal(ps, Episodic) + TypeTotal(ps, Semantic)
    decreases |ps|
  {
    if |ps| > 0 {
      SumByTypeIsTotal(ps[1..]);
    }
  }

  /**
    `_calculate_similarity`: the cosine of the two embeddings, and 0 when
    either has zero norm.
   */
  function Similarity(env: Env, a: Embedding, b: Embedding): (s: real)
    ensures NormSq(a) == 0.0 || NormSq(b) == 0.0 ==> s == 0.0
    ensures NormSq(a) > 0.0 && NormSq(b) > 0.0 ==> s == env.cosine(a, b)
  {
    if NormSq(a) == 0.0 || NormSq(b) == 0.0 then 0.0 else env.cosine(a, b)
  }

  /** The merge threshold: similarity strictly above 0.8. */
  predicate Similar(env: Env, x: Hit, y: Hit)
  {
    Similarity(env, x.doc.rec.embedding, y.doc.rec.embedding) > 0.8
  }

  /** The merged content: the left text, a newline, the right text. */
  function MergedContent(left: Hit, right: Hit): string
  {
    left.doc.rec.content + "\n" + right.doc.rec.content
  }

  /** The merged metadata: the right's entries over the left's, then `merged_from` with both ids. */
  function MergedMeta(left: Hit, right: Hit): (m: Meta)
    ensures m.Keys == left.doc.rec.metadata.Keys + right.doc.rec.metadata.Keys + {"merged_from"}
    ensures m["merged_from"] == Ids([left.doc.id, right.doc.id])
    ensures forall k :: k in right.doc.rec.metadata && k != "merged_from" ==> m[k] == right.doc.rec.metadata[k]
    ensures forall k :: k in left.doc.rec.metadata && k !in right.doc.rec.metadata && k != "merged_from" ==>
      m[k] == left.doc.rec.metadata[k]
  {
    Overlay(left.doc.rec.metadata, right.doc.rec.metadata)["merged_from" := Ids([left.doc.id, right.doc.id])]
  }

  /** One merge: rewrite the left memory in its source, then delete the right one from its source. */
  function MergePair(env: Env, reg: Registry, left: Hit, right: Hit, now: int): (r: Result<Registry, RouteError>)
    requires WellFormed(reg)
    ensures r.Success? ==> WellFormed(r.value) && r.value.keys == reg.keys
    ensures left.source !in reg.entries ==> r == Failure(UnknownSource(left.source))
  {
    var r1 :- UpdateMemory(env, reg, left.doc.id, MergedContent(left, right), left.source, MergedMeta(left, right), now);
    DeleteMemory(r1, right.doc.id, right.source)
  }

  /**
    A merge between two current documents of different ids rewrites the left
    one with the merged text and metadata and removes the right one.
   */
  lemma MergePairEffect(env: Env, reg: Registry, left: Hit, right: Hit, now: int)
    requires WellFormed(reg)
    requires left.source in reg.entries && right.source in reg.entries
    requires left.doc.id in reg.entries[left.source].c.records
    requires left.source != right.source || left.doc.id != right.doc.id
    requires MergePair(env, reg, left, right, now).Success?
    ensures var r := MergePair(env, reg, left, right, now).value;
      && left.doc.id in r.entries[left.source].c.records
      && r.entries[left.source].c.records[left.doc.id].content == MergedContent(left, right)
      && r.entries[left.source].c.records[left.doc.id].metadata == MergedMeta(left, right)
      && right.doc.id !in r.entries[right.source].c.records
  {
    MergePairSteps(env, reg, left, right, now);
    var u := Sources.UpdateMemory(env, reg.entries[left.source], left.doc.id, MergedContent(left, right), MergedMeta(left, right), now).value;
    UpdateThenDelete(reg.entries, left.source, left.doc.id, u, right.source, right.doc.id, left.source, left.doc.id);
    UpdateThenDelete(reg.entries, left.source, left.doc.id, u, right.source, right.doc.id, right.source, right.doc.id);
  }

  /** Apply the planned merges in order; the first failure stops the pass with the merges so far committed. */
  function ApplyMerges(env: Env, reg: Registry, merges: seq<(Hit, Hit)>, now: int): (r: (Registry, Option<RouteError>))
    requires WellFormed(reg)
    ensures WellFormed(r.0) && r.0.keys == reg.keys
    ensures |merges| == 0 ==> r == (reg, None)
    decreases |merges|
  {
    if |merges| == 0 then (reg, None)
    else match MergePair(env, reg, merges[0].0, merges[0].1, now)
      case Failure(e) => (reg, Some(e))
      case Success(reg') => ApplyMerges(env, reg', merges[1..], now)
  }

  /** A successful merge updates the left source, then deletes the right document from the registry that results. */
  lemma MergePairSteps(env: Env, reg: Registry, left: Hit, right: Hit, now: int)
    requires WellFormed(reg)
    requires MergePair(env, reg, left, right, now).Success?
    ensures left.source in reg.entries && right.source in reg.entries
    ensures Sources.UpdateMemory(env, reg.entries[left.source], left.doc.id, MergedContent(left, right), MergedMeta(left, right), now).Success?
    ensures var u := Sources.UpdateMemory(env, reg.entries[left.source], left.doc.id, MergedContent(left, right), MergedMeta(left, right), now).value;
      var m1 := reg.entries[left.source := u];
      MergePair(env, reg, left, right, now).value.entries == m1[right.source := Sources.DeleteMemory(m1[right.source], right.doc.id)]
  {
    var r1 := UpdateMemory(env, reg, left.doc.id, MergedContent(left, right), left.source, MergedMeta(left, right), now).value;
    assert right.source in r1.entries;
  }

  /**
    A merge touches its two documents only: any other source keeps its state,
    only the right document is removed, and every other record is kept.
   */
  lemma MergePairFrame(env: Env, reg: Registry, left: Hit, right: Hit, now: int, n: string, id: Id)
    requires WellFormed(reg) && n in reg.entries
    ensures MergePair(env, reg, left, right, now).Success? ==>
      var r := MergePair(env, reg, left, right, now).value;
      && n in r.entries
      && (n != left.source && n != right.source ==> r.entries[n] == reg.entries[n])
      && (id in r.entries[n].c.records <==> id in reg.entries[n].c.records && (n != right.source || id != right.doc.id))
      && (id in reg.entries[n].c.records && (n != left.source || id != left.doc.id) && (n != right.source || id != right.doc.id)
          ==> r.entries[n].c.records[id] == reg.entries[n].c.records[id])
  {
    if MergePair(env, reg, left, right, now).Success? {
      MergePairSteps(env, reg, left, right, now);
      var u := Sources.UpdateMemory(env, reg.entries[left.source], left.doc.id, MergedContent(left, right), MergedMeta(left, right), now).value;
      UpdateThenDelete(reg.entries, left.source, left.doc.id, u, right.source, right.doc.id, n, id);
    }
  }

  /** Replacing one source by an update of it, then deleting one document of a source, keeps every other record. */
  lemma UpdateThenDelete(entries: map<string, Sources.Source>, ls: string, lid: Id, u: Sources.Source,
                         rs: string, rid: Id, n: string, id: Id)
    requires ls in entries && rs in entries && n in entries
    requires u.c.records.Keys == entries[ls].c.records.Keys
    requires forall other :: other in entries[ls].c.records && other != lid ==> u.c.records[other] == entries[ls].c.records[other]
    ensures var m1 := entries[ls := u];
      var r := m1[rs := Sources.DeleteMemory(m1[rs], rid)];
      && n in r
      && (n != ls && n != rs ==> r[n] == entries[n])
      && (id in r[n].c.records <==> id in entries[n].c.records && (n != rs || id != rid))
      && (id in entries[n].c.records && (n != ls || id != lid) && (n != rs || id != rid)
          ==> r[n].c.records[id] == entries[n].c.records[id])
  {
    var mid := if n == ls then u else entries[n];
    assert entries[ls := u][n] == mid;
  }

  /** Some merge of the pass names document `id` of source `n` as its right-hand side. */
  predicate Removes(merges: seq<(Hit, Hit)>, n: string, id: Id)
  {
    exists k :: 0 <= k < |merges| && merges[k].1.source == n && merges[k].1.doc.id == id
  }

  /** No merge of the pass names document `id` of source `n` on either side. */
  predicate Untouched(merges: seq<(Hit, Hit)>, n: string, id: Id)
  {
    forall k :: 0 <= k < |merges| ==>
      (merges[k].0.source != n || merges[k].0.doc.id != id) && (merges[k].1.source != n || merges[k].1.doc.id != id)
  }

  lemma RemovesCons(merges: seq<(Hit, Hit)>, n: string, id: Id)
    requires |merges| > 0
    ensures Removes(merges, n, id) <==>
      (merges[0].1.source == n && merges[0].1.doc.id == id) || Removes(merges[1..], n, id)
  {
    if Removes(merges, n, id) && !(merges[0].1.source == n && merges[0].1.doc.id == id) {
      var k :| 0 <= k < |merges| && merges[k].1.source == n && merges[k].1.doc.id == id;
      assert merges[1..][k - 1] == merges[k];
    }
    if Removes(merges[1..], n, id) {
      var k :| 0 <= k < |merges[1..]| && merges[1..][k].1.source == n && merges[1..][k].1.doc.id == id;
      assert merges[k + 1] == merges[1..][k];
    }
  }

  lemma UntouchedTail(merges: seq<(Hit, Hit)>, n: string, id: Id)
    requires |merges| > 0 && Untouched(merges, n, id)
    ensures (merges[0].0.source != n || merges[0].0.doc.id != id) && (merges[0].1.source != n || merges[0].1.doc.id != id)
    ensures Untouched(merges[1..], n, id)
  {
    assert forall k :: 0 <= k < |merges[1..]| ==> merges[1..][k] == merges[k + 1];
  }

  lemma RemovesShift(merges: seq<(Hit, Hit)>, k: nat, n: string, id: Id)
    requires 0 < k <= |merges| && !Removes(merges[..k], n, id)
    ensures merges[0].1.source != n || merges[0].1.doc.id != id
    ensures !Removes(merges[1..][..k - 1], n, id)
  {
    assert merges[..k][0] == merges[0];
    var tail := merges[1..][..k - 1];
    forall j | 0 <= j < |tail|
      ensures tail[j].1.source != n || tail[j].1.doc.id != id
    {
      assert tail[j] == merges[..k][j + 1];
    }
  }

  /** A pass that raises nothing starts with a successful merge and goes on from its result. */
  lemma ApplyMergesStep(env: Env, reg: Registry, merges: seq<(Hit, Hit)>, now: int)
    requires WellFormed(reg) && |merges| > 0
    requires ApplyMerges(env, reg, merges, now).1.None?
    ensures MergePair(env, reg, merges[0].0, merges[0].1, now).Success?
    ensures var reg' := MergePair(env, reg, merges[0].0, merges[0].1, now).value;
      ApplyMerges(env, reg, merges, now) == ApplyMerges(env, reg', merges[1..], now)
  {
  }

  /** A pass whose first merge succeeds goes on from that merge's result. */
  lemma ApplyMergesUnfold(env: Env, reg: Registry, merges: seq<(Hit, Hit)>, now: int)
    requires WellFormed(reg) && |merges| > 0
    requires MergePair(env, reg, merges[0].0, merges[0].1, now).Success?
    ensures var reg' := MergePair(env, reg, merges[0].0, merges[0].1, now).value;
      ApplyMerges(env, reg, merges, now) == ApplyMerges(env, reg', merges[1..], now)
  {
  }

  /** A document no merge names keeps its record, whether or not the pass stops early. */
  lemma {:induction false} ApplyMergesFrame(env: Env, reg: Registry, merges: seq<(Hit, Hit)>, now: int, n: string, id: Id)
    requires WellFormed(reg)
    requires n in reg.entries && id in reg.entries[n].c.records && Untouched(merges, n, id)
    ensures var r := ApplyMerges(env, reg, merges, now).0;
      n in r.entries && id in r.entries[n].c.records && r.entries[n].c.records[id] == reg.entries[n].c.records[id]
    decreases |merges|
  {
    if |merges| > 0 {
      var r := MergePair(env, reg, merges[0].0, merges[0].1, now);
      if r.Success? {
        MergePairFrame(env, reg, merges[0].0, merges[0].1, now, n, id);
        UntouchedTail(merges, n, id);
        ApplyMergesFrame(env, r.value, merges[1..], now, n, id);
      }
    }
  }

  /** A pass that raises nothing removes exactly the right-hand documents, each from its own source. */
  lemma {:induction false} ApplyMergesKeys(env: Env, reg: Registry, merges: seq<(Hit, Hit)>, now: int, n: string, id: Id)
    requires WellFormed(reg) && n in reg.entries
    ensures ApplyMerges(env, reg, merges, now).1.None? ==>
      var r := ApplyMerges(env, reg, merges, now).0;
      n in r.entries && (id in r.entries[n].c.records <==> id in reg.entries[n].c.records && !Removes(merges, n, id))
    decreases |merges|
  {
    if |merges| > 0 && ApplyMerges(env, reg, merges, now).1.None? {
      ApplyMergesStep(env, reg, merges, now);
      var reg' := MergePair(env, reg, merges[0].0, merges[0].1, now).value;
      MergePairFrame(env, reg, merges[0].0, merges[0].1, now, n, id);
      ApplyMergesKeys(env, reg', merges[1..], now, n, id);
      RemovesCons(merges, n, id);
    }
  }

  /** Document `left` of the registry holds the text and metadata of merging `left` with `right`. */
  predicate HoldsMerge(reg: Registry, left: Hit, right: Hit)
  {
    && left.source in reg.entries && left.doc.id in reg.entries[left.source].c.records
    && reg.entries[left.source].c.records[left.doc.id].content == MergedContent(left, right)
    && reg.entries[left.source].c.records[left.doc.id].metadata == MergedMeta(left, right)
  }

  /**
    A pass that raises nothing leaves merge `k`'s left document holding the
    merged text and metadata, when that document was present, no earlier
    merge removed it and no later merge names it.
   */
  lemma ApplyMergesRewrites(env: Env, reg: Registry, merges: seq<(Hit, Hit)>, now: int, k: nat)
    requires WellFormed(reg) && k < |merges|
    requires merges[k].0.source in reg.entries && merges[k].0.doc.id in reg.entries[merges[k].0.source].c.records
    requires merges[k].0.source != merges[k].1.source || merges[k].0.doc.id != merges[k].1.doc.id
    requires !Removes(merges[..k], merges[k].0.source, merges[k].0.doc.id)
    requires Untouched(merges[k + 1..], merges[k].0.source, merges[k].0.doc.id)
    ensures ApplyMerges(env, reg, merges, now).1.None? ==>
      HoldsMerge(ApplyMerges(env, reg, merges, now).0, merges[k].0, merges[k].1)
  {
    if ApplyMerges(env, reg, merges, now).1.None? {
      var (l, rt) := merges[k];
      ApplyMergesSplit(env, reg, merges, now, k);
      var mid := ApplyMerges(env, reg, merges[..k], now).0;
      ApplyMergesKeys(env, reg, merges[..k], now, l.source, l.doc.id);
      assert merges[k..][0] == merges[k] && merges[k..][1..] == merges[k + 1..];
      ApplyMergesStep(env, mid, merges[k..], now);
      FirstMergeHolds(env, mid, l, rt, merges[k + 1..], now);
    }
  }

  /** A pass that raises nothing is its first `k` merges followed by the rest, the first part raising nothing either. */
  lemma {:induction false} ApplyMergesSplit(env: Env, reg: Registry, merges: seq<(Hit, Hit)>, now: int, k: nat)
    requires WellFormed(reg) && k <= |merges|
    requires ApplyMerges(env, reg, merges, now).1.None?
    ensures ApplyMerges(env, reg, merges[..k], now).1.None?
    ensures ApplyMerges(env, reg, merges, now) == ApplyMerges(env, ApplyMerges(env, reg, merges[..k], now).0, merges[k..], now)
    decreases k
  {
    if k > 0 {
      ApplyMergesStep(env, reg, merges, now);
      var reg' := MergePair(env, reg, merges[0].0, merges[0].1, now).value;
      ApplyMergesSplit(env, reg', merges[1..], now, k - 1);
      SliceShift(merges, k);
      ApplyMergesUnfold(env, reg, merges[..k], now);
    }
  }

  lemma SliceShift<T>(s: seq<T>, k: nat)
    requires 0 < k <= |s|
    ensures s[..k][0] == s[0] && s[..k][1..] == s[1..][..k - 1] && s[1..][k - 1..] == s[k..]
  {
  }

  /** A merge's left document holds the merge at the end of a pass over later merges that do not name it. */
  lemma FirstMergeHolds(env: Env, reg: Registry, l: Hit, rt: Hit, later: seq<(Hit, Hit)>, now: int)
    requires WellFormed(reg)
    requires MergePair(env, reg, l, rt, now).Success?
    requires l.source in reg.entries && l.doc.id in reg.entries[l.source].c.records
    requires l.source != rt.source || l.doc.id != rt.doc.id
    requires Untouched(later, l.source, l.doc.id)
    ensures HoldsMerge(ApplyMerges(env, MergePair(env, reg, l, rt, now).value, later, now).0, l, rt)
  {
    var reg' := MergePair(env, reg, l, rt, now).value;
    MergePairSteps(env, reg, l, rt, now);
    MergePairEffect(env, reg, l, rt, now);
    assert HoldsMerge(reg', l, rt);
    ApplyMergesFrame(env, reg', later, now, l.source, l.doc.id);
  }

  /** `_consolidate_memory_group`: groups of one are skipped; otherwise sort by strength and walk. */
  function ConsolidateGroup(env: Env, reg: Registry, group: seq<Hit>, now: int): (r: (Registry, Option<RouteError>))
    requires WellFormed(reg)
    ensures WellFormed(r.0) && r.0.keys == reg.keys
    ensures |group| <= 1 ==> r == (reg, None)
  {
    if |group| <= 1 then (reg, None)
    else ApplyMerges(env, reg, GroupMerges(env, group), now)
  }

  /** The planned merges of a group: strongest first, walked with the similarity test. */
  function GroupMerges(env: Env, group: seq<Hit>): seq<(Hit, Hit)>
  {
    Plan(SortDesc(group, StrengthKey), 0, (x, y) => Similar(env, x, y)).merges
  }

  lemma GroupMergesMembers(env: Env, group: seq<Hit>)
    ensures forall k :: 0 <= k < |GroupMerges(env, group)| ==>
      GroupMerges(env, group)[k].0 in group && GroupMerges(env, group)[k].1 in group
  {
    var sim := (x, y) => Similar(env, x, y);
    var L := SortDesc(group, StrengthKey);
    var w := Plan(L, 0, sim);
    PlanPartition(L, 0, sim);
    PlanOutcome(L, 0, sim);
    var R := Rights(w.merges);
    forall k | 0 <= k < |w.merges|
      ensures w.merges[k].0 in group && w.merges[k].1 in group
    {
      assert w.merges[k].0 in multiset(w.survivors);
      assert w.merges[k].0 in multiset(L);
      assert R[k] in multiset(R);
      assert w.merges[k].1 in multiset(L);
    }
  }

  /** No member of the group is document `id` of source `n`. */
  predicate Outside(group: seq<Hit>, n: string, id: Id)
  {
    forall k :: 0 <= k < |group| ==> group[k].source != n || group[k].doc.id != id
  }

  /** A group pass that raises nothing removes exactly the right-hand documents of the group's planned merges. */
  lemma ConsolidateGroupKeys(env: Env, reg: Registry, group: seq<Hit>, now: int, n: string, id: Id)
    requires WellFormed(reg) && n in reg.entries && |group| >= 2
    ensures ConsolidateGroup(env, reg, group, now).1.None? ==>
      var r := ConsolidateGroup(env, reg, group, now).0;
      n in r.entries && (id in r.entries[n].c.records <==>
        id in reg.entries[n].c.records && !Removes(GroupMerges(env, group), n, id))
  {
    ApplyMergesKeys(env, reg, GroupMerges(env, group), now, n, id);
  }

  /** A document that is no member of the group keeps its record through the group pass. */
  lemma GroupFrame(env: Env, reg: Registry, group: seq<Hit>, now: int, n: string, id: Id)
    requires WellFormed(reg) && n in reg.entries && id in reg.entries[n].c.records
    requires Outside(group, n, id)
    ensures var r := ConsolidateGroup(env, reg, group, now).0;
      n in r.entries && id in r.entries[n].c.records && r.entries[n].c.records[id] == reg.entries[n].c.records[id]
  {
    if |group| >= 2 {
      var ms := GroupMerges(env, group);
      GroupMergesMembers(env, group);
      forall k | 0 <= k < |ms|
        ensures (ms[k].0.source != n || ms[k].0.doc.id != id) && (ms[k].1.source != n || ms[k].1.doc.id != id)
      {
        var p :| 0 <= p < |group| && group[p] == ms[k].0;
        var q :| 0 <= q < |group| && group[q] == ms[k].1;
      }
      ApplyMergesFrame(env, reg, ms, now, n, id);
    }
  }

  /** The groups one after another; an exception in one group ends the whole pass. */
  function ConsolidateGroups(env: Env, reg: Registry, groups: seq<seq<Hit>>, now: int): (r: (Registry, Option<RouteError>))
    requires WellFormed(reg)
    ensures WellFormed(r.0) && r.0.keys == reg.keys
    ensures (forall j :: 0 <= j < |groups| ==> |groups[j]| <= 1) ==> r == (reg, None)
    decreases |groups|
  {
    if |groups| == 0 then (reg, None)
    else
      var (reg', err) := ConsolidateGroup(env, reg, groups[0], now);
      if err.Some? then (reg', err) else ConsolidateGroups(env, reg', groups[1..], now)
  }

  lemma {:induction false} GroupsFrame(env: Env, reg: Registry, groups: seq<seq<Hit>>, now: int, n: string, id: Id)
    requires WellFormed(reg) && n in reg.entries && id in reg.entries[n].c.records
    requires forall j :: 0 <= j < |groups| ==> Outside(groups[j], n, id)
    ensures var r := ConsolidateGroups(env, reg, groups, now).0;
      n in r.entries && id in r.entries[n].c.records && r.entries[n].c.records[id] == reg.entries[n].c.records[id]
    decreases |groups|
  {
    if |groups| > 0 {
      GroupFrame(env, reg, groups[0], now, n, id);
      ConsolidateGroupsStep(env, reg, groups, now);
      var g := ConsolidateGroup(env, reg, groups[0], now);
      if g.1.None? {
        OutsideTail(groups, n, id);
        GroupsFrame(env, g.0, groups[1..], now, n, id);
      }
    }
  }

  lemma ConsolidateGroupsStep(env: Env, reg: Registry, groups: seq<seq<Hit>>, now: int)
    requires WellFormed(reg) && |groups| > 0
    ensures var g := ConsolidateGroup(env, reg, groups[0], now);
      ConsolidateGroups(env, reg, groups, now) == if g.1.Some? then g else ConsolidateGroups(env, g.0, groups[1..], now)
  {
  }

  lemma OutsideTail(groups: seq<seq<Hit>>, n: string, id: Id)
    requires |groups| > 0 && forall j :: 0 <= j < |groups| ==> Outside(groups[j], n, id)
    ensures forall j :: 0 <= j < |groups[1..]| ==> Outside(groups[1..][j], n, id)
  {
    assert forall j :: 0 <= j < |groups[1..]| ==> groups[1..][j] == groups[j + 1];
  }

  /** Consolidating one owner's memories never touches a memory of another owner, in any source. */
  lemma OtherOwnersUntouched(env: Env, reg: Registry, owner: string, now: int, n: string, id: Id)
    requires WellFormed(reg) && n in reg.entries && id in reg.entries[n].c.records
    requires reg.entries[n].c.records[id].owner != owner
    ensures var r := ConsolidateMemories(env, reg, owner, now).0;
      n in r.entries && id in r.entries[n].c.records && r.entries[n].c.records[id] == reg.entries[n].c.records[id]
  {
    var all := GetMemories(reg, "", owner, None, 1000, None);
    var groups := GroupBy(all, TypeOf);
    forall j | 0 <= j < |groups|
      ensures Outside(groups[j], n, id)
    {
      forall k | 0 <= k < |groups[j]|
        ensures groups[j][k].source != n || groups[j][k].doc.id != id
      {
        assert groups[j][k] in all;
        var p :| 0 <= p < |all| && all[p] == groups[j][k];
        assert FromSource(reg, all[p], owner, None);
      }
    }
    GroupsFrame(env, reg, groups, now, n, id);
  }

  /** The memory type a hit is grouped by. */
  function TypeOf(h: Hit): MemoryType
  {
    h.doc.rec.memoryType
  }

  /**
    `consolidate_memories`: fetch up to 1000 of the owner's memories from
    every source (strength order), group them by memory type in order of
    first appearance, and consolidate each group.
   */
  function ConsolidateMemories(env: Env, reg: Registry, owner: string, now: int): (r: (Registry, Option<RouteError>))
    requires WellFormed(reg)
    ensures WellFormed(r.0) && r.0.keys == reg.keys
  {
    var all := GetMemories(reg, "", owner, None, 1000, None);
    ConsolidateGroups(env, reg, GroupBy(all, TypeOf), now)
  }

  /** Within a fetched group the strength sort changes nothing: a group drawn from a sorted list is already sorted. */
  lemma GroupSortIsIdentity(reg: Registry, owner: string, t: MemoryType)
    requires OrderedMaps.Valid(reg)
    ensures var g := GroupOf(GetMemories(reg, "", owner, None, 1000, None), TypeOf, t);
      SortDesc(g, StrengthKey) == g
  {
    var all := GetMemories(reg, "", owner, None, 1000, None);
    GroupOfSorted(all, t);
    SortSortedIsIdentity(GroupOf(all, TypeOf, t), StrengthKey);
  }

  lemma {:induction false} GroupOfSorted(s: seq<Hit>, t: MemoryType)
    requires SortedDesc(s, StrengthKey)
    ensures SortedDesc(GroupOf(s, TypeOf, t), StrengthKey)
    ensures forall k :: 0 <= k < |GroupOf(s, TypeOf, t)| ==> StrengthKey(GroupOf(s, TypeOf, t)[k]) <= StrengthKey(s[0])
    decreases |s|
  {
    if |s| > 0 {
      var tail := s[1..];
      var rest := GroupOf(tail, TypeOf, t);
      SortedTail(s, StrengthKey);
      GroupOfSorted(tail, t);
      forall k | 0 <= k < |rest|
        ensures StrengthKey(rest[k]) <= StrengthKey(s[0])
      {
        assert StrengthKey(rest[k]) <= StrengthKey(tail[0]) && tail[0] == s[1];
      }
      var head: seq<Hit> := if TypeOf(s[0]) == t then [s[0]] else [];
      assert GroupOf(s, TypeOf, t) == head + rest;
      SortedCons(head, s[0], rest, StrengthKey);
    }
  }
}
