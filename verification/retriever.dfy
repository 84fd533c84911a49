/**
  The memory retriever: ranks the candidate documents of one owner by
  similarity to the query times time-decayed strength, merges the two
  analyzer histories by time, and renders a context string.
 */
module Retriever {
  import opened Wrappers
  import opened Metadata
  import opened Foreign
  import opened Encoder
  import opened Sorting
  import opened Text
  import opened Store

  /**
    `_cosine_similarity`: `dot / (norm1 * norm2)` with no zero-norm guard, so
    the caller must never pass a zero vector.
   */
  function CosineSimilarity(env: Env, a: Embedding, b: Embedding): real
    requires NormSq(a) > 0.0 && NormSq(b) > 0.0
  {
    env.cosine(a, b)
  }

  /** `_calculate_time_decay`: `1 - exp(-0.1 * days)` over whole elapsed days. */
  function TimeDecay(env: Env, now: int, timestamp: int): (d: real)
    ensures ValidEnv(env) ==> d < 1.0
    ensures ValidEnv(env) && now >= timestamp ==> d >= 0.0
  {
    var d := Decay(env, ElapsedDays(now, timestamp));
    assert ValidEnv(env) ==> d < 1.0 && (now >= timestamp ==> d >= 0.0) by {
      if ValidEnv(env) {
        DecayBelowOne(env, ElapsedDays(now, timestamp));
        if now >= timestamp {
          DecayAtZero(env);
          DecayMonotone(env, 0, ElapsedDays(now, timestamp));
        }
      }
    }
    d
  }

  /** A record less than a day old has not decayed at all. */
  lemma FreshRecordUndecayed(env: Env, now: int, timestamp: int)
    requires ValidEnv(env)
    requires 0 <= now - timestamp < 86400
    ensures TimeDecay(env, now, timestamp) == 0.0
  {
    ElapsedDaysUnderADay(now, timestamp);
    DecayAtZero(env);
  }

  /** The older a record, the more it has decayed. */
  lemma TimeDecayMonotone(env: Env, now: int, t1: int, t2: int)
    requires ValidEnv(env)
    requires t2 <= t1
    ensures TimeDecay(env, now, t1) <= TimeDecay(env, now, t2)
  {
    assert ElapsedDays(now, t1) <= ElapsedDays(now, t2) by {
      assert now - t1 <= now - t2;
    }
    DecayMonotone(env, ElapsedDays(now, t1), ElapsedDays(now, t2));
  }

  /** `if memory_types:` — `None` or an empty list filters nothing. */
  predicate TypeAllowed(types: Option<seq<MemoryType>>, t: MemoryType)
  {
    types.None? || |types.value| == 0 || t in types.value
  }

  /** The query conditions of `retrieve_memories`: owner, allowed type, inclusive time window. */
  predicate Candidate(d: Doc, owner: string, types: Option<seq<MemoryType>>, range: Option<(int, int)>)
  {
    Matches(d, owner, range) && TypeAllowed(types, d.rec.memoryType)
  }

  /** `find(query_conditions)`: the candidates in natural order. */
  function Candidates(c: Collection, owner: string, types: Option<seq<MemoryType>>,
                      range: Option<(int, int)>): (docs: seq<Doc>)
    ensures forall k :: 0 <= k < |docs| ==>
      (Candidate(docs[k], owner, types, range) && docs[k].id in c.records && docs[k].rec == c.records[docs[k].id])
    ensures Valid(c) ==> forall id :: id in c.records && Candidate(Doc(id, c.records[id]), owner, types, range) ==>
      Doc(id, c.records[id]) in docs
  {
    Filter(Scan(c), d => Candidate(d, owner, types, range))
  }

  /**
    The cosine is only defined on nonzero vectors: the query and every
    candidate must have a nonzero embedding whenever there is a candidate.
   */
  ghost predicate Scorable(c: Collection, query: Embedding, owner: string, types: Option<seq<MemoryType>>,
                           range: Option<(int, int)>)
  {
    forall id :: id in c.records && Candidate(Doc(id, c.records[id]), owner, types, range) ==>
      NormSq(query) > 0.0 && NormSq(c.records[id].embedding) > 0.0
  }

  /** `final_score = similarity * strength * (1 - time_decay)`. */
  function Score(env: Env, query: Embedding, now: int, d: Doc): real
    requires NormSq(query) > 0.0 && NormSq(d.rec.embedding) > 0.0
  {
    CosineSimilarity(env, query, d.rec.embedding) * (d.rec.strength * (1.0 - TimeDecay(env, now, d.rec.timestamp)))
  }

  /** A record less than a day old scores its similarity times its stored strength. */
  lemma FreshScore(env: Env, query: Embedding, now: int, d: Doc)
    requires ValidEnv(env)
    requires NormSq(query) > 0.0 && NormSq(d.rec.embedding) > 0.0
    requires 0 <= now - d.rec.timestamp < 86400
    ensures Score(env, query, now, d) == env.cosine(query, d.rec.embedding) * d.rec.strength
  {
    FreshRecordUndecayed(env, now, d.rec.timestamp);
  }

  /**
    The sort key: the score of a candidate. `Scorable` makes every candidate
    take the first branch; the second only gives the key a value elsewhere.
   */
  function ScoreKey(env: Env, query: Embedding, now: int): (key: Doc -> real)
    ensures forall d: Doc :: NormSq(query) > 0.0 && NormSq(d.rec.embedding) > 0.0 ==> key(d) == Score(env, query, now, d)
  {
    (d: Doc) => if NormSq(query) > 0.0 && NormSq(d.rec.embedding) > 0.0 then Score(env, query, now, d) else 0.0
  }

  /**
    `retrieve_memories`: score every candidate, sort by score (highest first,
    ties in natural order) and keep `[:top_k]`.
   */
  function RetrieveMemories(env: Env, c: Collection, query: Embedding, owner: string, topK: int,
                            types: Option<seq<MemoryType>>, range: Option<(int, int)>, now: int): (docs: seq<Doc>)
    requires Scorable(c, query, owner, types, range)
    ensures var n := |Candidates(c, owner, types, range)|;
      topK >= 0 ==> |docs| == if topK < n then topK else n
    ensures var n := |Candidates(c, owner, types, range)|;
      topK < 0 ==> |docs| == if n + topK > 0 then n + topK else 0
    ensures KeepsBest(docs, Candidates(c, owner, types, range), ScoreKey(env, query, now))
    ensures KeepsTieOrder(docs, Candidates(c, owner, types, range), ScoreKey(env, query, now))
    ensures forall k :: 0 <= k < |docs| ==>
      (Candidate(docs[k], owner, types, range) && docs[k].id in c.records && docs[k].rec == c.records[docs[k].id])
    ensures |docs| > 0 ==> NormSq(query) > 0.0
    ensures forall k :: 0 <= k < |docs| ==> NormSq(docs[k].rec.embedding) > 0.0
    ensures forall j, k :: 0 <= j < k < |docs| ==>
      Score(env, query, now, docs[j]) >= Score(env, query, now, docs[k])
    ensures |Candidates(c, owner, types, range)| == 0 ==> docs == []
    ensures topK >= |Candidates(c, owner, types, range)| ==> multiset(docs) == multiset(Candidates(c, owner, types, range))
  {
    var cands := Candidates(c, owner, types, range);
    if |cands| == 0 then []
    else
      var top := TopK(cands, ScoreKey(env, query, now), topK);
      RankedAreCandidates(c, query, owner, types, range, cands, top);
      RankedByScore(env, query, now, top);
      top
  }

  /** The ranked candidates are stored candidates with nonzero embeddings. */
  lemma RankedAreCandidates(c: Collection, query: Embedding, owner: string, types: Option<seq<MemoryType>>,
                            range: Option<(int, int)>, cands: seq<Doc>, top: seq<Doc>)
    requires Scorable(c, query, owner, types, range)
    requires forall k :: 0 <= k < |cands| ==>
      (Candidate(cands[k], owner, types, range) && cands[k].id in c.records && cands[k].rec == c.records[cands[k].id])
    requires forall k :: 0 <= k < |top| ==> top[k] in cands
    ensures forall k :: 0 <= k < |top| ==>
      (Candidate(top[k], owner, types, range) && top[k].id in c.records && top[k].rec == c.records[top[k].id])
    ensures |top| > 0 ==> NormSq(query) > 0.0
    ensures forall k :: 0 <= k < |top| ==> NormSq(top[k].rec.embedding) > 0.0
  {
    forall k | 0 <= k < |top|
      ensures Candidate(top[k], owner, types, range) && top[k].id in c.records && top[k].rec == c.records[top[k].id]
    {
      assert top[k] in cands;
      var j :| 0 <= j < |cands| && cands[j] == top[k];
    }
    forall k | 0 <= k < |top|
      ensures NormSq(query) > 0.0 && NormSq(top[k].rec.embedding) > 0.0
    {
      var d := top[k];
      assert Candidate(Doc(d.id, c.records[d.id]), owner, types, range);
    }
    if |top| > 0 {
      assert NormSq(query) > 0.0 && NormSq(top[0].rec.embedding) > 0.0;
    }
  }

  /** The ranked candidates are in descending score order. */
  lemma RankedByScore(env: Env, query: Embedding, now: int, top: seq<Doc>)
    requires SortedDesc(top, ScoreKey(env, query, now))
    requires |top| > 0 ==> NormSq(query) > 0.0
    requires forall k :: 0 <= k < |top| ==> NormSq(top[k].rec.embedding) > 0.0
    ensures forall j, k :: 0 <= j < k < |top| ==>
      Score(env, query, now, top[j]) >= Score(env, query, now, top[k])
  {
    var key := ScoreKey(env, query, now);
    forall i, k | 0 <= i < k < |top|
      ensures Score(env, query, now, top[i]) >= Score(env, query, now, top[k])
    {
      assert key(top[i]) >= key(top[k]);
    }
  }

  /** A document of the analyzer's short- or long-term collection as `get_user_history` reads it. */
  datatype HistoryDoc = HistoryDoc(
    content: string,
    timestamp: int,
    hasOccurrenceCount: bool,
    importance: Option<real>,
    keyPoints: Option<seq<string>>)

  datatype Term = Stm | Ltm

  /** One formatted history entry. */
  datatype Entry = Entry(content: string, timestamp: int, term: Term, importance: real, keyPoints: seq<string>)

  /** The per-document dict: tagged `'stm'` iff the document has `occurrence_count`; defaults 0.0 and `[]`. */
  function Format(d: HistoryDoc): (e: Entry)
    ensures e.term == Stm <==> d.hasOccurrenceCount
    ensures e.content == d.content && e.timestamp == d.timestamp
  {
    Entry(d.content, d.timestamp,
      if d.hasOccurrenceCount then Stm else Ltm,
      d.importance.GetOr(0.0), d.keyPoints.GetOr([]))
  }

  function EntryTime(e: Entry): real
  {
    e.timestamp as real
  }

  /** The two fetched lists, short-term first, each document formatted. */
  function Entries(stm: seq<HistoryDoc>, ltm: seq<HistoryDoc>): (es: seq<Entry>)
    ensures |es| == |stm| + |ltm|
    ensures forall k :: 0 <= k < |es| ==> es[k] == Format((stm + ltm)[k])
  {
    var all := stm + ltm;
    seq(|all|, k requires 0 <= k < |all| => Format(all[k]))
  }

  /**
    `get_user_history`: the two fetched lists (short-term first), formatted,
    sorted newest first (stable) and cut to `[:limit]`.
   */
  function GetUserHistory(stm: seq<HistoryDoc>, ltm: seq<HistoryDoc>, limit: int): (r: seq<Entry>)
    ensures limit >= 0 ==> |r| == if limit < |stm| + |ltm| then limit else |stm| + |ltm|
    ensures limit < 0 ==> |r| == if |stm| + |ltm| + limit > 0 then |stm| + |ltm| + limit else 0
    ensures forall j, k :: 0 <= j < k < |r| ==> r[j].timestamp >= r[k].timestamp
    ensures KeepsBest(r, Entries(stm, ltm), EntryTime)
    ensures KeepsTieOrder(r, Entries(stm, ltm), EntryTime)
    ensures forall k :: 0 <= k < |r| ==> r[k] in Entries(stm, ltm)
  {
    var r := TopK(Entries(stm, ltm), EntryTime, limit);
    assert forall j, k :: 0 <= j < k < |r| ==> EntryTime(r[j]) >= EntryTime(r[k]);
    r
  }

  /** The lines one retrieved document contributes: its key points if it has any, else its content. */
  function Lines(d: Doc): (ls: seq<string>)
    ensures |ls| >= 1
  {
    if |d.rec.keyPoints| > 0 then d.rec.keyPoints else [d.rec.content]
  }

  /** The context lines of the retrieved documents, in retrieval order. */
  function ContextParts(docs: seq<Doc>): seq<string>
    decreases |docs|
  {
    if |docs| == 0 then [] else Lines(docs[0]) + ContextParts(docs[1..])
  }

  /** The lines of a concatenation are the concatenated lines. */
  lemma {:induction false} ContextPartsAppend(a: seq<Doc>, b: seq<Doc>)
    ensures ContextParts(a + b) == ContextParts(a) + ContextParts(b)
    decreases |a|
  {
    if |a| == 0 {
      assert a + b == b;
    } else {
      assert (a + b)[0] == a[0] && (a + b)[1..] == a[1..] + b;
      ContextPartsAppend(a[1..], b);
    }
  }

  /** Every document contributes at least one line, so there are at least as many lines as documents. */
  lemma {:induction false} ContextPartsLength(docs: seq<Doc>)
    ensures |ContextParts(docs)| >= |docs|
    decreases |docs|
  {
    if |docs| > 0 {
      ContextPartsLength(docs[1..]);
    }
  }

  /** Without key points, the context lines are exactly the contents in retrieval order. */
  lemma {:induction false} ContextWithoutKeyPoints(docs: seq<Doc>)
    requires forall k :: 0 <= k < |docs| ==> |docs[k].rec.keyPoints| == 0
    ensures ContextParts(docs) == seq(|docs|, k requires 0 <= k < |docs| => docs[k].rec.content)
    decreases |docs|
  {
    if |docs| > 0 {
      ContextWithoutKeyPoints(docs[1..]);
    }
  }

  /** The context text of some retrieved documents: nothing, or their lines joined by newlines. */
  function Context(docs: seq<Doc>): (s: string)
    ensures |docs| == 0 ==> s == ""
  {
    if |docs| == 0 then "" else Join(ContextParts(docs), "\n")
  }

  /** One document's context is its key points, one per line, or else its content. */
  lemma ContextOfOne(d: Doc)
    ensures |d.rec.keyPoints| > 0 ==> Context([d]) == Join(d.rec.keyPoints, "\n")
    ensures |d.rec.keyPoints| == 0 ==> Context([d]) == d.rec.content
  {
    assert [d][1..] == [];
    assert ContextParts([d]) == Lines(d);
  }

  /** The context of two batches of documents is the first's context, a newline, then the second's. */
  lemma ContextAppend(a: seq<Doc>, b: seq<Doc>)
    requires |a| > 0 && |b| > 0
    ensures Context(a + b) == Context(a) + "\n" + Context(b)
  {
    ContextPartsAppend(a, b);
    ContextPartsLength(a);
    ContextPartsLength(b);
    JoinAppend(ContextParts(a), ContextParts(b), "\n");
  }

  /** When no line holds a newline, splitting the context on newlines gives the lines back. */
  lemma ContextSplits(docs: seq<Doc>)
    requires |docs| > 0
    requires forall k :: 0 <= k < |ContextParts(docs)| ==> '\n' !in ContextParts(docs)[k]
    ensures SplitOn(Context(docs), '\n') == ContextParts(docs)
  {
    ContextPartsLength(docs);
    SplitJoin(ContextParts(docs), '\n');
  }

  /** `get_memory_context`: the context of what `retrieve_memories` returns for the query. */
  function GetMemoryContext(env: Env, c: Collection, query: Embedding, owner: string, window: int, now: int): (s: string)
    requires Scorable(c, query, owner, None, None)
    ensures s == Context(RetrieveMemories(env, c, query, owner, window, None, None, now))
    ensures |RetrieveMemories(env, c, query, owner, window, None, None, now)| == 0 ==> s == ""
  {
    Context(RetrieveMemories(env, c, query, owner, window, None, None, now))
  }
}
