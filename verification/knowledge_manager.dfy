/**
  The knowledge manager: learn knowledge from the text files of a directory
  (split, processed by the language model with a plain fallback, stored in
  the `knowledge_base` collection and routed to the memory system's
  `knowledge` source), and read it back.

  The file system and the model are parameters: the directory is a flag and
  a list of file entries (a file that cannot be read has no content), and
  the model's reply to a piece is given by a function from the piece to its
  decoded fields. Splitting uses the intended chunker of `Chunker`.
 */
module KnowledgeManager {
  import opened Wrappers
  import opened Metadata
  import opened Foreign
  import opened Text
  import opened Sorting
  import opened Chunker
  import MultiSource
  import OrderedMaps

  /** The configuration `learn_from_files` and `_split_content` read. */
  datatype Config = Config(extensions: seq<string>, chunkSize: int, overlap: int)

  /** `_load_config`'s defaults. */
  const DefaultConfig: Config := Config([".txt"], 1000, 200)

  /** One file found under the knowledge directory: its path, its name, and its text when it can be read. */
  datatype FileEntry = FileEntry(path: string, name: string, content: Option<string>)

  /** The fields of a decoded reply; an absent key is `None`. */
  datatype Processed = Processed(
    content: Option<string>,
    category: Option<string>,
    keyPoints: Option<seq<string>>,
    confidence: Option<real>)

  /** A document of the `knowledge_base` collection. */
  datatype KnowledgeDoc = KnowledgeDoc(content: string, metadata: Meta, owner: string, createdAt: int)

  /** Why one piece or one file was not learnt. */
  datatype ChunkFailure =
    | MissingField                              // `KeyError` reading the processed result
    | StoreFailed(e: MultiSource.RouteError)    // raised by the memory system's `add_memory`

  datatype Issue = ChunkFailed(why: ChunkFailure) | FileFailed(name: string)

  /** `learn_from_files`'s result dictionary. */
  datatype LearnStats = LearnStats(
    totalFiles: nat,
    processedFiles: nat,
    totalChunks: nat,
    successfulChunks: nat,
    errors: seq<Issue>)

  datatype Learned = Learned(kb: seq<KnowledgeDoc>, reg: MultiSource.Registry, stats: LearnStats)

  /** The directory does not exist: `FileNotFoundError`. */
  datatype LearnError = DirectoryMissing

  /**
    `_process_knowledge`: the decoded reply as it is, or, when the reply is
    not JSON, the piece itself under category `general` with no key points
    and confidence 0.5.
   */
  function ProcessKnowledge(piece: string, reply: Option<Processed>): (p: Processed)
    ensures reply.Some? ==> p == reply.value
    ensures reply.None? ==> p == Processed(Some(piece), Some("general"), Some([]), Some(0.5))
  {
    match reply
    case Some(q) => q
    case None => Processed(Some(piece), Some("general"), Some([]), Some(0.5))
  }

  /** All four keys `learn_from_files` reads are present. */
  predicate Complete(p: Processed)
  {
    p.content.Some? && p.category.Some? && p.keyPoints.Some? && p.confidence.Some?
  }

  /** The fallback is always complete and keeps the piece verbatim. */
  lemma FallbackKeepsPiece(piece: string)
    ensures Complete(ProcessKnowledge(piece, None))
    ensures ProcessKnowledge(piece, None).content == Some(piece)
  {
  }

  /** The metadata stored with a learnt piece. */
  function KnowledgeMeta(path: string, p: Processed): (m: Meta)
    requires Complete(p)
    ensures m.Keys == {"source_file", "category", "key_points", "confidence"}
    ensures m["source_file"] == Text(path) && m["category"] == Text(p.category.value)
    ensures m["key_points"] == Texts(p.keyPoints.value) && m["confidence"] == Num(p.confidence.value)
  {
    map["source_file" := Text(path), "category" := Text(p.category.value),
        "key_points" := Texts(p.keyPoints.value), "confidence" := Num(p.confidence.value)]
  }

  /**
    `_store_knowledge`: insert into `knowledge_base`, then add to the memory
    system under the source name `knowledge`. The insert is kept even when
    the second step raises.
   */
  function StoreKnowledge(env: Env, kb: seq<KnowledgeDoc>, reg: MultiSource.Registry, content: string, m: Meta,
                          owner: string, now: int): (r: (seq<KnowledgeDoc>, Result<MultiSource.Registry, MultiSource.RouteError>))
    requires MultiSource.WellFormed(reg)
    ensures r.0 == kb + [KnowledgeDoc(content, m, owner, now)]
    ensures "knowledge" !in reg.entries ==> r.1 == Failure(MultiSource.UnknownSource("knowledge"))
    ensures r.1.Success? ==> MultiSource.WellFormed(r.1.value) && r.1.value.keys == reg.keys
  {
    (kb + [KnowledgeDoc(content, m, owner, now)], MultiSource.AddMemory(env, reg, content, owner, "knowledge", m, now))
  }

  /** A stored piece reaches the `knowledge` source and no other one. */
  lemma StoreRoutesToKnowledge(env: Env, kb: seq<KnowledgeDoc>, reg: MultiSource.Registry, content: string, m: Meta,
                               owner: string, now: int)
    requires MultiSource.WellFormed(reg)
    ensures var r := StoreKnowledge(env, kb, reg, content, m, owner, now);
      r.1.Success? ==>
        && "knowledge" in reg.entries && "knowledge" in r.1.value.entries
        && |r.1.value.entries["knowledge"].c.records| == |reg.entries["knowledge"].c.records| + 1
        && forall n :: n in reg.entries && n != "knowledge" ==> n in r.1.value.entries && r.1.value.entries[n] == reg.entries[n]
  {
  }

  /**
    One piece of `learn_from_files`: process it, read the four keys (a
    missing one raises before anything is stored), and store it. The issue
    is the exception the loop catches, if any.
   */
  function LearnPiece(env: Env, kb: seq<KnowledgeDoc>, reg: MultiSource.Registry, path: string, piece: string,
                      reply: Option<Processed>, owner: string, now: int)
    : (r: (seq<KnowledgeDoc>, MultiSource.Registry, Option<ChunkFailure>))
    requires MultiSource.WellFormed(reg)
    ensures MultiSource.WellFormed(r.1)
    ensures r.2 == Some(MissingField) <==> !Complete(ProcessKnowledge(piece, reply))
    ensures r.2 == Some(MissingField) ==> r.0 == kb && r.1 == reg
    ensures r.2 != Some(MissingField) ==> |r.0| == |kb| + 1 && r.0[..|kb|] == kb
    ensures r.2 != Some(MissingField) ==> r.0[|kb|].content == ProcessKnowledge(piece, reply).content.value
    ensures r.2.Some? && r.2 != Some(MissingField) ==> r.1 == reg
  {
    var p := ProcessKnowledge(piece, reply);
    if !Complete(p) then (kb, reg, Some(MissingField))
    else
      var (kb', routed) := StoreKnowledge(env, kb, reg, p.content.value, KnowledgeMeta(path, p), owner, now);
      assert kb'[..|kb|] == kb;
      match routed
      case Failure(e) => (kb', reg, Some(StoreFailed(e)))
      case Success(reg') => (kb', reg', None)
  }

  /** `any(file.endswith(ext) for ext in file_extensions)`. */
  predicate Selected(f: FileEntry, exts: seq<string>)
  {
    exists k :: 0 <= k < |exts| && EndsWith(f.name, exts[k])
  }

  /** The number of pieces a file's text is cut into; 0 for an unreadable file. */
  function PieceCount(f: FileEntry, cfg: Config): nat
    requires 0 <= cfg.overlap < cfg.chunkSize
  {
    if f.content.Some? then |SplitContent(f.content.value, cfg.chunkSize, cfg.overlap)| else 0
  }

  /** The selected files. */
  function SelectedCount(fs: seq<FileEntry>, exts: seq<string>): nat
    decreases |fs|
  {
    if |fs| == 0 then 0
    else SelectedCount(fs[..|fs| - 1], exts) + (if Selected(fs[|fs| - 1], exts) then 1 else 0)
  }

  /** The selected files that can be read. */
  function ReadableCount(fs: seq<FileEntry>, exts: seq<string>): nat
    decreases |fs|
  {
    if |fs| == 0 then 0
    else ReadableCount(fs[..|fs| - 1], exts)
         + (if Selected(fs[|fs| - 1], exts) && fs[|fs| - 1].content.Some? then 1 else 0)
  }

  /** The pieces of all selected files. */
  function PieceTotal(fs: seq<FileEntry>, cfg: Config): nat
    requires 0 <= cfg.overlap < cfg.chunkSize
    decreases |fs|
  {
    if |fs| == 0 then 0
    else PieceTotal(fs[..|fs| - 1], cfg) + (if Selected(fs[|fs| - 1], cfg.extensions) then PieceCount(fs[|fs| - 1], cfg) else 0)
  }

  /**
    `learn_from_files`: for every selected file, count it; if it reads,
    count its pieces, learn each (a failure is recorded and the loop goes
    on) and count the file as processed; if it does not, record the
    failure. Every file or piece that was counted but not processed left
    exactly one error behind.
   */
  method LearnFromFiles(env: Env, kb: seq<KnowledgeDoc>, reg: MultiSource.Registry, dirExists: bool,
                        files: seq<FileEntry>, cfg: Config, owner: string,
                        reply: string -> Option<Processed>, now: int)
    returns (r: Result<Learned, LearnError>)
    requires MultiSource.WellFormed(reg)
    requires 0 <= cfg.overlap < cfg.chunkSize
    ensures !dirExists <==> r == Failure(DirectoryMissing)
    ensures r.Success? ==> r.value.stats.totalFiles == SelectedCount(files, cfg.extensions)
    ensures r.Success? ==> r.value.stats.processedFiles == ReadableCount(files, cfg.extensions)
    ensures r.Success? ==> r.value.stats.totalChunks == PieceTotal(files, cfg)
    ensures r.Success? ==> r.value.stats.processedFiles <= r.value.stats.totalFiles
    ensures r.Success? ==> r.value.stats.successfulChunks <= r.value.stats.totalChunks
    ensures r.Success? ==> (|r.value.stats.errors| ==
      (r.value.stats.totalFiles - r.value.stats.processedFiles) + (r.value.stats.totalChunks - r.value.stats.successfulChunks))
    ensures r.Success? ==> MultiSource.WellFormed(r.value.reg)
    ensures r.Success? ==> |kb| + r.value.stats.successfulChunks <= |r.value.kb| <= |kb| + r.value.stats.totalChunks
  {
    if !dirExists {
      return Failure(DirectoryMissing);
    }
    var docs, sources := kb, reg;
    var totalFiles, processedFiles, totalChunks, successfulChunks := 0, 0, 0, 0;
    var errors: seq<Issue> := [];
    var i := 0;
    while i < |files|
      invariant 0 <= i <= |files|
      invariant totalFiles == SelectedCount(files[..i], cfg.extensions)
      invariant processedFiles == ReadableCount(files[..i], cfg.extensions)
      invariant totalChunks == PieceTotal(files[..i], cfg)
      invariant processedFiles <= totalFiles && successfulChunks <= totalChunks
      invariant |errors| == (totalFiles - processedFiles) + (totalChunks - successfulChunks)
      invariant MultiSource.WellFormed(sources)
      invariant |kb| + successfulChunks <= |docs| <= |kb| + totalChunks
    {
      var f := files[i];
      assert files[..i + 1][..i] == files[..i];
      if Selected(f, cfg.extensions) {
        totalFiles := totalFiles + 1;
        if f.content.Some? {
          var pieces := SplitContent(f.content.value, cfg.chunkSize, cfg.overlap);
          totalChunks := totalChunks + |pieces|;
          var j := 0;
          while j < |pieces|
            invariant 0 <= j <= |pieces|
            invariant successfulChunks <= totalChunks - |pieces| + j
            invariant |errors| == (totalFiles - 1 - processedFiles) + (totalChunks - |pieces| + j - successfulChunks)
            invariant MultiSource.WellFormed(sources)
            invariant |kb| + successfulChunks <= |docs| <= |kb| + totalChunks - |pieces| + j
          {
            var (docs', sources', failure) := LearnPiece(env, docs, sources, f.path, pieces[j], reply(pieces[j]), owner, now);
            docs, sources := docs', sources';
            match failure {
              case None => successfulChunks := successfulChunks + 1;
              case Some(why) => errors := errors + [ChunkFailed(why)];
            }
            j := j + 1;
          }
          processedFiles := processedFiles + 1;
        } else {
          errors := errors + [FileFailed(f.name)];
        }
      }
      i := i + 1;
    }
    assert files[..|files|] == files;
    r := Success(Learned(docs, sources, LearnStats(totalFiles, processedFiles, totalChunks, successfulChunks, errors)));
  }

  /** With no selected file nothing is learnt and nothing goes wrong. */
  lemma {:induction false} NothingSelected(files: seq<FileEntry>, cfg: Config)
    requires 0 <= cfg.overlap < cfg.chunkSize
    requires forall k :: 0 <= k < |files| ==> !Selected(files[k], cfg.extensions)
    ensures SelectedCount(files, cfg.extensions) == 0 && ReadableCount(files, cfg.extensions) == 0
    ensures PieceTotal(files, cfg) == 0
    decreases |files|
  {
    if |files| > 0 {
      NothingSelected(files[..|files| - 1], cfg);
    }
  }

  /** `get_knowledge`'s dictionaries. */
  datatype KnowledgeHit = KnowledgeHit(content: string, metadata: Meta, strength: real)

  function AsKnowledge(hits: seq<MultiSource.Hit>): (r: seq<KnowledgeHit>)
    ensures |r| == |hits|
    ensures forall k :: 0 <= k < |hits| ==>
      r[k] == KnowledgeHit(hits[k].doc.rec.content, hits[k].doc.rec.metadata, hits[k].doc.rec.strength)
  {
    seq(|hits|, k requires 0 <= k < |hits| => KnowledgeHit(hits[k].doc.rec.content, hits[k].doc.rec.metadata, hits[k].doc.rec.strength))
  }

  /** `h` is the content, metadata and strength of one of the user's records in the `knowledge` source. */
  ghost predicate StoredKnowledge(reg: MultiSource.Registry, owner: string, h: KnowledgeHit)
  {
    && "knowledge" in reg.entries
    && exists id :: (&& id in reg.entries["knowledge"].c.records
                     && reg.entries["knowledge"].c.records[id].owner == owner
                     && h == KnowledgeHit(reg.entries["knowledge"].c.records[id].content,
                                          reg.entries["knowledge"].c.records[id].metadata,
                                          reg.entries["knowledge"].c.records[id].strength))
  }

  /** What the `knowledge` source answers `get_knowledge`'s query with, before the strength sort and cut. */
  function KnowledgeFetch(reg: MultiSource.Registry, query: string, owner: string, limit: int): seq<MultiSource.Hit>
    requires OrderedMaps.Valid(reg)
  {
    MultiSource.Fetch(reg, MultiSource.Selected(reg, Some(["knowledge"])), query, owner, limit, None)
  }

  /**
    The hits `get_knowledge` keeps: the strongest of the `knowledge` source's
    answers, strongest first, as many as `limit` allows.
   */
  function KnowledgeHits(reg: MultiSource.Registry, query: string, owner: string, limit: int): (hits: seq<MultiSource.Hit>)
    requires OrderedMaps.Valid(reg)
    ensures SortedDesc(hits, MultiSource.StrengthKey)
    ensures KeepsBest(hits, KnowledgeFetch(reg, query, owner, limit), MultiSource.StrengthKey)
    ensures KeepsTieOrder(hits, KnowledgeFetch(reg, query, owner, limit), MultiSource.StrengthKey)
    ensures var n := |KnowledgeFetch(reg, query, owner, limit)|;
      limit >= 0 ==> |hits| == if limit < n then limit else n
    ensures var n := |KnowledgeFetch(reg, query, owner, limit)|;
      limit < 0 ==> |hits| == if n + limit > 0 then n + limit else 0
    ensures forall k :: 0 <= k < |hits| ==> MultiSource.FromSource(reg, hits[k], owner, None) && hits[k].source == "knowledge"
  {
    var hits := MultiSource.GetMemories(reg, query, owner, Some(["knowledge"]), limit, None);
    OnlyKnowledge(reg, hits);
    hits
  }

  /** Hits of the sources selected by the name `knowledge` all come from that source. */
  lemma OnlyKnowledge(reg: MultiSource.Registry, hits: seq<MultiSource.Hit>)
    requires OrderedMaps.Valid(reg)
    requires forall k :: 0 <= k < |hits| ==> hits[k].source in MultiSource.Selected(reg, Some(["knowledge"]))
    ensures forall k :: 0 <= k < |hits| ==> hits[k].source == "knowledge"
  {
    var sel := MultiSource.Selected(reg, Some(["knowledge"]));
    forall k | 0 <= k < |hits|
      ensures hits[k].source == "knowledge"
    {
      assert hits[k].source in sel;
      var j :| 0 <= j < |sel| && sel[j] == hits[k].source;
      assert sel[j] in ["knowledge"];
    }
  }

  /**
    `get_knowledge`: the user's memories from the `knowledge` source only,
    strongest first, as many as `limit` allows.
   */
  function GetKnowledge(reg: MultiSource.Registry, query: string, owner: string, limit: int): (r: seq<KnowledgeHit>)
    requires MultiSource.WellFormed(reg)
    ensures r == AsKnowledge(KnowledgeHits(reg, query, owner, limit))
    ensures |r| == |KnowledgeHits(reg, query, owner, limit)|
    ensures forall k :: 0 <= k < |r| - 1 ==> r[k].strength >= r[k + 1].strength
  {
    var hits := KnowledgeHits(reg, query, owner, limit);
    var r := AsKnowledge(hits);
    forall k | 0 <= k < |r| - 1
      ensures r[k].strength >= r[k + 1].strength
    {
      assert MultiSource.StrengthKey(hits[k]) >= MultiSource.StrengthKey(hits[k + 1]);
    }
    r
  }

  /** Everything `get_knowledge` returns is one of the user's records in the `knowledge` source. */
  lemma KnowledgeComesFromKnowledgeSource(reg: MultiSource.Registry, query: string, owner: string, limit: int)
    requires MultiSource.WellFormed(reg)
    ensures forall k :: 0 <= k < |GetKnowledge(reg, query, owner, limit)| ==>
      StoredKnowledge(reg, owner, GetKnowledge(reg, query, owner, limit)[k])
  {
    HitsAreStoredKnowledge(reg, owner, KnowledgeHits(reg, query, owner, limit));
  }

  /** Hits from the `knowledge` source, converted, are stored knowledge records of the owner. */
  lemma HitsAreStoredKnowledge(reg: MultiSource.Registry, owner: string, hits: seq<MultiSource.Hit>)
    requires forall k :: 0 <= k < |hits| ==> MultiSource.FromSource(reg, hits[k], owner, None)
    requires forall k :: 0 <= k < |hits| ==> hits[k].source == "knowledge"
    ensures forall k :: 0 <= k < |AsKnowledge(hits)| ==> StoredKnowledge(reg, owner, AsKnowledge(hits)[k])
  {
    var r := AsKnowledge(hits);
    forall k | 0 <= k < |r|
      ensures StoredKnowledge(reg, owner, r[k])
    {
      var id := hits[k].doc.id;
      assert id in reg.entries["knowledge"].c.records;
      assert r[k] == KnowledgeHit(reg.entries["knowledge"].c.records[id].content,
                                  reg.entries["knowledge"].c.records[id].metadata,
                                  reg.entries["knowledge"].c.records[id].strength);
    }
  }

  /** `get_knowledge_stats`'s result. */
  datatype KnowledgeStats = KnowledgeStats(total: nat, categoryCounts: map<Value, nat>, latest: Option<int>)

  /** The user's documents of `knowledge_base`, in insertion order. */
  function Owned(kb: seq<KnowledgeDoc>, owner: string): (docs: seq<KnowledgeDoc>)
    ensures forall k :: 0 <= k < |docs| ==> docs[k].owner == owner && docs[k] in kb
    ensures forall k :: 0 <= k < |kb| && kb[k].owner == owner ==> kb[k] in docs
  {
    Filter(kb, (d: KnowledgeDoc) => d.owner == owner)
  }

  /** The documents whose `metadata.category` is `v`. */
  function InCategory(docs: seq<KnowledgeDoc>, v: Value): (n: nat)
    ensures n <= |docs|
    ensures n > 0 <==> exists k :: 0 <= k < |docs| && "category" in docs[k].metadata && docs[k].metadata["category"] == v
    decreases |docs|
  {
    if |docs| == 0 then 0
    else
      assert forall k :: 1 <= k < |docs| ==> docs[1..][k - 1] == docs[k];
      (if "category" in docs[0].metadata && docs[0].metadata["category"] == v then 1 else 0) + InCategory(docs[1..], v)
  }

  /** `distinct('metadata.category')`: the categories the documents carry. */
  function Categories(docs: seq<KnowledgeDoc>): (cs: set<Value>)
    ensures forall v :: v in cs <==> exists k :: 0 <= k < |docs| && "category" in docs[k].metadata && docs[k].metadata["category"] == v
  {
    set k | 0 <= k < |docs| && "category" in docs[k].metadata :: docs[k].metadata["category"]
  }

  /** The newest creation time, if any. */
  function Newest(docs: seq<KnowledgeDoc>): (t: Option<int>)
    ensures t.None? <==> |docs| == 0
    ensures t.Some? ==> (exists k :: 0 <= k < |docs| && docs[k].createdAt == t.value)
    ensures t.Some? ==> forall k :: 0 <= k < |docs| ==> docs[k].createdAt <= t.value
    decreases |docs|
  {
    if |docs| == 0 then None
    else
      assert forall k :: 1 <= k < |docs| ==> docs[1..][k - 1] == docs[k];
      match Newest(docs[1..])
      case None => Some(docs[0].createdAt)
      case Some(t) => Some(if docs[0].createdAt >= t then docs[0].createdAt else t)
  }

  /**
    `get_knowledge_stats`: how many documents the user has, how many in each
    category present, and the newest creation time (`None` when there are
    none).
   */
  function GetKnowledgeStats(kb: seq<KnowledgeDoc>, owner: string): (s: KnowledgeStats)
    ensures s.total == |Owned(kb, owner)|
    ensures s.latest == Newest(Owned(kb, owner))
    ensures s.latest.None? <==> s.total == 0
    ensures forall v :: v in s.categoryCounts <==> v in Categories(Owned(kb, owner))
    ensures forall v :: v in s.categoryCounts ==> 0 < s.categoryCounts[v] <= s.total
    ensures forall v :: v in s.categoryCounts ==> s.categoryCounts[v] == InCategory(Owned(kb, owner), v)
  {
    var docs := Owned(kb, owner);
    KnowledgeStats(|docs|, map v | v in Categories(docs) :: InCategory(docs, v), Newest(docs))
  }
}
