/**
  The knowledge manager's chunker, `_split_content`: cut a text into pieces
  of at most `chunk_size` characters, each starting `overlap` characters
  before the previous one ended.

  As written the loop runs `while start < len(content)` and sets
  `start = end - overlap` after every piece, so once a piece reaches the end
  of the text the next start is `len - overlap`, still below `len`: with a
  positive overlap it never stops on a non-empty text. `SplitAsWritten`
  models that loop with a fuel bound and `AsWrittenNeverFinishes` shows no
  bound is enough. `SplitContent` is the evidently intended chunker, which
  stops after the piece that reaches the end of the text.
 */
module Chunker {
  import opened Wrappers

  /** A Python slice bound: negative counts from the end, and both ends are clamped to the text. */
  function PyIndex(i: int, n: nat): (r: nat)
    ensures r <= n
    ensures 0 <= i <= n ==> r == i
    ensures i > n ==> r == n
    ensures i < 0 ==> r == (if n + i < 0 then 0 else n + i)
  {
    if i < 0 then (if n + i < 0 then 0 else n + i) else if i > n then n else i
  }

  /** `s[i:j]`. */
  function PySlice(s: string, i: int, j: int): (r: string)
    ensures 0 <= i <= j <= |s| ==> r == s[i..j]
    ensures |r| <= |s|
  {
    var a, b := PyIndex(i, |s|), PyIndex(j, |s|);
    if a < b then s[a..b] else []
  }

  function Min(a: int, b: int): int
  {
    if a < b then a else b
  }

  /**
    The loop of `_split_content` from `start`, allowed `fuel` more pieces:
    `Some` of the pieces when it stops within the bound, `None` when it
    would need more.
   */
  function SplitLoop(content: string, chunkSize: int, overlap: int, start: int, fuel: nat): Option<seq<string>>
    decreases fuel
  {
    if start >= |content| then Some([])
    else if fuel == 0 then None
    else
      var end := Min(start + chunkSize, |content|);
      match SplitLoop(content, chunkSize, overlap, end - overlap, fuel - 1)
      case None => None
      case Some(rest) => Some([PySlice(content, start, end)] + rest)
  }

  /** `_split_content` as written, bounded by `fuel` pieces. */
  function SplitAsWritten(content: string, chunkSize: int, overlap: int, fuel: nat): (r: Option<seq<string>>)
    ensures |content| == 0 ==> r == Some([])
  {
    SplitLoop(content, chunkSize, overlap, 0, fuel)
  }

  /** Once the loop is inside the text with a positive overlap, it never leaves it. */
  lemma {:induction false} LoopNeverFinishes(content: string, chunkSize: int, overlap: int, start: int, fuel: nat)
    requires overlap > 0 && start < |content|
    ensures SplitLoop(content, chunkSize, overlap, start, fuel) == None
    decreases fuel
  {
    if fuel > 0 {
      var end := Min(start + chunkSize, |content|);
      LoopNeverFinishes(content, chunkSize, overlap, end - overlap, fuel - 1);
    }
  }

  /** A non-empty text with a positive overlap is never split, however many pieces are allowed. */
  lemma AsWrittenNeverFinishes(content: string, chunkSize: int, overlap: int, fuel: nat)
    requires |content| > 0 && overlap > 0
    ensures SplitAsWritten(content, chunkSize, overlap, fuel) == None
  {
    LoopNeverFinishes(content, chunkSize, overlap, 0, fuel);
  }

  /** The default configuration (1000 and 200) never splits the one-character text "a". */
  lemma DefaultConfigDiverges(fuel: nat)
    ensures SplitAsWritten("a", 1000, 200, fuel) == None
  {
    AsWrittenNeverFinishes("a", 1000, 200, fuel);
  }

  /** Where the piece starting at `start` ends. */
  function PieceEnd(n: nat, chunkSize: int, start: nat): (e: nat)
    requires chunkSize > 0 && start < n
    ensures start < e <= n
  {
    if start + chunkSize < n then start + chunkSize else n
  }

  /**
    The intended loop from `start`: the piece `content[start:end]`, and,
    unless it reaches the end of the text, the pieces from `end - overlap`.
   */
  function ChunksFrom(content: string, chunkSize: int, overlap: int, start: nat): (r: seq<string>)
    requires 0 <= overlap < chunkSize && start < |content|
    ensures |r| > 0
    ensures r[0] == content[start..PieceEnd(|content|, chunkSize, start)]
    ensures forall k :: 0 <= k < |r| ==> 0 < |r[k]| <= chunkSize
    ensures forall k :: 0 <= k < |r| - 1 ==> |r[k]| == chunkSize
    ensures forall k :: 1 <= k < |r| ==> |r[k]| > overlap
    decreases |content| - start
  {
    var end := PieceEnd(|content|, chunkSize, start);
    if end == |content| then [content[start..end]]
    else
      var rest := ChunksFrom(content, chunkSize, overlap, end - overlap);
      assert |rest[0]| > overlap;
      var r := [content[start..end]] + rest;
      assert forall k :: 1 <= k < |r| ==> r[k] == rest[k - 1];
      r
  }

  /** The intended `_split_content`: no pieces for an empty text. */
  function SplitContent(content: string, chunkSize: int, overlap: int): (r: seq<string>)
    requires 0 <= overlap < chunkSize
    ensures |content| == 0 <==> |r| == 0
    ensures |content| > 0 ==> r[0] == content[..Min(chunkSize, |content|)]
    ensures forall k :: 0 <= k < |r| ==> 0 < |r[k]| <= chunkSize
  {
    if |content| == 0 then [] else ChunksFrom(content, chunkSize, overlap, 0)
  }

  /** Every piece after the first, with its first `overlap` characters (the repeated ones) dropped. */
  function Tails(pieces: seq<string>, overlap: nat): string
    requires forall k :: 0 <= k < |pieces| ==> |pieces[k]| >= overlap
    decreases |pieces|
  {
    if |pieces| == 0 then [] else pieces[0][overlap..] + Tails(pieces[1..], overlap)
  }

  /** The first piece followed by the new part of every later piece is the text from `start`. */
  lemma {:induction false} ChunksReassemble(content: string, chunkSize: int, overlap: int, start: nat)
    requires 0 <= overlap < chunkSize && start < |content|
    ensures var r := ChunksFrom(content, chunkSize, overlap, start);
      r[0] + Tails(r[1..], overlap) == content[start..]
    decreases |content| - start
  {
    var r := ChunksFrom(content, chunkSize, overlap, start);
    var end := PieceEnd(|content|, chunkSize, start);
    if end < |content| {
      var next := end - overlap;
      var rest := ChunksFrom(content, chunkSize, overlap, next);
      assert r[0] == content[start..end] && r[1..] == rest;
      calc {
        r[0] + Tails(r[1..], overlap);
        content[start..end] + (rest[0][overlap..] + Tails(rest[1..], overlap));
        { DropFromConcat(rest[0], Tails(rest[1..], overlap), overlap); }
        content[start..end] + (rest[0] + Tails(rest[1..], overlap))[overlap..];
        { ChunksReassemble(content, chunkSize, overlap, next); }
        content[start..end] + content[next..][overlap..];
        { assert content[next..][overlap..] == content[end..]; }
        content[start..end] + content[end..];
        content[start..];
      }
    } else {
      assert r == [content[start..end]];
      assert content[start..end] == content[start..];
      assert r[1..] == [];
    }
  }

  /** Dropping a prefix no longer than the first part of a concatenation drops it from that part. */
  lemma DropFromConcat(x: string, y: string, n: nat)
    requires n <= |x|
    ensures (x + y)[n..] == x[n..] + y
  {
  }

  /** Gluing the pieces back, without the repeated characters, gives the text back. */
  lemma SplitReassembles(content: string, chunkSize: int, overlap: int)
    requires 0 <= overlap < chunkSize && |content| > 0
    ensures var r := SplitContent(content, chunkSize, overlap);
      r[0] + Tails(r[1..], overlap) == content
  {
    ChunksReassemble(content, chunkSize, overlap, 0);
  }

  /** Piece `k` ends with the `overlap` characters piece `k + 1` begins with. */
  predicate OverlapAt(r: seq<string>, k: int, chunkSize: int, overlap: int)
    requires 0 <= overlap < chunkSize
  {
    && 0 <= k < |r| - 1
    && |r[k]| >= chunkSize - overlap && |r[k + 1]| >= overlap
    && r[k][chunkSize - overlap..] == r[k + 1][..overlap]
  }

  /** Each piece but the last ends with the `overlap` characters the next one begins with. */
  lemma {:induction false} ChunksOverlap(content: string, chunkSize: int, overlap: int, start: nat)
    requires 0 <= overlap < chunkSize && start < |content|
    ensures forall k :: 0 <= k < |ChunksFrom(content, chunkSize, overlap, start)| - 1 ==>
      OverlapAt(ChunksFrom(content, chunkSize, overlap, start), k, chunkSize, overlap)
    decreases |content| - start
  {
    var r := ChunksFrom(content, chunkSize, overlap, start);
    var end := PieceEnd(|content|, chunkSize, start);
    if end < |content| {
      var next := end - overlap;
      var rest := ChunksFrom(content, chunkSize, overlap, next);
      ChunksOverlap(content, chunkSize, overlap, next);
      assert r[1..] == rest;
      assert r[0][chunkSize - overlap..] == content[next..end];
      assert rest[0][..overlap] == content[next..end];
      assert OverlapAt(r, 0, chunkSize, overlap);
      forall k | 1 <= k < |r| - 1
        ensures OverlapAt(r, k, chunkSize, overlap)
      {
        assert OverlapAt(rest, k - 1, chunkSize, overlap);
        assert r[k] == rest[k - 1] && r[k + 1] == rest[k];
      }
    }
  }

  /** Consecutive pieces of a split share `overlap` characters. */
  lemma SplitOverlaps(content: string, chunkSize: int, overlap: int)
    requires 0 <= overlap < chunkSize
    ensures var r := SplitContent(content, chunkSize, overlap);
      forall k :: 0 <= k < |r| - 1 ==> OverlapAt(r, k, chunkSize, overlap)
  {
    if |content| > 0 {
      ChunksOverlap(content, chunkSize, overlap, 0);
    }
  }

  /**
    Without overlap the loop as written does stop, after at most one piece
    per character, with exactly the intended pieces.
   */
  lemma {:induction false} NoOverlapAgrees(content: string, chunkSize: int, start: nat, fuel: nat)
    requires chunkSize > 0 && start < |content| && fuel >= |content| - start
    ensures SplitLoop(content, chunkSize, 0, start, fuel) == Some(ChunksFrom(content, chunkSize, 0, start))
    decreases |content| - start
  {
    var end := PieceEnd(|content|, chunkSize, start);
    assert Min(start + chunkSize, |content|) == end;
    assert PySlice(content, start, end) == content[start..end];
    if end < |content| {
      NoOverlapAgrees(content, chunkSize, end, fuel - 1);
      assert SplitLoop(content, chunkSize, 0, end - 0, fuel - 1) == Some(ChunksFrom(content, chunkSize, 0, end - 0));
    } else {
      assert fuel > 0;
      assert SplitLoop(content, chunkSize, 0, end - 0, fuel - 1) == Some([]);
      assert [content[start..end]] + [] == [content[start..end]];
    }
  }

  lemma SplitWithoutOverlap(content: string, chunkSize: int, fuel: nat)
    requires chunkSize > 0 && fuel >= |content|
    ensures SplitAsWritten(content, chunkSize, 0, fuel) == Some(SplitContent(content, chunkSize, 0))
  {
    if |content| > 0 {
      NoOverlapAgrees(content, chunkSize, 0, fuel);
    }
  }
}
