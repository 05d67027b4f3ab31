/** Splitting a review payload into bounded chunks (`_utf8_chunks`), and why the
    split is a partition of the payload at code-point boundaries. */
module Chunker {
  import opened Sequences
  import opened Utf8

  const MAX_REVIEW_CHUNK_BYTES := 24000

  datatype Chunk = Chunk(start: nat, end: nat, bytes: Bytes)

  datatype Outcome =
    | Chunks(rows: seq<Chunk>)
    | Undecodable
    | LimitTooSmall

  /** Moves a cut left while it would land inside a code point. */
  function BackOff(p: Bytes, start: nat, end: nat): (cut: nat)
    requires start <= end <= |p|
    ensures start <= cut <= end
    ensures cut == start || Boundary(p, cut)
    ensures forall j :: cut < j <= end ==> !Boundary(p, j)
  {
    if end < |p| && end > start && Continuation(p[end]) then BackOff(p, start, end - 1) else end
  }

  function Cut(p: Bytes, start: nat, limit: nat): (cut: nat)
    requires start <= |p|
    ensures start <= cut <= |p|
  {
    BackOff(p, start, if start + limit <= |p| then start + limit else |p|)
  }

  function Prepend(front: seq<Chunk>, rest: Outcome): Outcome {
    match rest
    case Chunks(rows) => Chunks(front + rows)
    case _ => rest
  }

  function ChunksFrom(p: Bytes, start: nat, limit: nat): Outcome
    requires start <= |p|
    decreases |p| - start
  {
    if start == |p| then Chunks([])
    else
      var end := Cut(p, start, limit);
      if end == start then LimitTooSmall
      else if !WellFormed(p[start..end]) then Undecodable
      else Prepend([Chunk(start, end, p[start..end])], ChunksFrom(p, end, limit))
  }

  function ChunksOf(p: Bytes, limit: nat): Outcome {
    if !WellFormed(p) then Undecodable
    else if p == [] then Chunks([Chunk(0, 0, [])])
    else ChunksFrom(p, 0, limit)
  }

  /** The nested loops of the source; the source fixes `limit` to MAX_REVIEW_CHUNK_BYTES. */
  method SplitUtf8(payload: Bytes, limit: nat) returns (r: Outcome)
    ensures r == ChunksOf(payload, limit)
  {
    var decodable := WellFormed(payload);
    if !decodable { return Undecodable; }
    if payload == [] { return Chunks([Chunk(0, 0, [])]); }
    var chunks: seq<Chunk> := [];
    var start := 0;
    while start < |payload|
      invariant 0 <= start <= |payload|
      invariant ChunksFrom(payload, 0, limit) == Prepend(chunks, ChunksFrom(payload, start, limit))
    {
      var end := if start + limit <= |payload| then start + limit else |payload|;
      while end < |payload| && end > start && Continuation(payload[end])
        invariant start <= end <= |payload|
        invariant BackOff(payload, start, end) == Cut(payload, start, limit)
        decreases end
      {
        end := end - 1;
      }
      if end == start { return LimitTooSmall; }
      var chunk := payload[start..end];
      decodable := WellFormed(chunk);
      if !decodable { return Undecodable; }
      AppendChunk(payload, chunks, start, end, limit);
      chunks := chunks + [Chunk(start, end, chunk)];
      start := end;
    }
    return Chunks(chunks);
  }

  lemma AppendChunk(p: Bytes, chunks: seq<Chunk>, start: nat, end: nat, limit: nat)
    requires start < end <= |p| && end == Cut(p, start, limit) && WellFormed(p[start..end])
    ensures Prepend(chunks, ChunksFrom(p, start, limit))
         == Prepend(chunks + [Chunk(start, end, p[start..end])], ChunksFrom(p, end, limit))
  {
    PrependTwice(chunks, [Chunk(start, end, p[start..end])], ChunksFrom(p, end, limit));
  }

  lemma PrependTwice(a: seq<Chunk>, b: seq<Chunk>, rest: Outcome)
    ensures Prepend(a, Prepend(b, rest)) == Prepend(a + b, rest)
  {
    if rest.Chunks? { ConcatAssociates(a, b, rest.rows); }
  }

  function ChunkBytes(c: Chunk): Bytes { c.bytes }

  /** `cut` is the last place at or before `limit` bytes from `start` where `p` may be cut. */
  ghost predicate GreatestCut(p: Bytes, start: nat, cut: nat, limit: nat) {
    && start < cut <= |p| && cut <= start + limit && WellFormed(p[..cut])
    && forall j :: cut < j <= |p| && j <= start + limit ==> !WellFormed(p[..j])
  }

  /** The chunks from `start` on: contiguous, well-formed, bounded, cut as late as possible. */
  ghost predicate Partition(p: Bytes, cs: seq<Chunk>, start: nat, limit: nat) {
    && FlatMap(ChunkBytes, cs) == p[if start <= |p| then start else |p|..]
    && (cs != [] ==> cs[0].start == start && cs[|cs| - 1].end == |p|)
    && (forall i :: 0 <= i < |cs| - 1 ==> cs[i].end == cs[i + 1].start && limit - 3 <= |cs[i].bytes|)
    && (forall i :: 0 <= i < |cs| ==>
          && GreatestCut(p, cs[i].start, cs[i].end, limit)
          && cs[i].bytes == p[cs[i].start..cs[i].end] && WellFormed(cs[i].bytes))
  }

  /** The boundary after `i` is one code point on, at most four bytes away. */
  lemma NextBoundary(p: Bytes, i: nat)
    requires WellFormed(p) && i < |p| && Boundary(p, i)
    ensures var n := CodePointLength(p[i..]);
      && 1 <= n <= 4 && i + n <= |p| && Boundary(p, i + n)
      && forall j :: i < j < i + n ==> !Boundary(p, j)
  {
    BoundarySplits(p, i);
    var n := CodePointLength(p[i..]);
    forall j | i < j < i + n ensures !Boundary(p, j) {
      assert p[j] == p[i..][j - i];
    }
    assert WellFormed(p[i..][n..]) && p[i..][n..] == p[i + n..];
    if i + n < |p| {
      assert CodePointLength(p[i + n..]) > 0 && p[i + n..][0] == p[i + n];
    }
  }

  lemma BoundaryWindow(p: Bytes, start: nat, cut: nat)
    requires WellFormed(p) && start <= cut <= |p| && Boundary(p, start) && Boundary(p, cut)
    ensures WellFormed(p[start..cut])
  {
    hide WellFormed;
    BoundarySplits(p, start);
    if cut < |p| { assert p[start..][cut - start] == p[cut]; }
    BoundarySplits(p[start..], cut - start);
    assert p[start..][..cut - start] == p[start..cut];
  }

  lemma CutIsBoundary(p: Bytes, start: nat, limit: nat)
    requires WellFormed(p) && start < |p| && Boundary(p, start)
    ensures Boundary(p, Cut(p, start, limit))
    ensures Cut(p, start, limit) == start <==> CodePointLength(p[start..]) > limit
    ensures Cut(p, start, limit) < |p| && limit >= 4 ==> Cut(p, start, limit) - start >= limit - 3
  {
    NextBoundary(p, start);
    var cut := Cut(p, start, limit);
    if cut < |p| { NextBoundary(p, cut); }
  }

  lemma CutIsGreatest(p: Bytes, start: nat, limit: nat)
    requires WellFormed(p) && start < |p| && Boundary(p, start)
    requires start < Cut(p, start, limit)
    ensures GreatestCut(p, start, Cut(p, start, limit), limit)
    ensures WellFormed(p[start..Cut(p, start, limit)])
  {
    CutIsBoundary(p, start, limit);
    var cut := Cut(p, start, limit);
    BoundaryWindow(p, start, cut);
    BoundarySplits(p, cut);
    forall j | cut < j <= |p| && j <= start + limit ensures !WellFormed(p[..j]) { BoundarySplits(p, j); }
  }

  lemma PartitionCons(p: Bytes, start: nat, end: nat, rest: seq<Chunk>, limit: nat)
    requires start < end <= |p| && GreatestCut(p, start, end, limit) && WellFormed(p[start..end])
    requires Partition(p, rest, end, limit) && (end < |p| ==> rest != [] && limit - 3 <= end - start)
    requires end == |p| ==> rest == []
    ensures Partition(p, [Chunk(start, end, p[start..end])] + rest, start, limit)
  {
    var first := Chunk(start, end, p[start..end]);
    var cs := [first] + rest;
    FlatMapCons(ChunkBytes, first, rest);
    assert p[start..end] + p[end..] == p[start..];
    forall i | 0 <= i < |cs|
      ensures GreatestCut(p, cs[i].start, cs[i].end, limit)
      ensures cs[i].bytes == p[cs[i].start..cs[i].end] && WellFormed(cs[i].bytes)
    {
      if i > 0 { assert cs[i] == rest[i - 1]; }
    }
  }

  lemma {:induction false} ChunksFromPartition(p: Bytes, start: nat, limit: nat)
    requires WellFormed(p) && start <= |p| && Boundary(p, start) && limit >= 4
    ensures ChunksFrom(p, start, limit).Chunks?
    ensures Partition(p, ChunksFrom(p, start, limit).rows, start, limit)
    ensures start < |p| <==> ChunksFrom(p, start, limit).rows != []
    decreases |p| - start
  {
    if start < |p| {
      NextBoundary(p, start);
      CutIsBoundary(p, start, limit);
      CutIsGreatest(p, start, limit);
      var end := Cut(p, start, limit);
      ChunksFromPartition(p, end, limit);
      PartitionCons(p, start, end, ChunksFrom(p, end, limit).rows, limit);
    }
  }

  /** Every payload that is UTF-8 is split; the limit error is unreachable from 4 bytes on. */
  lemma ChunksReconstruct(p: Bytes, limit: nat)
    requires limit >= 4
    ensures ChunksOf(p, limit).Chunks? <==> WellFormed(p)
    ensures p != [] && WellFormed(p) ==> Partition(p, ChunksOf(p, limit).rows, 0, limit) && ChunksOf(p, limit).rows != []
    ensures p == [] ==> ChunksOf(p, limit).rows == [Chunk(0, 0, [])]
  {
    if WellFormed(p) && p != [] {
      assert Boundary(p, 0);
      ChunksFromPartition(p, 0, limit);
    }
  }

  lemma ReviewChunks(p: Bytes)
    requires WellFormed(p)
    ensures ChunksOf(p, MAX_REVIEW_CHUNK_BYTES).Chunks?
    ensures var cs := ChunksOf(p, MAX_REVIEW_CHUNK_BYTES).rows;
      && cs != [] && FlatMap(ChunkBytes, cs) == p
      && (forall i :: 0 <= i < |cs| ==> |cs[i].bytes| <= 24000)
      && (forall i :: 0 <= i < |cs| - 1 ==> 23997 <= |cs[i].bytes|)
  {
    ChunksReconstruct(p, MAX_REVIEW_CHUNK_BYTES);
    if p == [] { FlatMapCons(ChunkBytes, Chunk(0, 0, []), []); }
  }

  /** For any limit, the split fails exactly when some code point is longer than the limit. */
  lemma {:induction false} LimitTooSmallExactly(p: Bytes, start: nat, limit: nat)
    requires WellFormed(p) && start <= |p| && Boundary(p, start)
    ensures !ChunksFrom(p, start, limit).Undecodable?
    ensures ChunksFrom(p, start, limit).LimitTooSmall? <==>
              exists i :: start <= i < |p| && Boundary(p, i) && CodePointLength(p[i..]) > limit
    decreases |p| - start
  {
    if start < |p| {
      NextBoundary(p, start);
      CutIsBoundary(p, start, limit);
      var end := Cut(p, start, limit);
      if end > start {
        CutIsGreatest(p, start, limit);
        LimitTooSmallExactly(p, end, limit);
        forall i | start <= i < end && Boundary(p, i) ensures CodePointLength(p[i..]) <= limit {
          NextBoundary(p, i);
        }
      }
    }
  }
}
