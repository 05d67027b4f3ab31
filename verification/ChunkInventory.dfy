/** The chunk rows a cache writer records (`_chunk_rows` of the runner): names that
    carry the origin, the index and the content hash. */
module ChunkInventory {
  import opened Sequences
  import opened Utf8
  import opened Chunker
  import opened CacheModel
  import opened FullCache

  ghost predicate HexHash(sha: Bytes -> string) {
    forall b :: IsSha256(sha(b))
  }

  function Digit(d: nat): char
    requires d < 10
  {
    '0' + d as char
  }

  function Decimal(n: nat): string {
    if n < 10 then [Digit(n)] else Decimal(n / 10) + [Digit(n % 10)]
  }

  function Zeros(n: nat): string { seq(n, _ => '0') }

  /** `{index:06d}` */
  function Index6(n: nat): string {
    (if |Decimal(n)| < 6 then Zeros(6 - |Decimal(n)|) else "") + Decimal(n)
  }

  predicate AllDigits(s: string) {
    forall i :: 0 <= i < |s| ==> '0' <= s[i] <= '9'
  }

  function Value(s: string): nat
    requires AllDigits(s)
  {
    if s == [] then 0 else 10 * Value(s[..|s| - 1]) + (s[|s| - 1] - '0') as int
  }

  lemma {:induction false} DecimalValue(n: nat)
    ensures AllDigits(Decimal(n)) && Value(Decimal(n)) == n
  {
    if n >= 10 {
      DecimalValue(n / 10);
      assert Decimal(n)[..|Decimal(n)| - 1] == Decimal(n / 10);
    }
  }

  lemma {:induction false} LeadingZeros(k: nat, s: string)
    requires AllDigits(s)
    ensures AllDigits(Zeros(k) + s) && Value(Zeros(k) + s) == Value(s)
    decreases |s|, k
  {
    if s != [] {
      var front := s[..|s| - 1];
      LeadingZeros(k, front);
      assert (Zeros(k) + s)[..k + |s| - 1] == Zeros(k) + front;
    } else if k > 0 {
      LeadingZeros(k - 1, s);
      assert (Zeros(k) + s)[..k - 1] == Zeros(k - 1) + s;
    }
  }

  /** The padded index still determines the index, and contains only digits. */
  lemma Index6Injective(a: nat, b: nat)
    ensures AllDigits(Index6(a))
    ensures Index6(a) == Index6(b) ==> a == b
  {
    Index6Value(a);
    Index6Value(b);
  }

  lemma Index6Value(n: nat)
    ensures AllDigits(Index6(n)) && Value(Index6(n)) == n
  {
    DecimalValue(n);
    LeadingZeros(if |Decimal(n)| < 6 then 6 - |Decimal(n)| else 0, Decimal(n));
    assert Zeros(0) + Decimal(n) == Decimal(n);
  }

  function Prefix(kind: string): string { "chunks/" + kind + "/" }

  function LeafName(index: nat, digest: string): string { Index6(index) + ("-" + (digest + ".utf8")) }

  function ChunkPath(kind: string, identity: string, index: nat, digest: string): string {
    Prefix(kind) + (identity + ("/" + LeafName(index, digest)))
  }

  lemma {:induction false} FirstOfMark(a: string, rest: string, mark: char)
    requires mark !in a
    ensures mark in a + ([mark] + rest) && FirstOf(a + ([mark] + rest), mark) == |a|
  {
    var s := a + ([mark] + rest);
    assert s[|a|] == mark;
    if a != [] {
      assert s[0] == a[0] && a[0] != mark;
      assert s[1..] == a[1..] + ([mark] + rest);
      FirstOfMark(a[1..], rest, mark);
    }
  }

  lemma CutAtMark(a: string, b: string, x: string, y: string, mark: char)
    requires a + ([mark] + x) == b + ([mark] + y) && mark !in a && mark !in b
    ensures a == b && x == y
  {
    FirstOfMark(a, x, mark);
    FirstOfMark(b, y, mark);
    SplitAt(a, b, [mark] + x, [mark] + y);
    SplitAt([mark], [mark], x, y);
  }

  lemma LeafNameInjective(i: nat, j: nat, d: string, e: string)
    requires LeafName(i, d) == LeafName(j, e)
    ensures i == j
  {
    Index6Injective(i, j);
    Index6Injective(j, i);
    CutAtMark(Index6(i), Index6(j), d + ".utf8", e + ".utf8", '-');
  }

  /** A chunk name determines its origin and its index. */
  lemma ChunkPathInjective(kind: string, id1: string, i: nat, d: string, id2: string, j: nat, e: string)
    requires |id1| == |id2| && ChunkPath(kind, id1, i, d) == ChunkPath(kind, id2, j, e)
    ensures id1 == id2 && i == j
  {
    SplitAt(Prefix(kind), Prefix(kind), id1 + ("/" + LeafName(i, d)), id2 + ("/" + LeafName(j, e)));
    SplitAt(id1, id2, "/" + LeafName(i, d), "/" + LeafName(j, e));
    SplitAt("/", "/", LeafName(i, d), LeafName(j, e));
    LeafNameInjective(i, j, d, e);
  }

  lemma KindsDiffer(id1: string, i: nat, d: string, id2: string, j: nat, e: string)
    ensures ChunkPath("source", id1, i, d) != ChunkPath("citation", id2, j, e)
  {
    assert ChunkPath("source", id1, i, d)[7] == 's' && ChunkPath("citation", id2, j, e)[7] == 'c';
  }

  lemma {:induction false} ComponentsCons(a: string, rest: string)
    requires '/' !in a
    ensures Components(a + ("/" + rest)) == [a] + Components(rest)
  {
    var s := a + ("/" + rest);
    assert s[|a|] == '/';
    FirstOfMark(a, rest, '/');
    assert s[..|a|] == a && s[|a| + 1..] == rest;
  }

  lemma HexHasNoSeparators(s: string)
    requires IsSha256(s)
    ensures '/' !in s && '\\' !in s && s !in ["", ".", ".."]
  {
  }

  lemma LeafNameIsPlain(index: nat, digest: string)
    requires IsSha256(digest)
    ensures '/' !in LeafName(index, digest) && '\\' !in LeafName(index, digest)
    ensures |LeafName(index, digest)| > 64 && EndsWith(LeafName(index, digest), ".utf8")
  {
    Index6Injective(index, index);
    HexHasNoSeparators(digest);
    var a, b := Index6(index), "-" + (digest + ".utf8");
    forall k | 0 <= k < |LeafName(index, digest)|
      ensures LeafName(index, digest)[k] != '/' && LeafName(index, digest)[k] != '\\'
    {
      if k >= |a| {
        assert LeafName(index, digest)[k] == b[k - |a|];
        if 0 < k - |a| <= 64 { assert b[k - |a|] == digest[k - |a| - 1]; }
      }
    }
  }

  lemma PrefixJoins(kind: string, rest: string)
    ensures Prefix(kind) + rest == "chunks" + ("/" + (kind + ("/" + rest)))
  {
  }

  lemma ChunkPathComponents(kind: string, identity: string, leaf: string)
    requires '/' !in kind && '/' !in identity && '/' !in leaf
    ensures Components(Prefix(kind) + (identity + ("/" + leaf))) == ["chunks", kind, identity, leaf]
  {
    hide Prefix, Components;
    var tail := identity + ("/" + leaf);
    PrefixJoins(kind, tail);
    ComponentsCons("chunks", kind + ("/" + tail));
    ComponentsCons(kind, tail);
    ComponentsCons(identity, leaf);
    SingleComponent(leaf);
  }

  lemma SingleComponent(s: string)
    requires '/' !in s
    ensures Components(s) == [s]
  {
  }

  lemma NoBackslash(kind: string, identity: string, leaf: string)
    requires '\\' !in kind && '\\' !in identity && '\\' !in leaf
    ensures '\\' !in Prefix(kind) + (identity + ("/" + leaf))
  {
  }

  /** Every recorded chunk path is canonical, under its prefix, and named `.utf8`. */
  lemma ChunkPathCanonical(kind: string, identity: string, index: nat, digest: string)
    requires kind == "source" || kind == "citation"
    requires IsSha256(identity) && IsSha256(digest)
    ensures CanonicalRelative(ChunkPath(kind, identity, index, digest))
    ensures StartsWith(ChunkPath(kind, identity, index, digest), Prefix(kind))
    ensures EndsWith(ChunkPath(kind, identity, index, digest), ".utf8")
    ensures ChunkPath(kind, identity, index, digest) != ""
  {
    hide Components, IsSha256, LeafName;
    var leaf := LeafName(index, digest);
    var p := ChunkPath(kind, identity, index, digest);
    LeafNameIsPlain(index, digest);
    HexHasNoSeparators(identity);
    ChunkPathComponents(kind, identity, leaf);
    NoBackslash(kind, identity, leaf);
    assert p[0] == 'c' && p[1] == 'h';
    assert p[|p| - |leaf|..] == leaf;
    assert leaf[|leaf| - 5..] == p[|p| - 5..];
  }

  function Row(kind: string, identity: string, originalSha256: string, total: nat, c: Chunk, index: nat, sha: Bytes -> string): ChunkRow {
    ChunkRow(index, ChunkPath(kind, identity, index, sha(c.bytes)), sha(c.bytes), |c.bytes|, c.start, c.end, originalSha256, total)
  }

  function RowsOf(kind: string, identity: string, originalSha256: string, total: nat, cs: seq<Chunk>, sha: Bytes -> string): (r: seq<ChunkRow>)
    ensures |r| == |cs|
    ensures forall i :: 0 <= i < |cs| ==> r[i] == Row(kind, identity, originalSha256, total, cs[i], i, sha)
  {
    seq(|cs|, i requires 0 <= i < |cs| => Row(kind, identity, originalSha256, total, cs[i], i, sha))
  }

  /** `_chunk_rows`: None when the payload is not UTF-8. */
  function ChunkRowsFor(kind: string, originId: string, originalSha256: string, payload: Bytes, sha: Bytes -> string): Option<seq<ChunkRow>> {
    match ChunksOf(payload, MAX_REVIEW_CHUNK_BYTES)
    case Chunks(cs) => Some(RowsOf(kind, sha(Encode(originId)), originalSha256, |payload|, cs, sha))
    case _ => None
  }

  lemma ChunkSpan(p: Bytes, cs: seq<Chunk>, i: nat)
    requires ChunksOf(p, MAX_REVIEW_CHUNK_BYTES) == Chunks(cs)
    requires i < |cs|
    requires p != [] ==> Partition(p, cs, 0, MAX_REVIEW_CHUNK_BYTES)
    ensures cs[i].start == (if i == 0 then 0 else cs[i - 1].end)
    ensures cs[i].end - cs[i].start == |cs[i].bytes|
    ensures i == |cs| - 1 ==> cs[i].end == |p|
  {
  }

  lemma RecordedRowOk(kind: string, identity: string, originalSha256: string, payload: Bytes, cs: seq<Chunk>, i: nat, sha: Bytes -> string)
    requires kind == "source" || kind == "citation"
    requires HexHash(sha) && IsSha256(identity) && IsSha256(originalSha256)
    requires ChunksOf(payload, MAX_REVIEW_CHUNK_BYTES) == Chunks(cs) && i < |cs|
    requires payload != [] ==> Partition(payload, cs, 0, MAX_REVIEW_CHUNK_BYTES)
    ensures ChunkRowOk(RowsOf(kind, identity, originalSha256, |payload|, cs, sha), i, Prefix(kind))
  {
    hide CanonicalRelative, ChunkPath, GreatestCut, ChunksOf, Partition, IsSha256;
    ChunkPathCanonical(kind, identity, i, sha(cs[i].bytes));
    ChunkSpan(payload, cs, i);
  }

  /** What the writer records is what the suite validator demands: contiguous ranges, canonical distinct names. */
  lemma RecordedRowsAccepted(kind: string, originId: string, originalSha256: string, payload: Bytes, sha: Bytes -> string)
    requires kind == "source" || kind == "citation"
    requires HexHash(sha) && IsSha256(originalSha256) && WellFormed(payload)
    ensures ChunkRowsFor(kind, originId, originalSha256, payload, sha).Some?
    ensures var rows := ChunkRowsFor(kind, originId, originalSha256, payload, sha).value;
      && rows != [] && ChunkRowsOk(rows, Prefix(kind))
      && (forall i :: 0 <= i < |rows| ==> rows[i].originalSha256 == originalSha256 && rows[i].originalSize == |payload|)
      && (forall i, j :: 0 <= i < j < |rows| ==> rows[i].path != rows[j].path)
  {
    hide ChunkRowOk, ChunkPath, IsSha256, Partition, ChunksOf, WellFormed;
    ReviewChunks(payload);
    ChunksReconstruct(payload, MAX_REVIEW_CHUNK_BYTES);
    var cs := ChunksOf(payload, MAX_REVIEW_CHUNK_BYTES).rows;
    var identity := sha(Encode(originId));
    var rows := ChunkRowsFor(kind, originId, originalSha256, payload, sha).value;
    forall i | 0 <= i < |rows| ensures ChunkRowOk(rows, i, Prefix(kind)) {
      RecordedRowOk(kind, identity, originalSha256, payload, cs, i, sha);
    }
    ChunkSpan(payload, cs, |cs| - 1);
    forall i, j | 0 <= i < j < |rows| ensures rows[i].path != rows[j].path {
      if rows[i].path == rows[j].path {
        ChunkPathInjective(kind, identity, i, sha(cs[i].bytes), identity, j, sha(cs[j].bytes));
      }
    }
  }
}
