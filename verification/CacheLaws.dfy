/** Which full caches are valid, said of the bytes of their files; which paths are canonical; and how code points are written. */
module CacheLaws {
  import opened Sequences
  import opened Utf8
  import opened CacheModel
  import opened FullCache
  import opened Chunker
  import opened ChunkInventory
  import opened Projection
  import opened ShardCache
  import opened AllocationLaws

  // ---- Code points ----

  /** A continuation byte and its six bits. */
  predicate Bits(b: Byte, bits: int) { b as int == 128 + bits && 0 <= bits < 64 }

  /** The bit distribution of section 3 of RFC 3629, shortest form first. */
  predicate EncodesAs(c: char, e: Bytes) {
    var n := c as int;
    || (n < 128 && |e| == 1 && e[0] as int == n)
    || (128 <= n < 2048 && |e| == 2 && e[0] as int == 192 + n / 64 && Bits(e[1], n % 64))
    || (2048 <= n < 65536 && |e| == 3 && e[0] as int == 224 + n / 4096 && Bits(e[1], n / 64 % 64) && Bits(e[2], n % 64))
    || (65536 <= n && |e| == 4 && e[0] as int == 240 + n / 262144 && Bits(e[1], n / 4096 % 64) && Bits(e[2], n / 64 % 64) && Bits(e[3], n % 64))
  }

  lemma CharEncodes(c: char)
    ensures EncodesAs(c, EncodeChar(c))
  {
  }

  /** A code point has one such form, and that is the one written. */
  lemma EncodingTable(c: char, e: Bytes)
    ensures EncodeChar(c) == e <==> EncodesAs(c, e)
  {
    CharEncodes(c);
    if EncodesAs(c, e) { OneEncoding(c, e, EncodeChar(c)); }
  }

  lemma OneEncoding(c: char, d: Bytes, e: Bytes)
    requires EncodesAs(c, d) && EncodesAs(c, e)
    ensures d == e
  {
    assert |d| == |e|;
  }

  // ---- Canonical paths ----

  /** `s[i..j]` is a whole component: it stands between slashes or ends and holds none. */
  predicate Component(s: string, i: nat, j: nat) {
    && i <= j <= |s| && (i == 0 || s[i - 1] == '/') && (j == |s| || s[j] == '/')
    && forall k :: i <= k < j ==> s[k] != '/'
  }

  predicate Plainly(s: string) {
    forall i, j :: 0 <= i <= j <= |s| && Component(s, i, j) ==> s[i..j] != "" && s[i..j] != "." && s[i..j] != ".."
  }

  ghost predicate Has(s: string, part: string) { exists i, j :: 0 <= i <= j <= |s| && Component(s, i, j) && s[i..j] == part }

  /** Every component is one of the listed parts, and the other way round. */
  lemma {:induction false} ComponentsExactly(s: string, part: string)
    ensures part in Components(s) <==> Has(s, part)
    decreases |s|
  {
    hide Has;
    if '/' !in s {
      WholeComponent(s, part);
    } else {
      ComponentsExactly(s[FirstOf(s, '/') + 1..], part);
      NoEarlierSlash(s);
      SplitComponent(s, FirstOf(s, '/'), part);
      assert Components(s) == [s[..FirstOf(s, '/')]] + Components(s[FirstOf(s, '/') + 1..]);
    }
  }

  /** A component is the part before the first slash, or one after it. */
  lemma SplitComponent(s: string, n: nat, part: string)
    requires n < |s| && s[n] == '/' && forall k :: 0 <= k < n ==> s[k] != '/'
    ensures Has(s, part) <==> part == s[..n] || Has(s[n + 1..], part)
  {
    hide Component;
    var rest := s[n + 1..];
    if part == s[..n] { HeadComponent(s, n); }
    if Has(rest, part) {
      var i, j :| 0 <= i <= j <= |rest| && Component(rest, i, j) && rest[i..j] == part;
      LaterComponent(s, n, i, j);
    }
    if Has(s, part) {
      var i, j :| 0 <= i <= j <= |s| && Component(s, i, j) && s[i..j] == part;
      FirstOrLater(s, n, i, j);
    }
  }

  lemma HeadComponent(s: string, n: nat)
    requires n < |s| && s[n] == '/' && forall k :: 0 <= k < n ==> s[k] != '/'
    ensures Has(s, s[..n])
  {
    assert Component(s, 0, n) && s[0..n] == s[..n];
  }

  lemma NoEarlierSlash(s: string)
    requires '/' in s
    ensures forall k :: 0 <= k < FirstOf(s, '/') ==> s[k] != '/'
  {
    hide FirstOf;
    FirstSlash(s);
  }

  lemma {:induction false} FirstSlash(s: string)
    requires '/' in s
    ensures forall k :: 0 <= k < FirstOf(s, '/') ==> s[k] != '/'
  {
    if s[0] != '/' {
      FirstSlash(s[1..]);
      forall k | 0 <= k < FirstOf(s, '/') ensures s[k] != '/' { if k > 0 { assert s[1..][k - 1] == s[k]; } }
    }
  }

  lemma WholeComponent(s: string, part: string)
    requires '/' !in s
    ensures part == s <==> Has(s, part)
  {
    assert Component(s, 0, |s|) && s[0..|s|] == s;
    if i, j :| 0 <= i <= j <= |s| && Component(s, i, j) && s[i..j] == part { assert i == 0 && j == |s|; }
  }

  lemma LaterComponent(s: string, n: nat, i: nat, j: nat)
    requires n < |s| && s[n] == '/' && Component(s[n + 1..], i, j)
    ensures Component(s, n + 1 + i, n + 1 + j) && s[n + 1 + i..n + 1 + j] == s[n + 1..][i..j]
  {
    var rest := s[n + 1..];
    forall k | n + 1 + i <= k < n + 1 + j ensures s[k] != '/' { assert rest[k - n - 1] == s[k]; }
  }

  lemma FirstOrLater(s: string, n: nat, i: nat, j: nat)
    requires n < |s| && s[n] == '/' && (forall k :: 0 <= k < n ==> s[k] != '/') && Component(s, i, j)
    ensures (i == 0 && j == n && s[i..j] == s[..n]) || (i > n && Component(s[n + 1..], i - n - 1, j - n - 1) && s[i..j] == s[n + 1..][i - n - 1..j - n - 1])
  {
    if i > n {
      var rest := s[n + 1..];
      forall k | i - n - 1 <= k < j - n - 1 ensures rest[k] != '/' { assert rest[k] == s[n + 1 + k]; }
    }
  }

  /** A canonical path is relative, without backslash or drive, and is the dot or has only plain components. */
  lemma CanonicalExactly(s: string)
    ensures CanonicalRelative(s) <==>
      && s != "" && '\\' !in s && !(|s| >= 2 && s[1] == ':' && ('a' <= s[0] <= 'z' || 'A' <= s[0] <= 'Z'))
      && (s == "." || Plainly(s))
  {
    hide Components, Component, Has;
    forall part ensures part in Components(s) <==> Has(s, part) { ComponentsExactly(s, part); }
    if s != "" && s[0] == '/' { EmptyFirst(s); }
    PlainlyParts(s);
  }

  lemma EmptyFirst(s: string)
    requires s != "" && s[0] == '/'
    ensures !Plainly(s)
  {
    assert Component(s, 0, 0) && s[0..0] == "";
  }

  lemma PlainlyParts(s: string)
    requires forall part :: part in Components(s) <==> Has(s, part)
    ensures Plainly(s) <==> forall c :: c in Components(s) ==> c !in ["", ".", ".."]
  {
    hide Components, Component;
    if Plainly(s) {
      forall c | c in Components(s) ensures c !in ["", ".", ".."] { var i, j :| 0 <= i <= j <= |s| && Component(s, i, j) && s[i..j] == c; }
    }
    if forall c :: c in Components(s) ==> c !in ["", ".", ".."] {
      forall i, j | 0 <= i <= j <= |s| && Component(s, i, j) ensures s[i..j] != "" && s[i..j] != "." && s[i..j] != ".." {
        assert s[i..j] in Components(s);
      }
    }
  }

  // ---- Declared files ----

  /** The tree holds a file under this prefix and suffix, with the declared hash and size. */
  predicate Kept(t: Tree, path: string, sha256: string, size: int, prefix: string, suffix: string, sha: Bytes -> string) {
    && CanonicalRelative(path) && StartsWith(path, prefix) && EndsWith(path, suffix) && Digest(sha256)
    && path in t.files && |t.files[path]| <= 33554432 && |t.files[path]| == size && sha(t.files[path]) == sha256
  }

  lemma KeptExactly(t: Tree, d: Declared, prefix: string, suffix: string, sha: Bytes -> string)
    ensures Holds(t, d, prefix, suffix, sha) <==> Kept(t, d.path, d.sha256, d.size, prefix, suffix, sha)
  {
    hide CanonicalRelative, StartsWith, EndsWith;
  }

  // ---- Chunks ----

  /** One row of a cut-up original, but for the bytes: consecutive and numbered from 0, a UTF-8 file of its own, naming the
      original's hash and size. */
  predicate RowCut(t: Tree, chunks: seq<ChunkRow>, i: nat, prefix: string, original: Declared, sha: Bytes -> string)
    requires i < |chunks|
  {
    && chunks[i].index == i && chunks[i].byteStart == (if i == 0 then 0 else chunks[i - 1].byteEnd)
    && 0 <= chunks[i].byteStart && 0 <= chunks[i].byteEnd && chunks[i].byteEnd - chunks[i].byteStart == chunks[i].size
    && chunks[i].originalSha256 == original.sha256 && chunks[i].originalSize == original.size
    && Kept(t, chunks[i].path, chunks[i].sha256, chunks[i].size, prefix, ".utf8", sha)
    && WellFormed(t.files[chunks[i].path])
  }

  /** Each chunk holds its range of the original. */
  predicate RangesHeld(t: Tree, chunks: seq<ChunkRow>, whole: Bytes) {
    forall i :: 0 <= i < |chunks| ==>
      && 0 <= chunks[i].byteStart <= chunks[i].byteEnd <= |whole|
      && Payload(t.files, chunks[i].path) == whole[chunks[i].byteStart..chunks[i].byteEnd]
  }

  /** The chunks are the original cut up: each holds exactly its range, and the last one ends it. */
  predicate CutUp(t: Tree, chunks: seq<ChunkRow>, prefix: string, original: Declared, sha: Bytes -> string) {
    && chunks != [] && original.path in t.files
    && (forall i :: 0 <= i < |chunks| ==> RowCut(t, chunks, i, prefix, original, sha))
    && RangesHeld(t, chunks, t.files[original.path]) && chunks[|chunks| - 1].byteEnd == |t.files[original.path]|
  }

  /** Where the first `n` chunks end. */
  function EndOf(chunks: seq<ChunkRow>, n: nat): int
    requires n <= |chunks|
  {
    if n == 0 then 0 else chunks[n - 1].byteEnd
  }

  lemma {:induction false} RebuiltPrefix(files: map<string, Bytes>, chunks: seq<ChunkRow>, n: nat)
    requires n <= |chunks|
    requires forall i :: 0 <= i < |chunks| ==>
      && chunks[i].byteStart == (if i == 0 then 0 else chunks[i - 1].byteEnd)
      && chunks[i].byteEnd - chunks[i].byteStart == chunks[i].size == |Payload(files, chunks[i].path)|
    ensures EndOf(chunks, n) == |Rebuilt(files, chunks[..n])|
  {
    hide Rebuilt;
    if n == 0 {
      NothingDeclared(files);
      assert chunks[..0] == [];
    } else {
      RebuiltPrefix(files, chunks, n - 1);
      RebuiltSnoc(files, chunks, n - 1);
    }
  }

  lemma RebuiltSplits(files: map<string, Bytes>, chunks: seq<ChunkRow>, i: nat)
    requires i < |chunks|
    ensures Rebuilt(files, chunks) == Rebuilt(files, chunks[..i]) + Payload(files, chunks[i].path) + Rebuilt(files, chunks[i + 1..])
  {
    var f := (c: ChunkRow) => Payload(files, c.path);
    RebuiltSnoc(files, chunks, i);
    FlatMapConcat(f, chunks[..i + 1], chunks[i + 1..]);
    assert chunks == chunks[..i + 1] + chunks[i + 1..];
  }

  /** Chunks in consecutive ranges rebuild the original exactly when each is its range of it and the last one ends it. */
  lemma RebuildsExactly(files: map<string, Bytes>, chunks: seq<ChunkRow>, whole: Bytes)
    requires chunks != []
    requires forall i :: 0 <= i < |chunks| ==>
      && chunks[i].byteStart == (if i == 0 then 0 else chunks[i - 1].byteEnd)
      && chunks[i].byteEnd - chunks[i].byteStart == chunks[i].size == |Payload(files, chunks[i].path)|
    ensures Rebuilt(files, chunks) == whole <==>
      && chunks[|chunks| - 1].byteEnd == |whole|
      && forall i :: 0 <= i < |chunks| ==>
           0 <= chunks[i].byteStart <= chunks[i].byteEnd <= |whole|
           && Payload(files, chunks[i].path) == whole[chunks[i].byteStart..chunks[i].byteEnd]
  {
    hide Rebuilt, Payload;
    RebuiltPrefix(files, chunks, |chunks|);
    assert chunks[..|chunks|] == chunks;
    if Rebuilt(files, chunks) == whole {
      forall i | 0 <= i < |chunks|
        ensures 0 <= chunks[i].byteStart <= chunks[i].byteEnd <= |whole|
        ensures Payload(files, chunks[i].path) == whole[chunks[i].byteStart..chunks[i].byteEnd]
      {
        RebuiltPrefix(files, chunks, i);
        RebuiltSplits(files, chunks, i);
        assert chunks[i].byteStart == EndOf(chunks, i);
      }
    }
    if chunks[|chunks| - 1].byteEnd == |whole| && forall i :: 0 <= i < |chunks| ==>
           0 <= chunks[i].byteStart <= chunks[i].byteEnd <= |whole|
           && Payload(files, chunks[i].path) == whole[chunks[i].byteStart..chunks[i].byteEnd] {
      RangesRebuild(files, chunks, whole, |chunks|);
      assert whole[..|whole|] == whole;
    }
  }

  lemma {:induction false} RangesRebuild(files: map<string, Bytes>, chunks: seq<ChunkRow>, whole: Bytes, n: nat)
    requires n <= |chunks|
    requires forall i :: 0 <= i < |chunks| ==>
      && chunks[i].byteStart == (if i == 0 then 0 else chunks[i - 1].byteEnd)
      && 0 <= chunks[i].byteStart <= chunks[i].byteEnd <= |whole|
      && Payload(files, chunks[i].path) == whole[chunks[i].byteStart..chunks[i].byteEnd]
    ensures 0 <= EndOf(chunks, n) <= |whole| && Rebuilt(files, chunks[..n]) == whole[..EndOf(chunks, n)]
  {
    hide Rebuilt, Payload;
    if n == 0 {
      NothingDeclared(files);
      assert chunks[..0] == [];
    } else {
      RangesRebuild(files, chunks, whole, n - 1);
      RebuiltSnoc(files, chunks, n - 1);
      assert whole[..chunks[n - 1].byteEnd] == whole[..chunks[n - 1].byteStart] + whole[chunks[n - 1].byteStart..chunks[n - 1].byteEnd];
    }
  }

  lemma RowCutExactly(t: Tree, chunks: seq<ChunkRow>, i: nat, prefix: string, original: Declared, sha: Bytes -> string)
    requires i < |chunks| && Digest(original.sha256) && original.size >= 0
    ensures ChunkRowOk(chunks, i, prefix) && ChunkHeld(t, chunks[i], prefix, sha)
            && chunks[i].originalSha256 == original.sha256 && chunks[i].originalSize == original.size
       <==> RowCut(t, chunks, i, prefix, original, sha)
    ensures RowCut(t, chunks, i, prefix, original, sha) ==> chunks[i].path in t.files && |t.files[chunks[i].path]| == chunks[i].size
  {
    hide CanonicalRelative, StartsWith, EndsWith, WellFormed;
    KeptExactly(t, ChunkFile(chunks[i]), prefix, ".utf8", sha);
  }

  lemma RowsCut(t: Tree, chunks: seq<ChunkRow>, prefix: string, original: Declared, sha: Bytes -> string)
    requires chunks != [] && original.path in t.files && |t.files[original.path]| == original.size && Digest(original.sha256)
    ensures ChunkRowsOk(chunks, prefix) && ChunksHeld(t, chunks, prefix, sha) && Reconstructs(t, chunks, original) <==>
      && (forall i :: 0 <= i < |chunks| ==> RowCut(t, chunks, i, prefix, original, sha))
      && chunks[|chunks| - 1].byteEnd == |t.files[original.path]| && Rebuilt(t.files, chunks) == t.files[original.path]
  {
    hide ChunkRowOk, ChunkHeld, RowCut, Rebuilt;
    forall i | 0 <= i < |chunks|
      ensures ChunkRowOk(chunks, i, prefix) && ChunkHeld(t, chunks[i], prefix, sha)
              && chunks[i].originalSha256 == original.sha256 && chunks[i].originalSize == original.size
         <==> RowCut(t, chunks, i, prefix, original, sha)
    {
      RowCutExactly(t, chunks, i, prefix, original, sha);
    }
    if forall i :: 0 <= i < |chunks| ==> RowCut(t, chunks, i, prefix, original, sha) { assert RowCut(t, chunks, |chunks| - 1, prefix, original, sha); }
  }

  lemma RowsRebuild(t: Tree, chunks: seq<ChunkRow>, prefix: string, original: Declared, sha: Bytes -> string)
    requires chunks != [] && original.path in t.files && |t.files[original.path]| == original.size && Digest(original.sha256)
    requires forall i :: 0 <= i < |chunks| ==> RowCut(t, chunks, i, prefix, original, sha)
    ensures Rebuilt(t.files, chunks) == t.files[original.path] <==>
              chunks[|chunks| - 1].byteEnd == |t.files[original.path]| && RangesHeld(t, chunks, t.files[original.path])
  {
    hide Kept, WellFormed, Rebuilt;
    forall i | 0 <= i < |chunks|
      ensures chunks[i].byteStart == (if i == 0 then 0 else chunks[i - 1].byteEnd)
      ensures chunks[i].byteEnd - chunks[i].byteStart == chunks[i].size == |Payload(t.files, chunks[i].path)|
    {
      assert RowCut(t, chunks, i, prefix, original, sha);
      RowCutExactly(t, chunks, i, prefix, original, sha);
    }
    RebuildsExactly(t.files, chunks, t.files[original.path]);
  }

  /** The chunk checks of the validator, on a declared original, are exactly that it is cut up. */
  lemma CutUpExactly(t: Tree, chunks: seq<ChunkRow>, prefix: string, original: Declared, sha: Bytes -> string)
    requires chunks != [] && original.path in t.files && |t.files[original.path]| == original.size && Digest(original.sha256)
    ensures ChunkRowsOk(chunks, prefix) && ChunksHeld(t, chunks, prefix, sha) && Reconstructs(t, chunks, original)
       <==> CutUp(t, chunks, prefix, original, sha)
  {
    hide ChunkRowsOk, ChunksHeld, Reconstructs, Rebuilt, RowCut, RangesHeld;
    RowsCut(t, chunks, prefix, original, sha);
    if forall i :: 0 <= i < |chunks| ==> RowCut(t, chunks, i, prefix, original, sha) {
      RowsRebuild(t, chunks, prefix, original, sha);
    }
  }

  // ---- The whole cache ----

  /** A declared file that may be missing from the manifest. */
  predicate KeptIfAny(t: Tree, d: Option<Declared>, prefix: string, suffix: string, sha: Bytes -> string) {
    d.Some? ==> Kept(t, d.value.path, d.value.sha256, d.value.size, prefix, suffix, sha)
  }

  /** A source file: kept, and cut up exactly when it is to be inspected. */
  predicate FileIntact(t: Tree, f: FullFile, sha: Bytes -> string) {
    && Kept(t, f.cache.path, f.cache.sha256, f.cache.size, "files/", f.path, sha)
    && if f.inspectionRequired then CutUp(t, f.chunks, "chunks/source/", f.cache, sha) else f.chunks == []
  }

  /** A citation: its response, text and artifacts kept, and its text, if in chunks, cut up. */
  predicate CitationIntact(t: Tree, c: FullCitation, sha: Bytes -> string) {
    && KeptIfAny(t, c.body, "citations/bodies/", ".body", sha) && KeptIfAny(t, c.inspection, "citations/text/", ".txt", sha)
    && (forall a :: a in c.artifacts ==> Kept(t, a.body.path, a.body.sha256, a.body.size, "citations/resolver/", ".body", sha))
    && (c.chunks != [] ==> c.inspectionRequired && c.inspection.Some? && CutUp(t, c.chunks, "chunks/citation/", c.inspection.value, sha))
    && (c.available ==> c.body.Some?)
  }

  /** A path the manifest names. */
  predicate Named(m: FullManifest, p: string) {
    || p == "manifest.json"
    || (exists f :: f in m.files && (f.cache.path == p || exists c :: c in f.chunks && c.path == p))
    || (exists c :: c in m.citations &&
          (|| (c.body.Some? && c.body.value.path == p) || (c.inspection.Some? && c.inspection.value.path == p)
           || (exists a :: a in c.artifacts && a.body.path == p) || (exists k :: k in c.chunks && k.path == p)))
  }

  /** The tree is the manifest's: the manifest itself, distinct intact rows, no file but those named, and no directory but theirs. */
  ghost predicate Intact(t: Tree, m: FullManifest, codec: Codec<FullManifest>, sha: Bytes -> string) {
    && "manifest.json" in t.files && |t.files["manifest.json"]| <= 33554432
    && codec.decode(t.files["manifest.json"]) == Some(m) && codec.encode(m) == t.files["manifest.json"]
    && (forall i, j :: 0 <= i < j < |m.files| ==> m.files[i].path != m.files[j].path)
    && (forall i, j :: 0 <= i < j < |m.citations| ==> m.citations[i].requestedUrl != m.citations[j].requestedUrl)
    && (forall f :: f in m.files ==> FileIntact(t, f, sha)) && (forall c :: c in m.citations ==> CitationIntact(t, c, sha))
    && (forall p :: p in t.files <==> Named(m, p))
    && forall d :: d in t.dirs <==> d == "." || exists p, i :: Named(m, p) && 0 <= i < |p| && p[i] == '/' && d == p[..i]
  }

  lemma FileExactly(t: Tree, f: FullFile, sha: Bytes -> string)
    ensures FileValid(t, f, sha) <==> FileIntact(t, f, sha)
  {
    hide Kept, CutUp, Holds, ChunkRowsOk, ChunksHeld, Reconstructs;
    KeptExactly(t, f.cache, "files/", f.path, sha);
    KeptFile(t, f.cache, "files/", f.path, sha);
    NoChunks(t, "chunks/source/", sha);
    if f.chunks != [] && Holds(t, f.cache, "files/", f.path, sha) {
      CutUpExactly(t, f.chunks, "chunks/source/", f.cache, sha);
    }
    if CutUp(t, f.chunks, "chunks/source/", f.cache, sha) { CutUpSome(t, f.chunks, "chunks/source/", f.cache, sha); }
  }

  lemma CutUpSome(t: Tree, chunks: seq<ChunkRow>, prefix: string, original: Declared, sha: Bytes -> string)
    requires CutUp(t, chunks, prefix, original, sha)
    ensures chunks != []
  {
  }

  lemma KeptFile(t: Tree, d: Declared, prefix: string, suffix: string, sha: Bytes -> string)
    ensures Kept(t, d.path, d.sha256, d.size, prefix, suffix, sha) ==> d.path in t.files && |t.files[d.path]| == d.size && Digest(d.sha256)
  {
    hide CanonicalRelative, StartsWith, EndsWith;
  }

  lemma NoChunks(t: Tree, prefix: string, sha: Bytes -> string)
    ensures ChunkRowsOk([], prefix) && ChunksHeld(t, [], prefix, sha)
  {
  }

  lemma CitationExactly(t: Tree, c: FullCitation, sha: Bytes -> string)
    ensures CitationValid(t, c, sha) <==> CitationIntact(t, c, sha)
  {
    hide Kept, CutUp, Holds, ChunkRowsOk, ChunksHeld, Reconstructs;
    if c.body.Some? { KeptExactly(t, c.body.value, "citations/bodies/", ".body", sha); }
    if c.inspection.Some? {
      KeptExactly(t, c.inspection.value, "citations/text/", ".txt", sha);
      KeptFile(t, c.inspection.value, "citations/text/", ".txt", sha);
    }
    NoChunks(t, "chunks/citation/", sha);
    if c.chunks != [] && c.inspection.Some? && Holds(t, c.inspection.value, "citations/text/", ".txt", sha) {
      CutUpExactly(t, c.chunks, "chunks/citation/", c.inspection.value, sha);
    }
    ArtifactsKept(t, c.artifacts, sha);
  }

  lemma ArtifactsKept(t: Tree, artifacts: seq<FullArtifact>, sha: Bytes -> string)
    ensures (forall i :: 0 <= i < |artifacts| ==> ArtifactHeld(t, artifacts[i], sha)) <==>
            forall a :: a in artifacts ==> Kept(t, a.body.path, a.body.sha256, a.body.size, "citations/resolver/", ".body", sha)
  {
    hide Kept, Holds;
    forall a: FullArtifact ensures ArtifactHeld(t, a, sha) <==> Kept(t, a.body.path, a.body.sha256, a.body.size, "citations/resolver/", ".body", sha) {
      KeptExactly(t, a.body, "citations/resolver/", ".body", sha);
    }
    if forall i :: 0 <= i < |artifacts| ==> ArtifactHeld(t, artifacts[i], sha) {
      forall a | a in artifacts ensures ArtifactHeld(t, a, sha) { var i :| 0 <= i < |artifacts| && artifacts[i] == a; }
    }
    if forall a :: a in artifacts ==> ArtifactHeld(t, a, sha) {
      forall i | 0 <= i < |artifacts| ensures ArtifactHeld(t, artifacts[i], sha) { assert artifacts[i] in artifacts; }
    }
  }

  lemma FilesIntact(t: Tree, files: seq<FullFile>, sha: Bytes -> string)
    ensures FilesValid(t, files, sha) <==>
      && (forall i, j :: 0 <= i < j < |files| ==> files[i].path != files[j].path) && forall f :: f in files ==> FileIntact(t, f, sha)
  {
    hide FileValid, FileIntact;
    var keys := FileKeys(files);
    assert forall i :: 0 <= i < |files| ==> keys[i] == files[i].path;
    if NoDuplicates(keys) {
      forall i, j | 0 <= i < j < |files| ensures files[i].path != files[j].path { assert keys[i] != keys[j]; }
    }
    forall f: FullFile ensures FileValid(t, f, sha) <==> FileIntact(t, f, sha) { FileExactly(t, f, sha); }
    if forall f :: f in files ==> FileIntact(t, f, sha) {
      forall i | 0 <= i < |files| ensures FileValid(t, files[i], sha) { assert files[i] in files; }
    }
  }

  lemma CitationsIntact(t: Tree, cs: seq<FullCitation>, sha: Bytes -> string)
    ensures CitationsValid(t, cs, sha) <==>
      && (forall i, j :: 0 <= i < j < |cs| ==> cs[i].requestedUrl != cs[j].requestedUrl) && forall c :: c in cs ==> CitationIntact(t, c, sha)
  {
    hide CitationValid, CitationIntact;
    var keys := CitationUrls(cs);
    assert forall i :: 0 <= i < |cs| ==> keys[i] == cs[i].requestedUrl;
    if NoDuplicates(keys) {
      forall i, j | 0 <= i < j < |cs| ensures cs[i].requestedUrl != cs[j].requestedUrl { assert keys[i] != keys[j]; }
    }
    forall c: FullCitation ensures CitationValid(t, c, sha) <==> CitationIntact(t, c, sha) { CitationExactly(t, c, sha); }
    if forall c :: c in cs ==> CitationIntact(t, c, sha) {
      forall i | 0 <= i < |cs| ensures CitationValid(t, cs[i], sha) { assert cs[i] in cs; }
    }
  }

  lemma FilePathIs(f: FullFile, p: string)
    ensures p in FilePaths(f) <==> f.cache.path == p || exists c :: c in f.chunks && c.path == p
  {
  }

  lemma CitationPathIs(c: FullCitation, p: string)
    ensures p in CitationPaths(c) <==>
      || (c.body.Some? && c.body.value.path == p) || (c.inspection.Some? && c.inspection.value.path == p)
      || (exists a :: a in c.artifacts && a.body.path == p) || (exists k :: k in c.chunks && k.path == p)
  {
  }

  lemma NamedExactly(m: FullManifest, p: string)
    ensures p in DeclaredPaths(m) <==> Named(m, p)
  {
    hide FilePaths, CitationPaths;
    forall f: FullFile ensures p in FilePaths(f) <==> f.cache.path == p || exists c :: c in f.chunks && c.path == p { FilePathIs(f, p); }
    forall c: FullCitation ensures p in CitationPaths(c) <==>
      || (c.body.Some? && c.body.value.path == p) || (c.inspection.Some? && c.inspection.value.path == p)
      || (exists a :: a in c.artifacts && a.body.path == p) || (exists k :: k in c.chunks && k.path == p)
    {
      CitationPathIs(c, p);
    }
  }

  lemma ClosedExactly(t: Tree, m: FullManifest)
    ensures ClosedTree(t, DeclaredPaths(m)) <==>
      && (forall p :: p in t.files <==> Named(m, p))
      && forall d :: d in t.dirs <==> d == "." || exists p, i :: Named(m, p) && 0 <= i < |p| && p[i] == '/' && d == p[..i]
  {
    hide DeclaredPaths, Named;
    var paths := DeclaredPaths(m);
    forall p ensures p in paths <==> Named(m, p) { NamedExactly(m, p); }
    forall d ensures d in {"."} + Ancestors(paths) <==> d == "." || exists p, i :: Named(m, p) && 0 <= i < |p| && p[i] == '/' && d == p[..i] {
      AncestorIs(paths, d);
      if p, i :| Named(m, p) && 0 <= i < |p| && p[i] == '/' && d == p[..i] { assert p in paths; }
    }
    if forall p :: p in t.files <==> Named(m, p) { assert t.files.Keys == paths; }
  }

  lemma AncestorIs(paths: set<string>, d: string)
    ensures d in Ancestors(paths) <==> exists p, i :: p in paths && 0 <= i < |p| && p[i] == '/' && d == p[..i]
  {
  }

  /** A full cache is accepted exactly when it is intact. */
  lemma ValidExactly(t: Tree, m: FullManifest, codec: Codec<FullManifest>, sha: Bytes -> string)
    ensures FullValid(t, m, codec, sha) <==> Intact(t, m, codec, sha)
  {
    hide FilesValid, CitationsValid, ClosedTree, FileIntact, CitationIntact, Named, DeclaredPaths;
    FilesIntact(t, m.files, sha);
    CitationsIntact(t, m.citations, sha);
    ClosedExactly(t, m);
  }

  // ---- What the chunk writer records ----

  /** The index in decimal, padded with zeros to six digits and no further. */
  predicate SixDigits(text: string, i: nat) {
    |text| >= 6 && AllDigits(text) && Value(text) == i && (|text| > 6 ==> text[0] != '0')
  }

  lemma {:induction false} DecimalCanonical(n: nat)
    ensures AllDigits(Decimal(n)) && Value(Decimal(n)) == n && (Decimal(n)[0] == '0' ==> n == 0)
  {
    DecimalValue(n);
    if n >= 10 { DecimalCanonical(n / 10); }
  }

  lemma Index6IsSix(n: nat)
    ensures SixDigits(Index6(n), n)
  {
    Index6Value(n);
    DecimalCanonical(n);
    if |Decimal(n)| > 6 { assert Decimal(0) == "0"; }
  }

  /** The row at `i` records its range of the payload, as long as a chunk may be, under a name of origin, index and hash. */
  ghost predicate RowRecorded(kind: string, origin: string, originalSha256: string, payload: Bytes, rows: seq<ChunkRow>, i: nat, sha: Bytes -> string)
    requires i < |rows|
  {
    var row := rows[i];
    && row.index == i && row.byteStart == (if i == 0 then 0 else rows[i - 1].byteEnd)
    && 0 <= row.byteStart <= row.byteEnd <= |payload| && row.size == row.byteEnd - row.byteStart <= 24000
    && (payload != [] ==> row.byteStart < row.byteEnd)
    && WellFormed(payload[..row.byteEnd])
    && (forall j :: row.byteEnd < j <= |payload| && j <= row.byteStart + 24000 ==> !WellFormed(payload[..j]))
    && row.sha256 == sha(payload[row.byteStart..row.byteEnd])
    && row.originalSha256 == originalSha256 && row.originalSize == |payload|
    && exists six :: SixDigits(six, i) && row.path == "chunks/" + kind + "/" + sha(Encode(origin)) + "/" + six + "-" + row.sha256 + ".utf8"
  }

  lemma PathIs(kind: string, identity: string, i: nat, digest: string)
    ensures ChunkPath(kind, identity, i, digest) == "chunks/" + kind + "/" + identity + "/" + Index6(i) + "-" + digest + ".utf8"
  {
    hide Index6;
    var six := Index6(i);
    assert LeafName(i, digest) == six + "-" + digest + ".utf8";
    assert Prefix(kind) == "chunks/" + kind + "/";
  }

  /** Where a chunk stands. */
  ghost predicate Placed(payload: Bytes, cs: seq<Chunk>, i: nat)
    requires i < |cs|
  {
    && cs[i].start == (if i == 0 then 0 else cs[i - 1].end) && cs[i].start <= cs[i].end <= |payload| && cs[i].end - cs[i].start <= 24000
    && (payload != [] ==> cs[i].start < cs[i].end) && cs[i].bytes == payload[cs[i].start..cs[i].end]
    && WellFormed(payload[..cs[i].end])
    && forall j :: cs[i].end < j <= |payload| && j <= cs[i].start + 24000 ==> !WellFormed(payload[..j])
  }

  lemma ChunkPlaced(payload: Bytes, cs: seq<Chunk>, i: nat)
    requires WellFormed(payload) && ChunksOf(payload, 24000) == Chunks(cs) && i < |cs|
    ensures Placed(payload, cs, i)
  {
    hide ChunksOf;
    ChunksReconstruct(payload, 24000);
    if payload == [] {
      assert payload[..0] == payload[0..0] == [];
    } else {
      ChunkSpan(payload, cs, i);
      assert GreatestCut(payload, cs[i].start, cs[i].end, 24000);
    }
  }

  lemma ChunkRecorded(kind: string, origin: string, originalSha256: string, payload: Bytes, cs: seq<Chunk>, i: nat, sha: Bytes -> string)
    requires WellFormed(payload) && ChunksOf(payload, 24000) == Chunks(cs) && i < |cs|
    ensures RowRecorded(kind, origin, originalSha256, payload, RowsOf(kind, sha(Encode(origin)), originalSha256, |payload|, cs, sha), i, sha)
  {
    hide ChunksOf, WellFormed, Index6, SixDigits, ChunkPath, Encode;
    ChunkPlaced(payload, cs, i);
    PathIs(kind, sha(Encode(origin)), i, sha(cs[i].bytes));
    Index6IsSix(i);
    var six := Index6(i);
    assert SixDigits(six, i);
  }

  /** Every UTF-8 payload, and no other, is recorded, as consecutive rows that end where it ends. */
  lemma RowsRecordedExactly(kind: string, origin: string, originalSha256: string, payload: Bytes, sha: Bytes -> string)
    ensures ChunkRowsFor(kind, origin, originalSha256, payload, sha).Some? <==> WellFormed(payload)
    ensures WellFormed(payload) ==>
              var rows := ChunkRowsFor(kind, origin, originalSha256, payload, sha).value;
              && rows != [] && rows[|rows| - 1].byteEnd == |payload|
              && forall i :: 0 <= i < |rows| ==> RowRecorded(kind, origin, originalSha256, payload, rows, i, sha)
  {
    hide ChunksOf, WellFormed, RowRecorded;
    ChunksReconstruct(payload, 24000);
    if WellFormed(payload) {
      ReviewChunks(payload);
      var cs := ChunksOf(payload, 24000).rows;
      forall i | 0 <= i < |cs|
        ensures RowRecorded(kind, origin, originalSha256, payload, RowsOf(kind, sha(Encode(origin)), originalSha256, |payload|, cs, sha), i, sha)
      {
        ChunkRecorded(kind, origin, originalSha256, payload, cs, i, sha);
      }
    }
  }

  // ---- The shard cache ----

  /** A chunk of the manifest: of a file, or of a citation. */
  predicate Assigned(m: ShardManifest, c: ChunkRow) {
    || (exists i :: 0 <= i < |m.files| && c in m.files[i].chunks)
    || (exists i :: 0 <= i < |m.citations| && c in m.citations[i].chunks)
  }

  lemma AssignedExactly(m: ShardManifest, c: ChunkRow)
    ensures c in AssignedChunks(m) <==> Assigned(m, c)
  {
    FlatMember(FileChunks, m.files, c);
    FlatMember(CitationChunks, m.citations, c);
  }

  /** A shard tree: the manifest, a copy of every assigned chunk, no other file, and no directory but theirs. */
  ghost predicate ShardTreeOf(t: Tree, full: map<string, Bytes>, m: ShardManifest, codec: Codec<ShardManifest>, sha: Bytes -> string) {
    && "manifest.json" in t.files && |t.files["manifest.json"]| <= 33554432
    && codec.decode(t.files["manifest.json"]) == Some(m) && codec.encode(m) == t.files["manifest.json"]
    && (forall c :: Assigned(m, c) ==>
          && c.path in t.files && c.path in full && t.files[c.path] == full[c.path]
          && |t.files[c.path]| <= 33554432 && |t.files[c.path]| == c.size && sha(t.files[c.path]) == c.sha256)
    && (forall p :: p in t.files <==> p == "manifest.json" || exists c :: Assigned(m, c) && c.path == p)
    && forall d :: d in t.dirs <==> d == "." || exists p, i :: p in t.files && 0 <= i < |p| && p[i] == '/' && d == p[..i]
  }

  lemma ChunkPathIs(m: ShardManifest, p: string)
    ensures p in ChunkPaths(AssignedChunks(m)) <==> exists c :: Assigned(m, c) && c.path == p
  {
    hide AssignedChunks, Assigned;
    if c :| Assigned(m, c) && c.path == p { AssignedExactly(m, c); }
    if p in ChunkPaths(AssignedChunks(m)) {
      var c :| c in AssignedChunks(m) && c.path == p;
      AssignedExactly(m, c);
    }
  }

  /** A shard cache is accepted exactly when it is the shard's tree. */
  lemma ShardCacheExactly(t: Tree, full: map<string, Bytes>, m: ShardManifest, codec: Codec<ShardManifest>, sha: Bytes -> string)
    ensures ShardCacheOk(t, full, m, codec, sha) <==> ShardTreeOf(t, full, m, codec, sha)
  {
    hide AssignedChunks, Assigned, ChunkPaths, Ancestors;
    var chunks := AssignedChunks(m);
    var expected := {CACHE_MANIFEST_NAME} + ChunkPaths(chunks);
    forall c ensures c in chunks <==> Assigned(m, c) { AssignedExactly(m, c); }
    forall p ensures p in ChunkPaths(chunks) <==> exists c :: Assigned(m, c) && c.path == p { ChunkPathIs(m, p); }
    forall d ensures d in Ancestors(expected) <==> exists p, i :: p in expected && 0 <= i < |p| && p[i] == '/' && d == p[..i] { AncestorIs(expected, d); }
    EachCopied(t, full, chunks, sha);
    if forall p :: p in t.files <==> p == "manifest.json" || exists c :: Assigned(m, c) && c.path == p { assert t.files.Keys == expected; }
  }

  lemma EachCopied(t: Tree, full: map<string, Bytes>, chunks: seq<ChunkRow>, sha: Bytes -> string)
    ensures (forall i :: 0 <= i < |chunks| ==> ChunkCopied(t, full, chunks[i], sha)) <==> forall c :: c in chunks ==> ChunkCopied(t, full, c, sha)
  {
    hide ChunkCopied;
    if forall i :: 0 <= i < |chunks| ==> ChunkCopied(t, full, chunks[i], sha) {
      forall c | c in chunks ensures ChunkCopied(t, full, c, sha) { var i :| 0 <= i < |chunks| && chunks[i] == c; }
    }
    if forall c :: c in chunks ==> ChunkCopied(t, full, c, sha) {
      forall i | 0 <= i < |chunks| ensures ChunkCopied(t, full, chunks[i], sha) { assert chunks[i] in chunks; }
    }
  }
}
