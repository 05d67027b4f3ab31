/** Revalidating a full review cache (`_chunk_rows`, `_validated_full_payloads`). */
module FullCache {
  import opened Sequences
  import opened Utf8
  import opened CacheModel

  predicate ChunkRowOk(rows: seq<ChunkRow>, i: nat, prefix: string)
    requires i < |rows|
  {
    var row := rows[i];
    && CanonicalRelative(row.path) && StartsWith(row.path, prefix)
    && row.index == i && row.size >= 0 && row.byteStart >= 0 && row.byteEnd >= 0 && row.originalSize >= 0
    && row.byteStart == (if i == 0 then 0 else rows[i - 1].byteEnd)
    && row.byteEnd - row.byteStart == row.size
    && IsSha256(row.sha256) && IsSha256(row.originalSha256)
  }

  /** Consecutive indices and byte ranges from 0 to the original size. */
  predicate ChunkRowsOk(rows: seq<ChunkRow>, prefix: string) {
    && (forall i :: 0 <= i < |rows| ==> ChunkRowOk(rows, i, prefix))
    && (rows != [] ==> rows[|rows| - 1].byteEnd == rows[|rows| - 1].originalSize)
  }

  method CheckChunkRows(rows: seq<ChunkRow>, prefix: string) returns (ok: bool)
    ensures ok <==> ChunkRowsOk(rows, prefix)
  {
    var previousEnd := 0;
    var i := 0;
    while i < |rows|
      invariant 0 <= i <= |rows|
      invariant forall k :: 0 <= k < i ==> ChunkRowOk(rows, k, prefix)
      invariant previousEnd == if i == 0 then 0 else rows[i - 1].byteEnd
    {
      var row := rows[i];
      var canonical := CanonicalRelative(row.path);
      var counts := row.index >= 0 && row.size >= 0 && row.byteStart >= 0 && row.byteEnd >= 0 && row.originalSize >= 0;
      var ranges := row.index == i && row.byteStart == previousEnd && row.byteEnd - row.byteStart == row.size;
      if !canonical || !StartsWith(row.path, prefix) || !counts || !ranges
         || !IsSha256(row.sha256) || !IsSha256(row.originalSha256)
      {
        assert !ChunkRowOk(rows, i, prefix);
        return false;
      }
      previousEnd := row.byteEnd;
      i := i + 1;
    }
    ok := rows == [] || previousEnd == rows[|rows| - 1].originalSize;
  }

  /** The tree holds the declared file with the declared identity. */
  predicate Holds(t: Tree, d: Declared, prefix: string, suffix: string, sha: Bytes -> string) {
    && CanonicalRelative(d.path) && StartsWith(d.path, prefix) && EndsWith(d.path, suffix)
    && IsSha256(d.sha256) && d.size >= 0
    && Readable(t, d.path)
    && |t.files[d.path]| == d.size && sha(t.files[d.path]) == d.sha256
  }

  function ChunkFile(c: ChunkRow): Declared { Declared(c.path, c.sha256, c.size) }

  function Payload(files: map<string, Bytes>, path: string): Bytes {
    if path in files then files[path] else []
  }

  function Rebuilt(files: map<string, Bytes>, chunks: seq<ChunkRow>): Bytes {
    FlatMap((c: ChunkRow) => Payload(files, c.path), chunks)
  }

  predicate ChunkHeld(t: Tree, c: ChunkRow, prefix: string, sha: Bytes -> string) {
    Holds(t, ChunkFile(c), prefix, ".utf8", sha) && WellFormed(Payload(t.files, c.path))
  }

  predicate ChunksHeld(t: Tree, chunks: seq<ChunkRow>, prefix: string, sha: Bytes -> string) {
    forall i :: 0 <= i < |chunks| ==> ChunkHeld(t, chunks[i], prefix, sha)
  }

  /** Every chunk names the same original, and together they are it. */
  predicate Reconstructs(t: Tree, chunks: seq<ChunkRow>, original: Declared) {
    && Rebuilt(t.files, chunks) == Payload(t.files, original.path)
    && forall i :: 0 <= i < |chunks| ==>
         chunks[i].originalSha256 == original.sha256 && chunks[i].originalSize == original.size
  }

  predicate FileValid(t: Tree, f: FullFile, sha: Bytes -> string) {
    && Holds(t, f.cache, "files/", f.path, sha)
    && ChunkRowsOk(f.chunks, "chunks/source/") && ChunksHeld(t, f.chunks, "chunks/source/", sha)
    && (f.inspectionRequired <==> f.chunks != [])
    && (f.chunks != [] ==> Reconstructs(t, f.chunks, f.cache))
  }

  predicate ArtifactHeld(t: Tree, a: FullArtifact, sha: Bytes -> string) {
    Holds(t, a.body, "citations/resolver/", ".body", sha)
  }

  predicate OptionalHeld(t: Tree, d: Option<Declared>, prefix: string, suffix: string, sha: Bytes -> string) {
    d.Some? ==> Holds(t, d.value, prefix, suffix, sha)
  }

  /** The text chunks of a citation are present and cover its inspection payload. */
  predicate InspectionHeld(t: Tree, c: FullCitation, sha: Bytes -> string) {
    && ChunkRowsOk(c.chunks, "chunks/citation/") && ChunksHeld(t, c.chunks, "chunks/citation/", sha)
    && (c.chunks != [] ==> c.inspection.Some? && Reconstructs(t, c.chunks, c.inspection.value))
  }

  predicate CitationValid(t: Tree, c: FullCitation, sha: Bytes -> string) {
    && OptionalHeld(t, c.body, "citations/bodies/", ".body", sha)
    && OptionalHeld(t, c.inspection, "citations/text/", ".txt", sha)
    && (forall i :: 0 <= i < |c.artifacts| ==> ArtifactHeld(t, c.artifacts[i], sha))
    && InspectionHeld(t, c, sha)
    && (!c.inspectionRequired ==> c.chunks == [])
    && (c.available ==> c.body.Some?)
  }

  function FilePaths(f: FullFile): set<string> {
    {f.cache.path} + ChunkPaths(f.chunks)
  }

  function ArtifactBodies(artifacts: seq<FullArtifact>): set<string> {
    set a | a in artifacts :: a.body.path
  }

  function OptionalPath(d: Option<Declared>): set<string> {
    if d.Some? then {d.value.path} else {}
  }

  function CitationPaths(c: FullCitation): set<string> {
    OptionalPath(c.body) + OptionalPath(c.inspection) + ArtifactBodies(c.artifacts) + ChunkPaths(c.chunks)
  }

  function FilesPaths(files: seq<FullFile>): set<string> {
    set f, p | f in files && p in FilePaths(f) :: p
  }

  function CitationsPaths(citations: seq<FullCitation>): set<string> {
    set c, p | c in citations && p in CitationPaths(c) :: p
  }

  function DeclaredPaths(m: FullManifest): set<string> {
    {CACHE_MANIFEST_NAME} + FilesPaths(m.files) + CitationsPaths(m.citations)
  }

  predicate ManifestHeld<M(==)>(t: Tree, m: M, codec: Codec<M>) {
    && Readable(t, CACHE_MANIFEST_NAME)
    && codec.decode(t.files[CACHE_MANIFEST_NAME]) == Some(m)
    && codec.encode(m) == t.files[CACHE_MANIFEST_NAME]
  }

  function FileKeys(files: seq<FullFile>): seq<string> { seq(|files|, i requires 0 <= i < |files| => files[i].path) }

  function CitationUrls(cs: seq<FullCitation>): seq<string> { seq(|cs|, i requires 0 <= i < |cs| => cs[i].requestedUrl) }

  predicate FilesValid(t: Tree, files: seq<FullFile>, sha: Bytes -> string) {
    NoDuplicates(FileKeys(files)) && forall i :: 0 <= i < |files| ==> FileValid(t, files[i], sha)
  }

  predicate CitationsValid(t: Tree, citations: seq<FullCitation>, sha: Bytes -> string) {
    NoDuplicates(CitationUrls(citations)) && forall i :: 0 <= i < |citations| ==> CitationValid(t, citations[i], sha)
  }

  /** What a full cache must satisfy to be accepted. */
  predicate FullValid(t: Tree, m: FullManifest, codec: Codec<FullManifest>, sha: Bytes -> string) {
    && ManifestHeld(t, m, codec)
    && FilesValid(t, m.files, sha)
    && CitationsValid(t, m.citations, sha)
    && ClosedTree(t, DeclaredPaths(m))
  }

  /** The payload dictionary and the expected paths while rows are being declared. */
  predicate Inventory(t: Tree, payloads: map<string, Bytes>, expected: set<string>) {
    && payloads.Keys == expected
    && forall p :: p in payloads ==> Readable(t, p) && payloads[p] == t.files[p]
  }

  method DeclarePayload(t: Tree, d: Declared, prefix: string, suffix: string, sha: Bytes -> string,
                        payloads0: map<string, Bytes>, expected0: set<string>)
    returns (ok: bool, payloads: map<string, Bytes>, expected: set<string>)
    requires Inventory(t, payloads0, expected0)
    ensures ok <==> Holds(t, d, prefix, suffix, sha)
    ensures ok ==> Inventory(t, payloads, expected) && expected == expected0 + {d.path}
  {
    ok, payloads, expected := false, payloads0, expected0;
    var canonical := CanonicalRelative(d.path);
    if !canonical || !StartsWith(d.path, prefix) || !EndsWith(d.path, suffix) || !IsSha256(d.sha256) || d.size < 0 {
      return;
    }
    expected := expected + {d.path};
    if d.path !in payloads {
      if !Readable(t, d.path) { return; }
      payloads := payloads[d.path := t.files[d.path]];
    }
    ok := |payloads[d.path]| == d.size && sha(payloads[d.path]) == d.sha256;
  }

  method DeclareChunk(t: Tree, c: ChunkRow, prefix: string, sha: Bytes -> string,
                      payloads0: map<string, Bytes>, expected0: set<string>)
    returns (ok: bool, payloads: map<string, Bytes>, expected: set<string>)
    requires Inventory(t, payloads0, expected0)
    ensures ok <==> ChunkHeld(t, c, prefix, sha)
    ensures ok ==> Inventory(t, payloads, expected) && expected == expected0 + {c.path}
  {
    ok, payloads, expected := DeclarePayload(t, ChunkFile(c), prefix, ".utf8", sha, payloads0, expected0);
    if ok { ok := WellFormed(payloads[c.path]); }
  }

  lemma NothingDeclared(files: map<string, Bytes>)
    ensures ChunkPaths([]) == {} && Rebuilt(files, []) == []
  {
  }

  lemma ChunkPathsSnoc(chunks: seq<ChunkRow>, i: nat)
    requires i < |chunks|
    ensures ChunkPaths(chunks[..i + 1]) == ChunkPaths(chunks[..i]) + {chunks[i].path}
  {
    assert chunks[..i + 1] == chunks[..i] + [chunks[i]];
  }

  lemma RebuiltSnoc(files: map<string, Bytes>, chunks: seq<ChunkRow>, i: nat)
    requires i < |chunks|
    ensures Rebuilt(files, chunks[..i + 1]) == Rebuilt(files, chunks[..i]) + Payload(files, chunks[i].path)
  {
    assert chunks[..i + 1] == chunks[..i] + [chunks[i]];
    FlatMapSnoc((c: ChunkRow) => Payload(files, c.path), chunks[..i], chunks[i]);
  }

  method DeclareChunks(t: Tree, chunks: seq<ChunkRow>, prefix: string, sha: Bytes -> string,
                       payloads0: map<string, Bytes>, expected0: set<string>)
    returns (ok: bool, payloads: map<string, Bytes>, expected: set<string>, rebuilt: Bytes)
    requires Inventory(t, payloads0, expected0)
    ensures ok <==> ChunksHeld(t, chunks, prefix, sha)
    ensures ok ==> Inventory(t, payloads, expected) && expected == expected0 + ChunkPaths(chunks)
    ensures ok ==> rebuilt == Rebuilt(t.files, chunks)
  {
    hide ChunkHeld, Rebuilt, ChunkPaths;
    NothingDeclared(t.files);
    assert chunks[..0] == [];
    payloads, expected, rebuilt := payloads0, expected0, [];
    var i := 0;
    while i < |chunks|
      invariant 0 <= i <= |chunks|
      invariant forall k :: 0 <= k < i ==> ChunkHeld(t, chunks[k], prefix, sha)
      invariant Inventory(t, payloads, expected) && expected == expected0 + ChunkPaths(chunks[..i])
      invariant rebuilt == Rebuilt(t.files, chunks[..i])
    {
      ok, payloads, expected := DeclareChunk(t, chunks[i], prefix, sha, payloads, expected);
      if !ok { return; }
      rebuilt := rebuilt + payloads[chunks[i].path];
      ChunkPathsSnoc(chunks, i);
      RebuiltSnoc(t.files, chunks, i);
      i := i + 1;
    }
    assert chunks[..i] == chunks;
    ok := true;
  }

  method DeclareFile(t: Tree, f: FullFile, sha: Bytes -> string, payloads0: map<string, Bytes>, expected0: set<string>)
    returns (ok: bool, payloads: map<string, Bytes>, expected: set<string>)
    requires Inventory(t, payloads0, expected0)
    ensures ok <==> FileValid(t, f, sha)
    ensures ok ==> Inventory(t, payloads, expected) && expected == expected0 + FilePaths(f)
  {
    hide Holds, ChunkHeld, Rebuilt, ChunkRowOk, ChunkPaths;
    ok, payloads, expected := DeclarePayload(t, f.cache, "files/", f.path, sha, payloads0, expected0);
    if !ok { return; }
    HeldIsReadable(t, f.cache, "files/", f.path, sha);
    var source := payloads[f.cache.path];
    ok := CheckChunkRows(f.chunks, "chunks/source/");
    if !ok { return; }
    if f.inspectionRequired != (f.chunks != []) { return false, payloads, expected; }
    var rebuilt;
    ok, payloads, expected, rebuilt := DeclareChunks(t, f.chunks, "chunks/source/", sha, payloads, expected);
    if !ok { return; }
    if f.chunks != [] {
      ok := rebuilt == source && forall i :: 0 <= i < |f.chunks| ==>
              f.chunks[i].originalSha256 == f.cache.sha256 && f.chunks[i].originalSize == f.cache.size;
    }
  }

  lemma HeldIsReadable(t: Tree, d: Declared, prefix: string, suffix: string, sha: Bytes -> string)
    requires Holds(t, d, prefix, suffix, sha)
    ensures d.path in t.files && Payload(t.files, d.path) == t.files[d.path] && Readable(t, d.path)
  {
  }

  lemma NoArtifacts()
    ensures ArtifactBodies([]) == {}
  {
  }

  lemma ArtifactBodiesSnoc(artifacts: seq<FullArtifact>, i: nat)
    requires i < |artifacts|
    ensures ArtifactBodies(artifacts[..i + 1]) == ArtifactBodies(artifacts[..i]) + {artifacts[i].body.path}
  {
    assert artifacts[..i + 1] == artifacts[..i] + [artifacts[i]];
  }

  method DeclareArtifact(t: Tree, a: FullArtifact, sha: Bytes -> string, payloads0: map<string, Bytes>, expected0: set<string>)
    returns (ok: bool, payloads: map<string, Bytes>, expected: set<string>)
    requires Inventory(t, payloads0, expected0)
    ensures ok <==> ArtifactHeld(t, a, sha)
    ensures ok ==> Inventory(t, payloads, expected) && expected == expected0 + {a.body.path}
  {
    hide Holds;
    ok, payloads, expected := DeclarePayload(t, a.body, "citations/resolver/", ".body", sha, payloads0, expected0);
  }

  method DeclareArtifacts(t: Tree, artifacts: seq<FullArtifact>, sha: Bytes -> string,
                          payloads0: map<string, Bytes>, expected0: set<string>)
    returns (ok: bool, payloads: map<string, Bytes>, expected: set<string>)
    requires Inventory(t, payloads0, expected0)
    ensures ok <==> forall i :: 0 <= i < |artifacts| ==> ArtifactHeld(t, artifacts[i], sha)
    ensures ok ==> Inventory(t, payloads, expected) && expected == expected0 + ArtifactBodies(artifacts)
  {
    hide Holds, ArtifactBodies, ArtifactHeld;
    NoArtifacts();
    assert artifacts[..0] == [];
    payloads, expected := payloads0, expected0;
    var i := 0;
    while i < |artifacts|
      invariant 0 <= i <= |artifacts|
      invariant forall k :: 0 <= k < i ==> ArtifactHeld(t, artifacts[k], sha)
      invariant Inventory(t, payloads, expected) && expected == expected0 + ArtifactBodies(artifacts[..i])
    {
      ok, payloads, expected := DeclareArtifact(t, artifacts[i], sha, payloads, expected);
      if !ok { return; }
      ArtifactBodiesSnoc(artifacts, i);
      i := i + 1;
    }
    assert artifacts[..i] == artifacts;
    ok := true;
  }

  method DeclareOptional(t: Tree, d: Option<Declared>, prefix: string, suffix: string, sha: Bytes -> string,
                         payloads0: map<string, Bytes>, expected0: set<string>)
    returns (ok: bool, payloads: map<string, Bytes>, expected: set<string>)
    requires Inventory(t, payloads0, expected0)
    ensures ok <==> OptionalHeld(t, d, prefix, suffix, sha)
    ensures ok ==> Inventory(t, payloads, expected) && expected == expected0 + OptionalPath(d)
  {
    hide Holds;
    ok, payloads, expected := true, payloads0, expected0;
    if d.Some? { ok, payloads, expected := DeclarePayload(t, d.value, prefix, suffix, sha, payloads, expected); }
  }

  method DeclareInspection(t: Tree, c: FullCitation, sha: Bytes -> string,
                           payloads0: map<string, Bytes>, expected0: set<string>)
    returns (ok: bool, payloads: map<string, Bytes>, expected: set<string>)
    requires Inventory(t, payloads0, expected0)
    requires c.inspection.Some? ==> c.inspection.value.path in payloads0
    ensures ok <==> InspectionHeld(t, c, sha)
    ensures ok ==> Inventory(t, payloads, expected) && expected == expected0 + ChunkPaths(c.chunks)
  {
    hide Holds, ChunkHeld, Rebuilt, ChunkRowOk, ChunkPaths;
    payloads, expected := payloads0, expected0;
    ok := CheckChunkRows(c.chunks, "chunks/citation/");
    if !ok { return; }
    var rebuilt;
    ok, payloads, expected, rebuilt := DeclareChunks(t, c.chunks, "chunks/citation/", sha, payloads, expected);
    if ok && c.chunks != [] {
      ok := c.inspection.Some? && rebuilt == payloads0[c.inspection.value.path]
            && forall i :: 0 <= i < |c.chunks| ==>
                 c.chunks[i].originalSha256 == c.inspection.value.sha256
                 && c.chunks[i].originalSize == c.inspection.value.size;
    }
  }

  method DeclareCitation(t: Tree, c: FullCitation, sha: Bytes -> string,
                         payloads0: map<string, Bytes>, expected0: set<string>)
    returns (ok: bool, payloads: map<string, Bytes>, expected: set<string>)
    requires Inventory(t, payloads0, expected0)
    ensures ok <==> CitationValid(t, c, sha)
    ensures ok ==> Inventory(t, payloads, expected) && expected == expected0 + CitationPaths(c)
  {
    hide OptionalHeld, ArtifactHeld, InspectionHeld, ArtifactBodies, ChunkPaths;
    ok, payloads, expected := DeclareOptional(t, c.body, "citations/bodies/", ".body", sha, payloads0, expected0);
    if !ok { return; }
    ok, payloads, expected := DeclareOptional(t, c.inspection, "citations/text/", ".txt", sha, payloads, expected);
    if !ok { return; }
    ok, payloads, expected := DeclareArtifacts(t, c.artifacts, sha, payloads, expected);
    if !ok { return; }
    ok, payloads, expected := DeclareInspection(t, c, sha, payloads, expected);
    if !ok { return; }
    ok := (c.inspectionRequired || c.chunks == []) && (c.available ==> c.body.Some?);
  }

  lemma FilesPathsSnoc(files: seq<FullFile>, i: nat)
    requires i < |files|
    ensures FilesPaths(files[..i + 1]) == FilesPaths(files[..i]) + FilePaths(files[i])
  {
    assert files[..i + 1] == files[..i] + [files[i]];
  }

  lemma CitationsPathsSnoc(cs: seq<FullCitation>, i: nat)
    requires i < |cs|
    ensures CitationsPaths(cs[..i + 1]) == CitationsPaths(cs[..i]) + CitationPaths(cs[i])
  {
    assert cs[..i + 1] == cs[..i] + [cs[i]];
  }

  lemma NoPathsDeclared()
    ensures FilesPaths([]) == {} && CitationsPaths([]) == {}
  {
  }

  lemma RepeatedFileKeys(files: seq<FullFile>, k: nat, i: nat)
    requires k < i < |files| && files[k].path == files[i].path
    ensures !NoDuplicates(FileKeys(files))
  {
    assert FileKeys(files)[k] == FileKeys(files)[i];
  }

  lemma RepeatedCitationUrls(cs: seq<FullCitation>, k: nat, i: nat)
    requires k < i < |cs| && cs[k].requestedUrl == cs[i].requestedUrl
    ensures !NoDuplicates(CitationUrls(cs))
  {
    assert CitationUrls(cs)[k] == CitationUrls(cs)[i];
  }

  method DeclareFiles(t: Tree, files: seq<FullFile>, sha: Bytes -> string,
                      payloads0: map<string, Bytes>, expected0: set<string>)
    returns (ok: bool, payloads: map<string, Bytes>, expected: set<string>)
    requires Inventory(t, payloads0, expected0)
    ensures ok <==> FilesValid(t, files, sha)
    ensures ok ==> Inventory(t, payloads, expected) && expected == expected0 + FilesPaths(files)
  {
    hide FileValid, FilePaths, FilesPaths, Inventory;
    NoPathsDeclared();
    assert files[..0] == [];
    payloads, expected := payloads0, expected0;
    var seen: set<string>, i := {}, 0;
    while i < |files|
      invariant 0 <= i <= |files|
      invariant seen == set k | 0 <= k < i :: files[k].path
      invariant forall k, l :: 0 <= k < l < i ==> files[k].path != files[l].path
      invariant forall k :: 0 <= k < i ==> FileValid(t, files[k], sha)
      invariant Inventory(t, payloads, expected) && expected == expected0 + FilesPaths(files[..i])
    {
      if files[i].path in seen {
        var k :| 0 <= k < i && files[k].path == files[i].path;
        RepeatedFileKeys(files, k, i);
        return false, payloads, expected;
      }
      seen := seen + {files[i].path};
      ok, payloads, expected := DeclareFile(t, files[i], sha, payloads, expected);
      if !ok { return; }
      FilesPathsSnoc(files, i);
      i := i + 1;
    }
    assert files[..i] == files;
    ok := true;
  }

  method DeclareCitations(t: Tree, cs: seq<FullCitation>, sha: Bytes -> string,
                          payloads0: map<string, Bytes>, expected0: set<string>)
    returns (ok: bool, payloads: map<string, Bytes>, expected: set<string>)
    requires Inventory(t, payloads0, expected0)
    ensures ok <==> CitationsValid(t, cs, sha)
    ensures ok ==> Inventory(t, payloads, expected) && expected == expected0 + CitationsPaths(cs)
  {
    hide CitationValid, CitationPaths, CitationsPaths, Inventory;
    NoPathsDeclared();
    assert cs[..0] == [];
    payloads, expected := payloads0, expected0;
    var seen: set<string>, i := {}, 0;
    while i < |cs|
      invariant 0 <= i <= |cs|
      invariant seen == set k | 0 <= k < i :: cs[k].requestedUrl
      invariant forall k, l :: 0 <= k < l < i ==> cs[k].requestedUrl != cs[l].requestedUrl
      invariant forall k :: 0 <= k < i ==> CitationValid(t, cs[k], sha)
      invariant Inventory(t, payloads, expected) && expected == expected0 + CitationsPaths(cs[..i])
    {
      if cs[i].requestedUrl in seen {
        var k :| 0 <= k < i && cs[k].requestedUrl == cs[i].requestedUrl;
        RepeatedCitationUrls(cs, k, i);
        return false, payloads, expected;
      }
      seen := seen + {cs[i].requestedUrl};
      ok, payloads, expected := DeclareCitation(t, cs[i], sha, payloads, expected);
      if !ok { return; }
      CitationsPathsSnoc(cs, i);
      i := i + 1;
    }
    assert cs[..i] == cs;
    ok := true;
  }

  /** `_validated_full_payloads`: accepts exactly the valid caches, and returns every file of the tree. */
  method ValidatedFullPayloads(t: Tree, m: FullManifest, codec: Codec<FullManifest>, sha: Bytes -> string)
    returns (r: Option<map<string, Bytes>>)
    ensures r.Some? <==> FullValid(t, m, codec, sha)
    ensures r.Some? ==> r.value == t.files
  {
    hide FilesValid, CitationsValid, FilesPaths, CitationsPaths;
    if !ManifestHeld(t, m, codec) { return None; }
    var payloads := map[CACHE_MANIFEST_NAME := t.files[CACHE_MANIFEST_NAME]];
    var expected := {CACHE_MANIFEST_NAME};
    var ok;
    ok, payloads, expected := DeclareFiles(t, m.files, sha, payloads, expected);
    if !ok { return None; }
    ok, payloads, expected := DeclareCitations(t, m.citations, sha, payloads, expected);
    if !ok { return None; }
    assert expected == DeclaredPaths(m);
    if !ClosedTree(t, expected) { return None; }
    return Some(payloads);
  }
}
