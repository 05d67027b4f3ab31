/** The private cache of one shard: written step by step, then validated as a closed tree.
    A tree that validates is determined byte for byte by the full cache and the shard manifest. */
module ShardCache {
  import opened Sequences
  import opened Utf8
  import opened CacheModel
  import opened FullCache
  import opened Surface
  import opened Projection

  /** A directory being filled with exclusive creation (`O_EXCL`, `mkdir`). */
  class Directory {
    var files: map<string, Bytes>
    var dirs: set<string>

    constructor ()
      ensures files == map[] && dirs == {"."}
    {
      files, dirs := map[], {"."};
    }

    method MakeDirectory(d: string) returns (ok: bool)
      modifies this
      ensures ok <==> d !in old(files) && d !in old(dirs)
      ensures files == old(files) && dirs == if ok then old(dirs) + {d} else old(dirs)
    {
      ok := d !in files && d !in dirs;
      if ok { dirs := dirs + {d}; }
    }

    method WriteFile(path: string, payload: Bytes) returns (ok: bool)
      modifies this
      ensures ok <==> path !in old(files) && path !in old(dirs)
      ensures dirs == old(dirs) && files == if ok then old(files)[path := payload] else old(files)
    {
      ok := path !in files && path !in dirs;
      if ok { files := files[path := payload]; }
    }

    /** Creates the missing directories on the way to `path`, outermost first. */
    method MakeParents(path: string) returns (ok: bool)
      requires files.Keys !! dirs
      modifies this
      ensures files == old(files)
      ensures ok <==> old(files.Keys) !! Ancestors({path})
      ensures ok ==> dirs == old(dirs) + Ancestors({path})
    {
      var i := 0;
      while i < |path|
        invariant 0 <= i <= |path|
        invariant files == old(files)
        invariant files.Keys !! dirs
        invariant dirs == old(dirs) + set k | 0 <= k < i && path[k] == '/' :: path[..k]
      {
        if path[i] == '/' && path[..i] !in dirs {
          ok := MakeDirectory(path[..i]);
          if !ok {
            assert path[..i] in Ancestors({path});
            return;
          }
        }
        i := i + 1;
      }
      ok := true;
    }

    /** One entry: its parents, then the file. */
    method AddEntry(path: string, payload: Bytes) returns (ok: bool)
      requires files.Keys !! dirs
      modifies this
      ensures ok <==> path !in old(files) && old(files.Keys) + {path} !! old(dirs) + Ancestors({path})
      ensures ok ==> files == old(files)[path := payload] && dirs == old(dirs) + Ancestors({path})
    {
      ok := MakeParents(path);
      if ok { ok := WriteFile(path, payload); }
    }

    /** Writes every payload below the root; `names` lists the keys. */
    method Materialize(payloads: map<string, Bytes>, names: seq<string>) returns (ok: bool)
      requires files == map[] && dirs == {"."}
      requires NoDuplicates(names) && Members(names) == payloads.Keys
      modifies this
      ensures ok <==> payloads.Keys !! {"."} + Ancestors(payloads.Keys)
      ensures ok ==> files == payloads && dirs == {"."} + Ancestors(payloads.Keys)
    {
      hide Ancestors;
      NoAncestors();
      assert names[..0] == [] && Members(names[..0]) == {};
      var n := 0;
      while n < |names|
        invariant 0 <= n <= |names|
        invariant files.Keys == Members(names[..n]) && forall x :: x in files ==> x in payloads && files[x] == payloads[x]
        invariant dirs == {"."} + Ancestors(Members(names[..n]))
        invariant files.Keys !! dirs
      {
        NameWritten(names, n);
        AncestorsUnion(Members(names[..n]), {names[n]});
        ok := AddEntry(names[n], payloads[names[n]]);
        if !ok {
          AncestorsGrow(Members(names[..n + 1]), payloads.Keys);
          return;
        }
        n := n + 1;
      }
      assert names[..n] == names;
      ok := true;
    }
  }

  lemma NameWritten(names: seq<string>, n: nat)
    requires n < |names| && NoDuplicates(names)
    ensures Members(names[..n + 1]) == Members(names[..n]) + {names[n]} <= Members(names)
    ensures names[n] in names && names[n] !in Members(names[..n])
  {
    assert names[..n + 1] == names[..n] + [names[n]];
  }

  lemma NoAncestors()
    ensures Ancestors({}) == {}
  {
  }

  lemma AncestorsUnion(a: set<string>, b: set<string>)
    ensures Ancestors(a + b) == Ancestors(a) + Ancestors(b)
  {
  }

  lemma AncestorsGrow(a: set<string>, b: set<string>)
    requires a <= b
    ensures Ancestors(a) <= Ancestors(b)
  {
  }

  // ---- Validation ----

  /** `validate_shard_cache` on one chunk row. */
  predicate ChunkCopied(t: Tree, full: map<string, Bytes>, c: ChunkRow, sha: Bytes -> string) {
    && Readable(t, c.path) && c.path in full && t.files[c.path] == full[c.path]
    && |t.files[c.path]| == c.size && sha(t.files[c.path]) == c.sha256
  }

  predicate ShardCacheOk(t: Tree, full: map<string, Bytes>, m: ShardManifest, codec: Codec<ShardManifest>, sha: Bytes -> string) {
    && ManifestHeld(t, m, codec)
    && (forall i :: 0 <= i < |AssignedChunks(m)| ==> ChunkCopied(t, full, AssignedChunks(m)[i], sha))
    && ClosedTree(t, {CACHE_MANIFEST_NAME} + ChunkPaths(AssignedChunks(m)))
  }

  method ValidateShardCache(t: Tree, full: map<string, Bytes>, m: ShardManifest, codec: Codec<ShardManifest>, sha: Bytes -> string)
    returns (ok: bool)
    ensures ok <==> ShardCacheOk(t, full, m, codec, sha)
  {
    hide AssignedChunks, ClosedTree, ManifestHeld;
    var chunks := AssignedChunks(m);
    ok := ManifestHeld(t, m, codec);
    if !ok { return; }
    var expected := {CACHE_MANIFEST_NAME};
    var i := 0;
    while i < |chunks|
      invariant 0 <= i <= |chunks|
      invariant forall k :: 0 <= k < i ==> ChunkCopied(t, full, chunks[k], sha)
      invariant expected == {CACHE_MANIFEST_NAME} + ChunkPaths(chunks[..i])
    {
      ok := ChunkCopied(t, full, chunks[i], sha);
      if !ok { return; }
      expected := expected + {chunks[i].path};
      ChunkPathsSnoc(chunks, i);
      i := i + 1;
    }
    assert chunks[..i] == chunks;
    ok := ClosedTree(t, expected);
  }

  /** The files a shard cache holds: its manifest and copies of the assigned chunks. */
  function ShardFiles(full: map<string, Bytes>, m: ShardManifest, encoded: Bytes): map<string, Bytes> {
    map p | p in {CACHE_MANIFEST_NAME} + ChunkPaths(AssignedChunks(m)) ::
      if p == CACHE_MANIFEST_NAME then encoded else Payload(full, p)
  }

  function ShardTree(full: map<string, Bytes>, m: ShardManifest, encoded: Bytes): Tree {
    Tree(ShardFiles(full, m, encoded), {"."} + Ancestors({CACHE_MANIFEST_NAME} + ChunkPaths(AssignedChunks(m))))
  }

  // ---- Assigned chunks are chunks of the full cache ----

  lemma AssignedSourceHeld(t: Tree, full: FullManifest, m: ShardManifest, budget: string, digest: seq<ShardCitation> -> string,
                           sha: Bytes -> string, i: nat, c: ChunkRow)
    requires FilesValid(t, full.files, sha) && ShardManifestOk(full, m, budget, digest)
    requires i < |m.files| && c in m.files[i].chunks
    ensures ChunkHeld(t, c, "chunks/source/", sha)
  {
    hide ChunkHeld, Holds, ChunkRowsOk, Reconstructs, SurfaceDigest, FlatMap;
    assert FileMatches(full, m.files[i]);
    var f := FindFile(full.files, m.files[i].path).value;
    assert FileValid(t, f, sha);
    var k :| 0 <= k < |f.chunks| && f.chunks[k] == c;
  }

  lemma AssignedCitationHeld(t: Tree, full: FullManifest, m: ShardManifest, budget: string, digest: seq<ShardCitation> -> string,
                             sha: Bytes -> string, i: nat, c: ChunkRow)
    requires CitationsValid(t, full.citations, sha) && ShardManifestOk(full, m, budget, digest)
    requires i < |m.citations| && c in m.citations[i].chunks
    ensures ChunkHeld(t, c, "chunks/citation/", sha)
  {
    hide ChunkHeld, Holds, ChunkRowsOk, Reconstructs, SurfaceDigest, FlatMap;
    assert CitationMatches(full, m.ruleReferences, m.citations[i]);
    var f := FindCitation(full.citations, m.citations[i].requestedUrl).value;
    assert CitationValid(t, f, sha);
    var k :| 0 <= k < |f.chunks| && f.chunks[k] == c;
  }

  lemma AssignedChunkHeld(t: Tree, full: FullManifest, m: ShardManifest, budget: string, digest: seq<ShardCitation> -> string,
                          sha: Bytes -> string, c: ChunkRow)
    requires FilesValid(t, full.files, sha) && CitationsValid(t, full.citations, sha)
    requires ShardManifestOk(full, m, budget, digest) && c in AssignedChunks(m)
    ensures ChunkHeld(t, c, "chunks/source/", sha) || ChunkHeld(t, c, "chunks/citation/", sha)
  {
    hide ChunkHeld, FilesValid, CitationsValid, ShardManifestOk;
    if c in FlatMap(FileChunks, m.files) {
      FlatMember(FileChunks, m.files, c);
      var i :| 0 <= i < |m.files| && c in FileChunks(m.files[i]);
      AssignedSourceHeld(t, full, m, budget, digest, sha, i, c);
    } else {
      FlatMember(CitationChunks, m.citations, c);
      var i :| 0 <= i < |m.citations| && c in CitationChunks(m.citations[i]);
      AssignedCitationHeld(t, full, m, budget, digest, sha, i, c);
    }
  }

  lemma HeldChunkFacts(t: Tree, c: ChunkRow, sha: Bytes -> string)
    requires ChunkHeld(t, c, "chunks/source/", sha) || ChunkHeld(t, c, "chunks/citation/", sha)
    ensures Readable(t, c.path) && Payload(t.files, c.path) == t.files[c.path] && WellFormed(t.files[c.path])
    ensures |t.files[c.path]| == c.size && sha(t.files[c.path]) == c.sha256
    ensures c.path != CACHE_MANIFEST_NAME && c.path != "."
  {
    assert CACHE_MANIFEST_NAME[0] == 'm' && "chunks/source/"[0] == 'c' && "chunks/citation/"[0] == 'c';
    assert c.path[0] == 'c' && "."[0] == '.';
  }

  /** The tree that validates is the shard tree and no other; a manifest over the read limit has none. */
  lemma ValidShardCacheIsUnique(
      t: Tree, source: Tree, full: FullManifest, fullCodec: Codec<FullManifest>, m: ShardManifest,
      codec: Codec<ShardManifest>, budget: string, digest: seq<ShardCitation> -> string, sha: Bytes -> string)
    requires FullValid(source, full, fullCodec, sha) && ShardManifestOk(full, m, budget, digest) && RoundTrips(codec)
    ensures ShardCacheOk(t, source.files, m, codec, sha) <==>
              t == ShardTree(source.files, m, codec.encode(m)) && |codec.encode(m)| <= MAX_CITATION_BYTES
  {
    hide AssignedChunks, FullValid, ShardManifestOk, ShardCacheOk, ShardTree, RoundTrips;
    var chunks := AssignedChunks(m);
    forall i | 0 <= i < |chunks| ensures SourceHolds(source, chunks[i], sha) {
      SourceChunkHeld(source, full, fullCodec, m, budget, digest, sha, chunks[i]);
    }
    if ShardCacheOk(t, source.files, m, codec, sha) { ValidIsShardTree(t, source.files, m, codec, sha); }
    if t == ShardTree(source.files, m, codec.encode(m)) && |codec.encode(m)| <= MAX_CITATION_BYTES {
      ShardTreeIsValid(source, m, codec, sha);
    }
  }

  /** What a valid full cache says of a chunk it lists. */
  predicate SourceHolds(source: Tree, c: ChunkRow, sha: Bytes -> string) {
    && Readable(source, c.path) && c.path != CACHE_MANIFEST_NAME
    && |source.files[c.path]| == c.size && sha(source.files[c.path]) == c.sha256
  }

  lemma SourceChunkHeld(source: Tree, full: FullManifest, fullCodec: Codec<FullManifest>, m: ShardManifest,
                        budget: string, digest: seq<ShardCitation> -> string, sha: Bytes -> string, c: ChunkRow)
    requires FullValid(source, full, fullCodec, sha) && ShardManifestOk(full, m, budget, digest) && c in AssignedChunks(m)
    ensures SourceHolds(source, c, sha)
  {
    hide AssignedChunks, FilesValid, CitationsValid, ShardManifestOk, ChunkHeld;
    AssignedChunkHeld(source, full, m, budget, digest, sha, c);
    HeldChunkFacts(source, c, sha);
  }

  lemma ValidIsShardTree(t: Tree, full: map<string, Bytes>, m: ShardManifest, codec: Codec<ShardManifest>, sha: Bytes -> string)
    requires ShardCacheOk(t, full, m, codec, sha)
    ensures t == ShardTree(full, m, codec.encode(m)) && |codec.encode(m)| <= MAX_CITATION_BYTES
  {
    hide AssignedChunks, Ancestors;
    assert t.files == ShardFiles(full, m, codec.encode(m));
  }

  lemma ShardTreeIsValid(source: Tree, m: ShardManifest, codec: Codec<ShardManifest>, sha: Bytes -> string)
    requires RoundTrips(codec) && |codec.encode(m)| <= MAX_CITATION_BYTES
    requires forall i :: 0 <= i < |AssignedChunks(m)| ==> SourceHolds(source, AssignedChunks(m)[i], sha)
    ensures ShardCacheOk(ShardTree(source.files, m, codec.encode(m)), source.files, m, codec, sha)
  {
    hide AssignedChunks, Ancestors;
    var t, chunks := ShardTree(source.files, m, codec.encode(m)), AssignedChunks(m);
    assert t.files[CACHE_MANIFEST_NAME] == codec.encode(m);
    forall i | 0 <= i < |chunks| ensures ChunkCopied(t, source.files, chunks[i], sha) {
      assert SourceHolds(source, chunks[i], sha);
      assert chunks[i].path in ChunkPaths(chunks);
      assert t.files[chunks[i].path] == source.files[chunks[i].path];
    }
  }

  lemma ChunkPathsIn(chunks: seq<ChunkRow>, p: string) returns (c: ChunkRow)
    requires p in ChunkPaths(chunks)
    ensures c in chunks && c.path == p
  {
    c :| c in chunks && c.path == p;
  }

  /** Copies of a valid full cache never need one name as both a file and a directory. */
  lemma NoNameConflict(source: Tree, full: FullManifest, fullCodec: Codec<FullManifest>, m: ShardManifest,
                       budget: string, digest: seq<ShardCitation> -> string, sha: Bytes -> string)
    requires IsTree(source) && FullValid(source, full, fullCodec, sha) && ShardManifestOk(full, m, budget, digest)
    ensures var names := {CACHE_MANIFEST_NAME} + ChunkPaths(AssignedChunks(m)); names !! {"."} + Ancestors(names)
  {
    hide AssignedChunks, FilesValid, CitationsValid, ShardManifestOk, ChunkHeld, Ancestors, DeclaredPaths;
    var chunks := AssignedChunks(m);
    var names := {CACHE_MANIFEST_NAME} + ChunkPaths(chunks);
    forall p | p in names ensures p in source.files && p != "." {
      if p != CACHE_MANIFEST_NAME {
        var c := ChunkPathsIn(chunks, p);
        AssignedChunkHeld(source, full, m, budget, digest, sha, c);
        HeldChunkFacts(source, c, sha);
      }
    }
    AncestorsGrow(names, source.files.Keys);
  }

  method KeyList(s: set<string>) returns (names: seq<string>)
    ensures NoDuplicates(names) && Members(names) == s
  {
    names := [];
    var rest := s;
    while rest != {}
      invariant NoDuplicates(names) && Members(names) !! rest && Members(names) + rest == s
      decreases rest
    {
      var x :| x in rest;
      assert x !in Members(names);
      assert Members(names + [x]) == Members(names) + {x};
      names := names + [x];
      rest := rest - {x};
    }
  }

  /** `materialize_shard_cache`: copy the assigned chunks and the manifest into an empty directory, then validate. */
  method MaterializeShardCache(
      source: Tree, full: FullManifest, fullCodec: Codec<FullManifest>, m: ShardManifest,
      codec: Codec<ShardManifest>, budget: string, digest: seq<ShardCitation> -> string, sha: Bytes -> string)
    returns (r: Option<Tree>)
    requires IsTree(source) && RoundTrips(codec)
    ensures r.Some? <==>
              && FullValid(source, full, fullCodec, sha) && ShardManifestOk(full, m, budget, digest)
              && |codec.encode(m)| <= MAX_CITATION_BYTES
    ensures r.Some? ==> r.value == ShardTree(source.files, m, codec.encode(m))
    ensures r.Some? ==> ShardCacheOk(r.value, source.files, m, codec, sha)
  {
    hide FullValid, ShardManifestOk, AssignedChunks, ChunkPaths, Ancestors, ShardCacheOk;
    var fullPayloads := ValidatedFullPayloads(source, full, fullCodec, sha);
    if fullPayloads == None { return None; }
    var accepted := ShardManifestOk(full, m, budget, digest);
    if !accepted { return None; }
    var payloads := ShardFiles(fullPayloads.value, m, codec.encode(m));
    var names := KeyList(payloads.Keys);
    var target := new Directory();
    NoNameConflict(source, full, fullCodec, m, budget, digest, sha);
    assert payloads.Keys == {CACHE_MANIFEST_NAME} + ChunkPaths(AssignedChunks(m));
    var written := target.Materialize(payloads, names);
    var t := Tree(target.files, target.dirs);
    ValidShardCacheIsUnique(t, source, full, fullCodec, m, codec, budget, digest, sha);
    var valid := ValidateShardCache(t, fullPayloads.value, m, codec, sha);
    if !valid { return None; }
    return Some(t);
  }
}
