/** The review cache: a manifest, and a private directory tree of content-addressed files. */
module CacheModel {
  import opened Sequences
  import opened Utf8

  const CACHE_MANIFEST_NAME := "manifest.json"
  const MAX_CITATION_BYTES := 32 * 1024 * 1024

  datatype ChunkRow = ChunkRow(
    index: int, path: string, sha256: string, size: int, byteStart: int, byteEnd: int,
    originalSha256: string, originalSize: int)

  /** A file the manifest declares, with the identity it must have. */
  datatype Declared = Declared(path: string, sha256: string, size: int)

  /** The response metadata of one fetch. */
  datatype FetchFacts = FetchFacts(status: int, finalUrl: string, redirectChain: seq<string>, contentType: string)

  datatype Parser = Parser(
    id: string, version: string, commandSha256: string,
    executableSha256: Option<string>, versionOutputSha256: Option<string>)

  datatype FullFile = FullFile(
    path: string, hashKind: string, sha256: string, cache: Declared,
    inspectionRequired: bool, chunks: seq<ChunkRow>)

  datatype FullArtifact = FullArtifact(kind: string, requestedUrl: string, facts: FetchFacts, body: Declared)

  datatype FullCitation = FullCitation(
    requestedUrl: string, evidenceUrl: string, resolverId: string, referenceIds: seq<string>,
    inspectionRequired: bool, identityVerified: bool, available: bool,
    facts: Option<FetchFacts>, body: Option<Declared>, inspection: Option<Declared>, parser: Option<Parser>,
    artifacts: seq<FullArtifact>, chunks: seq<ChunkRow>, errorCode: Option<string>)

  datatype FullManifest = FullManifest(
    protocolId: string, snapshotSha256: string, chunkContract: string,
    files: seq<FullFile>, citations: seq<FullCitation>)

  /** Shard rows carry hashes and sizes but no private body paths. */
  datatype Identity = Identity(sha256: string, size: int)

  datatype ShardFile = ShardFile(
    path: string, hashKind: string, sha256: string, cache: Identity,
    inspectionRequired: bool, chunks: seq<ChunkRow>)

  datatype ShardArtifact = ShardArtifact(kind: string, requestedUrl: string, facts: FetchFacts, body: Identity)

  datatype ShardCitation = ShardCitation(
    requestedUrl: string, evidenceUrl: string, resolverId: string, referenceIds: seq<string>,
    inspectionRequired: bool, identityVerified: bool, available: bool,
    facts: Option<FetchFacts>, body: Option<Identity>, inspection: Option<Identity>, parser: Option<Parser>,
    artifacts: seq<ShardArtifact>, chunks: seq<ChunkRow>, errorCode: Option<string>)

  datatype RuleReference = RuleReference(
    referenceId: string, surfaceSha256: string, ruleId: string, citationUrl: string, section: string)

  datatype ShardManifest = ShardManifest(
    protocolId: string, snapshotSha256: string, planSha256: string, shardId: string,
    citationSurfaceSha256: string, fullSurfaceSha256: string,
    sourcePaths: seq<string>, assertionIds: seq<string>, ruleReferences: seq<RuleReference>,
    files: seq<ShardFile>, citations: seq<ShardCitation>,
    chunkContract: string, budgetContract: string)

  function ChunkPaths(chunks: seq<ChunkRow>): set<string> {
    set c | c in chunks :: c.path
  }

  /** A JSON codec for one manifest type; strict parsing may fail. */
  datatype Codec<!M> = Codec(encode: M -> Bytes, decode: Bytes -> Option<M>)

  ghost predicate RoundTrips<M(!new)>(codec: Codec<M>) {
    forall m :: codec.decode(codec.encode(m)) == Some(m)
  }

  /** Regular files by relative path, and the directories that exist ("." is the root). */
  datatype Tree = Tree(files: map<string, Bytes>, dirs: set<string>)

  /** The directories on the way to `paths`. */
  function Ancestors(paths: set<string>): set<string> {
    set p, i | p in paths && 0 <= i < |p| && p[i] == '/' :: p[..i]
  }

  /** A name is a file or a directory, never both. */
  ghost predicate IsTree(t: Tree) {
    t.files.Keys !! t.dirs
  }

  /** `_closed_tree`: exactly the expected files and their parent directories. */
  predicate ClosedTree(t: Tree, expected: set<string>) {
    t.files.Keys == expected && t.dirs == {"."} + Ancestors(expected)
  }

  /** `_read_private_cache_file`, with its fixed byte limit. */
  predicate Readable(t: Tree, path: string) {
    path in t.files && |t.files[path]| <= MAX_CITATION_BYTES
  }

  predicate HexDigit(c: char) { '0' <= c <= '9' || 'a' <= c <= 'f' }

  predicate IsSha256(s: string) {
    |s| == 64 && forall i :: 0 <= i < |s| ==> HexDigit(s[i])
  }

  /** Sixty-four times one digit. */
  function Hex(c: char): string { seq(64, i => c) }

  function Components(s: string): seq<string> {
    if '/' !in s then [s]
    else
      var i := FirstOf(s, '/');
      [s[..i]] + Components(s[i + 1..])
  }

  function FirstOf(s: string, mark: char): (i: nat)
    requires mark in s
    ensures i < |s| && s[i] == mark
  {
    if s[0] == mark then 0 else 1 + FirstOf(s[1..], mark)
  }

  /** `_safe_relative(path).as_posix() == path`. */
  predicate CanonicalRelative(s: string) {
    && s != "" && '\\' !in s && s[0] != '/'
    && !(|s| >= 2 && s[1] == ':' && ('A' <= s[0] <= 'Z' || 'a' <= s[0] <= 'z'))
    && (s == "." || forall c :: c in Components(s) ==> c !in ["", ".", ".."])
  }
}
