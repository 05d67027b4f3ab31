/** One shard manifest seen from two sides: `project_shard_manifest` computes it from the
    full cache and the plan, `_validate_shard_manifest` recomputes what it must contain. */
module Projection {
  import opened Sequences
  import opened Sorting
  import opened Utf8
  import opened CacheModel
  import opened FullCache
  import opened ChunkInventory
  import opened Surface

  datatype ShardPlan = ShardPlan(
    shardId: string, sourcePaths: seq<string>, assertionIds: seq<string>,
    ruleReferences: seq<RuleReference>, planSha256: string, budgetContract: string)

  function ReferenceId(r: RuleReference): string { r.referenceId }

  function ReferenceUrl(r: RuleReference): string { r.citationUrl }

  function FileRow(f: FullFile): ShardFile {
    ShardFile(f.path, f.hashKind, f.sha256, IdentityOf(f.cache), f.inspectionRequired, f.chunks)
  }

  function FindFile(files: seq<FullFile>, path: string): (r: Option<FullFile>)
    ensures r.Some? ==> r.value in files && r.value.path == path
    ensures r.None? ==> forall f :: f in files ==> f.path != path
  {
    if files == [] then None
    else if files[0].path == path then Some(files[0])
    else FindFile(files[1..], path)
  }

  function FindCitation(cs: seq<FullCitation>, url: string): (r: Option<FullCitation>)
    ensures r.Some? ==> r.value in cs && r.value.requestedUrl == url
    ensures r.None? ==> forall c :: c in cs ==> c.requestedUrl != url
  {
    if cs == [] then None
    else if cs[0].requestedUrl == url then Some(cs[0])
    else FindCitation(cs[1..], url)
  }

  /** `_file_projection` */
  function ProjectFile(files: seq<FullFile>, path: string): Option<ShardFile> {
    match FindFile(files, path)
    case None => None
    case Some(f) =>
      if f.path != "" && f.inspectionRequired && f.chunks != [] && DistinctChunkPaths(f.chunks)
      then Some(FileRow(f).(chunks := Sort(f.chunks, ChunkLe)))
      else None
  }

  /** All of them, or nothing. */
  function Collect<S, T>(f: S -> Option<T>, s: seq<S>): (r: Option<seq<T>>)
    ensures r.Some? <==> forall i :: 0 <= i < |s| ==> f(s[i]).Some?
    ensures r.Some? ==> |r.value| == |s| && forall i :: 0 <= i < |s| ==> f(s[i]) == Some(r.value[i])
  {
    if s == [] then Some([])
    else
      match f(s[0])
      case None => None
      case Some(x) =>
        match Collect(f, s[1..])
        case None => None
        case Some(rest) => Some([x] + rest)
  }

  lemma CollectIs<S, T>(f: S -> Option<T>, s: seq<S>, out: seq<T>)
    requires |out| == |s| && forall k :: 0 <= k < |s| ==> f(s[k]) == Some(out[k])
    ensures Collect(f, s) == Some(out)
  {
    var r := Collect(f, s);
    assert r.Some? && forall k :: 0 <= k < |out| ==> Some(r.value[k]) == Some(out[k]);
    assert r.value == out;
  }

  /** The references a plan assigns to one citation URL. */
  function AssignedIds(refs: seq<RuleReference>, url: string): seq<string> {
    MapEach(ReferenceId, Filter((r: RuleReference) => r.citationUrl == url, refs))
  }

  function AssignedUrls(refs: seq<RuleReference>): seq<string> {
    SortStrings(Distinct(MapEach(ReferenceUrl, refs)))
  }

  predicate AllIn(xs: seq<string>, ys: seq<string>) {
    forall i :: 0 <= i < |xs| ==> xs[i] in ys
  }

  function SelectCitation(cs: seq<FullCitation>, refs: seq<RuleReference>, url: string): Option<ShardCitation> {
    match FindCitation(cs, url)
    case None => None
    case Some(c) =>
      if AllIn(AssignedIds(refs, url), c.referenceIds) && c.inspectionRequired
      then Some(Strip(c).(referenceIds := SortStrings(AssignedIds(refs, url))))
      else None
  }

  predicate NonEmptyStrings(s: seq<string>) {
    NoDuplicates(s) && forall i :: 0 <= i < |s| ==> s[i] != ""
  }

  predicate ReferencesOk(refs: seq<RuleReference>) {
    && (forall i :: 0 <= i < |refs| ==>
          IsSha256(refs[i].referenceId) && IsSha256(refs[i].surfaceSha256) && refs[i].citationUrl != "")
    && forall i, j :: 0 <= i < j < |refs| ==> refs[i].referenceId != refs[j].referenceId
  }

  predicate PlanOk(plan: ShardPlan, budget: string) {
    && NonEmptyStrings(plan.sourcePaths) && NonEmptyStrings(plan.assertionIds)
    && ReferencesOk(plan.ruleReferences) && plan.budgetContract == budget
  }

  predicate FullTablesOk(full: FullManifest) {
    && (forall i, j :: 0 <= i < j < |full.files| ==> full.files[i].path != full.files[j].path)
    && forall i, j :: 0 <= i < j < |full.citations| ==> full.citations[i].requestedUrl != full.citations[j].requestedUrl
  }

  /** `project_shard_manifest` */
  function Project(full: FullManifest, plan: ShardPlan, budget: string, digest: seq<ShardCitation> -> string): Option<ShardManifest> {
    if !PlanOk(plan, budget) || !FullTablesOk(full) then None
    else
      var files := Collect(path => ProjectFile(full.files, path), SortStrings(plan.sourcePaths));
      var selected := Collect(url => SelectCitation(full.citations, plan.ruleReferences, url), AssignedUrls(plan.ruleReferences));
      if files == None || selected == None then None
      else
        match SurfaceRows(selected.value)
        case None => None
        case Some(safe) =>
          var evidence, whole := SurfaceDigest(safe, digest), SurfaceDigest(MapEach(Strip, full.citations), digest);
          if evidence == None || whole == None then None
          else Some(ShardManifest(
            full.protocolId, full.snapshotSha256, plan.planSha256, plan.shardId, evidence.value, whole.value,
            SortStrings(plan.sourcePaths), SortStrings(plan.assertionIds),
            Sort(plan.ruleReferences, ByKey(ReferenceId)), files.value, safe, full.chunkContract, budget))
  }

  /** `value == sorted(set(value))`, every entry non-empty. */
  predicate SortedInventory(s: seq<string>) {
    && (forall i :: 0 <= i < |s| ==> s[i] != "")
    && forall i, j :: 0 <= i < j < |s| ==> StringLt(s[i], s[j])
  }

  predicate ReferencesAscend(refs: seq<RuleReference>) {
    && (forall i :: 0 <= i < |refs| ==> IsSha256(refs[i].referenceId) && IsSha256(refs[i].surfaceSha256))
    && forall i :: 0 < i < |refs| ==> StringLt(refs[i - 1].referenceId, refs[i].referenceId)
  }

  predicate FileMatches(full: FullManifest, row: ShardFile) {
    && row.inspectionRequired
    && FindFile(full.files, row.path).Some?
    && row == FileRow(FindFile(full.files, row.path).value)
    && ChunkRowsOk(row.chunks, "chunks/source/") && row.chunks != []
  }

  /** The row is the full citation restricted to the assigned references. */
  predicate RowFromFull(c: FullCitation, ids: seq<string>, row: ShardCitation) {
    AllIn(ids, c.referenceIds) && row == Strip(c).(referenceIds := ids)
  }

  predicate CitationMatches(full: FullManifest, refs: seq<RuleReference>, row: ShardCitation) {
    && row.inspectionRequired && row.available
    && FindCitation(full.citations, row.requestedUrl).Some?
    && RowFromFull(FindCitation(full.citations, row.requestedUrl).value, SortStrings(AssignedIds(refs, row.requestedUrl)), row)
    && ChunkRowsOk(row.chunks, "chunks/citation/") && row.chunks != []
  }

  function FileChunks(f: ShardFile): seq<ChunkRow> { f.chunks }

  function CitationChunks(c: ShardCitation): seq<ChunkRow> { c.chunks }

  function AssignedChunks(m: ShardManifest): seq<ChunkRow> {
    FlatMap(FileChunks, m.files) + FlatMap(CitationChunks, m.citations)
  }

  predicate DistinctPaths(chunks: seq<ChunkRow>) {
    forall i, j :: 0 <= i < j < |chunks| ==> chunks[i].path != chunks[j].path
  }

  function SortedByUrl(cs: seq<FullCitation>): seq<FullCitation> {
    Sort(cs, ByKey((c: FullCitation) => c.requestedUrl))
  }

  function WithSortedIds(c: FullCitation): ShardCitation {
    Strip(c).(referenceIds := SortStrings(c.referenceIds))
  }

  /** `_validate_shard_manifest` */
  predicate ShardManifestOk(full: FullManifest, m: ShardManifest, budget: string, digest: seq<ShardCitation> -> string) {
    && m.protocolId == full.protocolId && m.snapshotSha256 == full.snapshotSha256
    && IsSha256(m.planSha256) && IsSha256(m.citationSurfaceSha256) && IsSha256(m.fullSurfaceSha256)
    && m.chunkContract == full.chunkContract && m.budgetContract == budget
    && SortedInventory(m.sourcePaths) && SortedInventory(m.assertionIds)
    && ReferencesAscend(m.ruleReferences)
    && MapEach((f: ShardFile) => f.path, m.files) == m.sourcePaths
    && (forall i :: 0 <= i < |m.files| ==> FileMatches(full, m.files[i]))
    && SurfaceDigest(MapEach(WithSortedIds, SortedByUrl(full.citations)), digest) == Some(m.fullSurfaceSha256)
    && MapEach(Url, m.citations) == AssignedUrls(m.ruleReferences)
    && (forall i :: 0 <= i < |m.citations| ==> CitationMatches(full, m.ruleReferences, m.citations[i]))
    && DistinctPaths(AssignedChunks(m))
    && SurfaceDigest(m.citations, digest) == Some(m.citationSurfaceSha256)
  }

  // ---- What `load_review_cache` establishes about a full cache ----

  /** Among these inputs the hash has no collision. */
  predicate CollisionFree<H(==)>(sha: Bytes -> H, inputs: set<Bytes>) {
    forall a, b :: a in inputs && b in inputs && sha(a) == sha(b) ==> a == b
  }

  /** The names whose hashes keep the chunk files of a shard apart. */
  function OriginNames(m: ShardManifest): set<Bytes> {
    (set f | f in m.files :: Encode(f.path)) + (set c | c in m.citations :: Encode(c.requestedUrl))
  }

  predicate FileLoaded(t: Tree, f: FullFile, sha: Bytes -> string) {
    && IsSha256(f.cache.sha256)
    && (if f.inspectionRequired
        then ChunkRowsFor("source", f.path, f.cache.sha256, Payload(t.files, f.cache.path), sha) == Some(f.chunks)
        else f.chunks == [])
  }

  predicate CitationLoaded(t: Tree, c: FullCitation, sha: Bytes -> string) {
    && SortStrings(c.referenceIds) == c.referenceIds
    && (c.artifacts == []
        || (|c.artifacts| == 2 && c.artifacts[0].kind == "amd_map_metadata" && c.artifacts[1].kind == "amd_pages"))
    && (if c.available && c.inspectionRequired
        then
          && c.inspection.Some? && IsSha256(c.inspection.value.sha256)
          && ChunkRowsFor("citation", c.requestedUrl, c.inspection.value.sha256, Payload(t.files, c.inspection.value.path), sha) == Some(c.chunks)
        else c.chunks == [])
  }

  predicate Loaded(t: Tree, full: FullManifest, sha: Bytes -> string) {
    && (forall i :: 0 <= i < |full.files| ==> FileLoaded(t, full.files[i], sha))
    && forall i :: 0 <= i < |full.citations| ==> CitationLoaded(t, full.citations[i], sha)
  }

  /** Every citation the plan assigns was acquired. */
  predicate AssignedAvailable(full: FullManifest, plan: ShardPlan) {
    forall c, r :: c in full.citations && r in plan.ruleReferences && c.requestedUrl == r.citationUrl ==> c.available
  }

  // ---- Rearranging the assigned references ----

  lemma SameSortedStrings(a: seq<string>, b: seq<string>)
    requires multiset(a) == multiset(b)
    ensures SortStrings(a) == SortStrings(b)
  {
    ByKeyIsPreorder(Self);
    assert forall i :: 0 <= i < |a| ==> Self(a[i]) == a[i];
    IdentifyingKeysAreDistinct(a, Self);
    SortIgnoresOrder(a, b, ByKey(Self));
  }

  lemma {:induction false} SameMembersSamePermutation<T(!new)>(a: seq<T>, b: seq<T>)
    requires NoDuplicates(a) && NoDuplicates(b) && forall x :: x in a <==> x in b
    ensures multiset(a) == multiset(b)
  {
    forall x ensures multiset(a)[x] == multiset(b)[x] {
      CountDistinct(a, x);
      CountDistinct(b, x);
    }
  }

  lemma CountDistinct<T>(s: seq<T>, x: T)
    requires NoDuplicates(s)
    ensures multiset(s)[x] == if x in s then 1 else 0
  {
    if x in s {
      var k :| 0 <= k < |s| && s[k] == x;
      OnceInMultiset(s, k);
    }
  }

  lemma {:induction false} FilterConcat<T(!new)>(p: T -> bool, a: seq<T>, b: seq<T>)
    ensures Filter(p, a + b) == Filter(p, a) + Filter(p, b)
  {
    if a == [] {
      assert a + b == b;
    } else {
      FilterConcat(p, a[1..], b);
      assert (a + b)[1..] == a[1..] + b;
      ConcatAssociates(if p(a[0]) then [a[0]] else [], Filter(p, a[1..]), Filter(p, b));
    }
  }

  lemma FilterRemove<T(!new)>(p: T -> bool, s: seq<T>, k: nat)
    requires k < |s|
    ensures multiset(Filter(p, s)) == multiset(Filter(p, s[..k] + s[k + 1..])) + if p(s[k]) then multiset{s[k]} else multiset{}
  {
    hide Filter;
    FilterConcat(p, s[..k], s[k + 1..]);
    FilterConcat(p, s[..k], s[k..]);
    FilterHead(p, s[k], s[k + 1..]);
    assert s == s[..k] + s[k..] && s[k..] == [s[k]] + s[k + 1..];
  }

  lemma FilterHead<T(!new)>(p: T -> bool, x: T, s: seq<T>)
    ensures Filter(p, [x] + s) == (if p(x) then [x] else []) + Filter(p, s)
  {
    assert ([x] + s)[1..] == s;
  }

  lemma FilterSnoc<T(!new)>(p: T -> bool, s: seq<T>, x: T)
    ensures Filter(p, s + [x]) == Filter(p, s) + if p(x) then [x] else []
  {
    FilterConcat(p, s, [x]);
    assert [x][1..] == [];
  }

  lemma {:induction false} FilterKeepsDistinct<T(!new)>(p: T -> bool, s: seq<T>, key: T -> string)
    requires forall i, j :: 0 <= i < j < |s| ==> key(s[i]) != key(s[j])
    ensures forall i, j :: 0 <= i < j < |Filter(p, s)| ==> key(Filter(p, s)[i]) != key(Filter(p, s)[j])
  {
    if s != [] {
      FilterKeepsDistinct(p, s[1..], key);
      var rest := Filter(p, s[1..]);
      forall j | 0 <= j < |rest| ensures key(rest[j]) != key(s[0]) {
        assert rest[j] in rest;
        var k :| 0 <= k < |s[1..]| && s[1..][k] == rest[j];
        assert s[k + 1] == rest[j];
      }
    }
  }

  lemma {:induction false} FilterPermutes<T(!new)>(p: T -> bool, a: seq<T>, b: seq<T>)
    requires multiset(a) == multiset(b)
    ensures multiset(Filter(p, a)) == multiset(Filter(p, b))
  {
    if a == [] {
      assert |b| == |multiset(b)| == 0;
    } else {
      var k := TakeFirst(a, b);
      FilterPermutes(p, a[1..], b[..k] + b[k + 1..]);
      FilterRemove(p, b, k);
    }
  }

  lemma AssignmentIgnoresOrder(a: seq<RuleReference>, b: seq<RuleReference>, url: string)
    requires multiset(a) == multiset(b)
    ensures SortStrings(AssignedIds(a, url)) == SortStrings(AssignedIds(b, url))
    ensures AssignedUrls(a) == AssignedUrls(b)
  {
    var here := (r: RuleReference) => r.citationUrl == url;
    FilterPermutes(here, a, b);
    MapEachPermutes(ReferenceId, Filter(here, a), Filter(here, b));
    SameSortedStrings(AssignedIds(a, url), AssignedIds(b, url));
    MapEachPermutes(ReferenceUrl, a, b);
    var ua, ub := MapEach(ReferenceUrl, a), MapEach(ReferenceUrl, b);
    forall x ensures x in Distinct(ua) <==> x in Distinct(ub) {
      InMultiset(ua, x);
      InMultiset(ub, x);
    }
    SameMembersSamePermutation(Distinct(ua), Distinct(ub));
    SameSortedStrings(Distinct(ua), Distinct(ub));
  }

  lemma SortedStringsAscend(s: seq<string>)
    requires NoDuplicates(s)
    ensures |SortStrings(s)| == |s|
    ensures forall i, j :: 0 <= i < j < |s| ==> StringLt(SortStrings(s)[i], SortStrings(s)[j])
    ensures forall x :: x in SortStrings(s) <==> x in s
  {
    ByKeyIsPreorder(Self);
    SortSorts(s, ByKey(Self));
    NoDuplicatesSorted(s);
    SortKeepsMembers(s, ByKey(Self));
    var r := SortStrings(s);
    forall i, j | 0 <= i < j < |s| ensures StringLt(r[i], r[j]) {
      assert ByKey(Self)(r[i], r[j]);
      assert StringLe(Self(r[i]), Self(r[j]));
    }
  }

  lemma SortedReferencesAscend(refs: seq<RuleReference>)
    requires ReferencesOk(refs)
    ensures ReferencesAscend(Sort(refs, ByKey(ReferenceId)))
  {
    ByKeyIsPreorder(ReferenceId);
    SortSorts(refs, ByKey(ReferenceId));
    SortPermutes(refs, ByKey(ReferenceId));
    SortKeepsMembers(refs, ByKey(ReferenceId));
    DistinctRearranged(refs, Sort(refs, ByKey(ReferenceId)), ReferenceId);
    var r := Sort(refs, ByKey(ReferenceId));
    forall i | 0 <= i < |r| ensures IsSha256(r[i].referenceId) && IsSha256(r[i].surfaceSha256) { assert r[i] in refs; }
    forall i | 0 < i < |r| ensures StringLt(r[i - 1].referenceId, r[i].referenceId) {
      assert ReferenceId(r[i - 1]) != ReferenceId(r[i]) && ByKey(ReferenceId)(r[i - 1], r[i]);
    }
  }

  // ---- The rows of the projection are already in normal form ----

  lemma RecordedRows(kind: string, originId: string, originalSha256: string, payload: Bytes, sha: Bytes -> string, rows: seq<ChunkRow>)
    requires kind == "source" || kind == "citation"
    requires HexHash(sha) && IsSha256(originalSha256)
    requires ChunkRowsFor(kind, originId, originalSha256, payload, sha) == Some(rows)
    ensures rows != [] && ChunkRowsOk(rows, "chunks/" + kind + "/") && DistinctPaths(rows) && Sort(rows, ChunkLe) == rows
    ensures DistinctChunkPaths(rows)
  {
    hide ChunkRowOk, ChunkPath;
    RecordedRowsAccepted(kind, originId, originalSha256, payload, sha);
    RowsAreIndexed(rows, Prefix(kind));
    SortFixesSorted(rows, ChunkLe);
  }

  lemma RowsAreIndexed(rows: seq<ChunkRow>, prefix: string)
    requires ChunkRowsOk(rows, prefix)
    ensures Sorted(rows, ChunkLe) && forall i :: 0 <= i < |rows| ==> rows[i].path != ""
  {
    forall i | 0 <= i < |rows| ensures rows[i].path != "" && rows[i].index == i {
      assert ChunkRowOk(rows, i, prefix);
    }
  }

  lemma LoadedFileMatches(t: Tree, full: FullManifest, sha: Bytes -> string, path: string)
    requires HexHash(sha) && Loaded(t, full, sha) && ProjectFile(full.files, path).Some?
    ensures ProjectFile(full.files, path).value.path == path
    ensures FileMatches(full, ProjectFile(full.files, path).value)
  {
    hide ChunkRowOk, ChunkRowsFor, Sort, DistinctChunkPaths;
    var f := FindFile(full.files, path).value;
    assert FileLoaded(t, f, sha);
    RecordedRows("source", f.path, f.cache.sha256, Payload(t.files, f.cache.path), sha, f.chunks);
    assert "chunks/" + "source" + "/" == "chunks/source/";
  }

  lemma ArtifactsInOrder(c: FullCitation)
    requires c.artifacts == []
      || (|c.artifacts| == 2 && c.artifacts[0].kind == "amd_map_metadata" && c.artifacts[1].kind == "amd_pages")
    ensures Sort(MapEach(StripArtifact, c.artifacts), ArtifactLe) == MapEach(StripArtifact, c.artifacts)
  {
    var s := MapEach(StripArtifact, c.artifacts);
    if |s| == 2 {
      var a, b := s[0].kind, s[1].kind;
      assert a[..4] == b[..4] == "amd_" && a[4] == 'm' && b[4] == 'p';
      CommonPrefix("amd_", a[4..], b[4..]);
      assert a == "amd_" + a[4..] && b == "amd_" + b[4..];
      assert StringLt(a, b);
    }
    SortFixesSorted(s, ArtifactLe);
  }

  lemma {:induction false} CommonPrefix(p: string, a: string, b: string)
    ensures StringLe(p + a, p + b) <==> StringLe(a, b)
  {
    if p == [] {
      assert p + a == a && p + b == b;
    } else {
      CommonPrefix(p[1..], a, b);
      assert (p + a)[1..] == p[1..] + a && (p + b)[1..] == p[1..] + b;
    }
  }

  lemma AllInSorted(xs: seq<string>, ys: seq<string>)
    requires AllIn(xs, ys)
    ensures AllIn(SortStrings(xs), ys)
  {
    SortKeepsMembers(xs, ByKey(Self));
    var r := SortStrings(xs);
    forall i | 0 <= i < |r| ensures r[i] in ys { assert r[i] in xs; }
  }

  /** A selected citation is already in surface form, and matches the validator's reconstruction once available. */
  lemma LoadedCitationMatches(t: Tree, full: FullManifest, sha: Bytes -> string, refs: seq<RuleReference>, sorted: seq<RuleReference>, url: string)
    requires HexHash(sha) && Loaded(t, full, sha) && multiset(refs) == multiset(sorted)
    requires SelectCitation(full.citations, refs, url).Some?
    ensures var row := SelectCitation(full.citations, refs, url).value;
      && row.requestedUrl == url && SurfaceRow(row) == row
      && (row.available ==> CitationMatches(full, sorted, row))
  {
    hide ChunkRowOk, ChunkRowsFor, Sort, AssignedIds;
    var c := FindCitation(full.citations, url).value;
    var row := SelectCitation(full.citations, refs, url).value;
    assert CitationLoaded(t, c, sha);
    SortedTwice(AssignedIds(refs, url));
    ArtifactsInOrder(c);
    AssignmentIgnoresOrder(refs, sorted, url);
    AllInSorted(AssignedIds(refs, url), c.referenceIds);
    if c.available {
      RecordedRows("citation", c.requestedUrl, c.inspection.value.sha256, Payload(t.files, c.inspection.value.path), sha, c.chunks);
      assert "chunks/" + "citation" + "/" == "chunks/citation/";
    } else {
      EmptySort(ChunkLe);
    }
  }

  lemma EmptySort<T>(le: (T, T) -> bool)
    ensures Sort([], le) == []
  {
  }

  lemma SortedTwice(s: seq<string>)
    ensures SortStrings(SortStrings(s)) == SortStrings(s)
  {
    ByKeyIsPreorder(Self);
    SortSorts(s, ByKey(Self));
    SortFixesSorted(SortStrings(s), ByKey(Self));
  }

  /** Hashing the cache order or the URL order gives the same full evidence digest. */
  lemma WholeSurfaceAgrees(t: Tree, full: FullManifest, sha: Bytes -> string, digest: seq<ShardCitation> -> string)
    requires Loaded(t, full, sha)
    ensures SurfaceDigest(MapEach(WithSortedIds, SortedByUrl(full.citations)), digest)
         == SurfaceDigest(MapEach(Strip, full.citations), digest)
  {
    var byUrl := ByKey((c: FullCitation) => c.requestedUrl);
    var s := SortedByUrl(full.citations);
    SortPermutes(full.citations, byUrl);
    SortKeepsMembers(full.citations, byUrl);
    forall i | 0 <= i < |s| ensures WithSortedIds(s[i]) == Strip(s[i]) {
      hide SurfaceRows, Sort;
      assert s[i] in full.citations;
      assert CitationLoaded(t, s[i], sha);
    }
    assert MapEach(WithSortedIds, s) == MapEach(Strip, s);
    MapEachPermutes(Strip, s, full.citations);
    SurfaceIgnoresOrder(MapEach(Strip, s), MapEach(Strip, full.citations));
  }

  // ---- No chunk path is assigned twice ----

  predicate Apart(a: seq<ChunkRow>, b: seq<ChunkRow>) {
    forall i, j :: 0 <= i < |a| && 0 <= j < |b| ==> a[i].path != b[j].path
  }

  lemma DistinctConcat(a: seq<ChunkRow>, b: seq<ChunkRow>)
    requires DistinctPaths(a) && DistinctPaths(b) && Apart(a, b)
    ensures DistinctPaths(a + b)
  {
  }

  lemma {:induction false} ApartFromAll<T>(f: T -> seq<ChunkRow>, a: seq<ChunkRow>, s: seq<T>)
    requires forall i :: 0 <= i < |s| ==> Apart(a, f(s[i]))
    ensures Apart(a, FlatMap(f, s))
  {
    if s != [] {
      ApartFromAll(f, a, s[1..]);
      assert Apart(a, f(s[0]));
    }
  }

  lemma {:induction false} DistinctAcross<T>(f: T -> seq<ChunkRow>, s: seq<T>)
    requires forall i :: 0 <= i < |s| ==> DistinctPaths(f(s[i]))
    requires forall i, j :: 0 <= i < j < |s| ==> Apart(f(s[i]), f(s[j]))
    ensures DistinctPaths(FlatMap(f, s))
  {
    if s != [] {
      DistinctAcross(f, s[1..]);
      ApartFromAll(f, f(s[0]), s[1..]);
      DistinctConcat(f(s[0]), FlatMap(f, s[1..]));
    }
  }

  lemma {:induction false} AllApart<S, T>(f: S -> seq<ChunkRow>, a: seq<S>, g: T -> seq<ChunkRow>, b: seq<T>)
    requires forall i, j :: 0 <= i < |a| && 0 <= j < |b| ==> Apart(f(a[i]), g(b[j]))
    ensures Apart(FlatMap(f, a), FlatMap(g, b))
  {
    if a != [] {
      AllApart(f, a[1..], g, b);
      ApartFromAll(g, f(a[0]), b);
    }
  }

  /** Chunk rows named after the origin they came from. */
  predicate Named(kind: string, originId: string, rows: seq<ChunkRow>, sha: Bytes -> string) {
    forall k :: 0 <= k < |rows| ==> rows[k].path == ChunkPath(kind, sha(Encode(originId)), k, rows[k].sha256)
  }

  lemma RecordedRowsNamed(kind: string, originId: string, originalSha256: string, payload: Bytes, sha: Bytes -> string, rows: seq<ChunkRow>)
    requires ChunkRowsFor(kind, originId, originalSha256, payload, sha) == Some(rows)
    ensures Named(kind, originId, rows, sha)
  {
  }

  lemma OriginsApart(kind: string, a: string, b: string, ra: seq<ChunkRow>, rb: seq<ChunkRow>, sha: Bytes -> string)
    requires HexHash(sha) && sha(Encode(a)) != sha(Encode(b))
    requires Named(kind, a, ra, sha) && Named(kind, b, rb, sha)
    ensures Apart(ra, rb)
  {
    forall i, j | 0 <= i < |ra| && 0 <= j < |rb| ensures ra[i].path != rb[j].path {
      if ra[i].path == rb[j].path {
        ChunkPathInjective(kind, sha(Encode(a)), i, ra[i].sha256, sha(Encode(b)), j, rb[j].sha256);
      }
    }
  }

  lemma KindsApart(a: string, b: string, ra: seq<ChunkRow>, rb: seq<ChunkRow>, sha: Bytes -> string)
    requires Named("source", a, ra, sha) && Named("citation", b, rb, sha)
    ensures Apart(ra, rb)
  {
    forall i, j | 0 <= i < |ra| && 0 <= j < |rb| ensures ra[i].path != rb[j].path {
      KindsDiffer(sha(Encode(a)), i, ra[i].sha256, sha(Encode(b)), j, rb[j].sha256);
    }
  }

  predicate FilesNamed(files: seq<ShardFile>, sha: Bytes -> string) {
    && (forall i, j :: 0 <= i < j < |files| ==> files[i].path != files[j].path)
    && forall i :: 0 <= i < |files| ==> Named("source", files[i].path, files[i].chunks, sha) && DistinctPaths(files[i].chunks)
  }

  predicate CitationsNamed(cs: seq<ShardCitation>, sha: Bytes -> string) {
    && DistinctUrls(cs)
    && forall i :: 0 <= i < |cs| ==> Named("citation", cs[i].requestedUrl, cs[i].chunks, sha) && DistinctPaths(cs[i].chunks)
  }

  lemma NamesHashApart(m: ShardManifest, sha: Bytes -> string, a: string, b: string)
    requires CollisionFree(sha, OriginNames(m)) && a != b
    requires Encode(a) in OriginNames(m) && Encode(b) in OriginNames(m)
    ensures sha(Encode(a)) != sha(Encode(b))
  {
    hide OriginNames;
    DecodeEncode(a);
    DecodeEncode(b);
  }

  lemma AssignedPathsDistinct(m: ShardManifest, sha: Bytes -> string)
    requires HexHash(sha) && CollisionFree(sha, OriginNames(m)) && FilesNamed(m.files, sha) && CitationsNamed(m.citations, sha)
    ensures DistinctPaths(AssignedChunks(m))
  {
    hide Named, Apart, CollisionFree, Encode;
    forall i, j | 0 <= i < j < |m.files| ensures Apart(FileChunks(m.files[i]), FileChunks(m.files[j])) {
      NamesHashApart(m, sha, m.files[i].path, m.files[j].path);
      OriginsApart("source", m.files[i].path, m.files[j].path, m.files[i].chunks, m.files[j].chunks, sha);
    }
    DistinctAcross(FileChunks, m.files);
    forall i, j | 0 <= i < j < |m.citations| ensures Apart(CitationChunks(m.citations[i]), CitationChunks(m.citations[j])) {
      NamesHashApart(m, sha, m.citations[i].requestedUrl, m.citations[j].requestedUrl);
      OriginsApart("citation", m.citations[i].requestedUrl, m.citations[j].requestedUrl, m.citations[i].chunks, m.citations[j].chunks, sha);
    }
    DistinctAcross(CitationChunks, m.citations);
    forall i, j | 0 <= i < |m.files| && 0 <= j < |m.citations| ensures Apart(FileChunks(m.files[i]), CitationChunks(m.citations[j])) {
      KindsApart(m.files[i].path, m.citations[j].requestedUrl, m.files[i].chunks, m.citations[j].chunks, sha);
    }
    AllApart(FileChunks, m.files, CitationChunks, m.citations);
    DistinctConcat(FlatMap(FileChunks, m.files), FlatMap(CitationChunks, m.citations));
  }

  lemma ProjectedFiles(t: Tree, full: FullManifest, sha: Bytes -> string, paths: seq<string>, files: seq<ShardFile>)
    requires HexHash(sha) && Loaded(t, full, sha)
    requires forall i, j :: 0 <= i < j < |paths| ==> paths[i] != paths[j]
    requires Collect(path => ProjectFile(full.files, path), paths) == Some(files)
    ensures MapEach((f: ShardFile) => f.path, files) == paths
    ensures forall i :: 0 <= i < |files| ==> FileMatches(full, files[i])
    ensures FilesNamed(files, sha)
  {
    hide FileMatches, Named, ProjectFile, DistinctPaths, Loaded, HexHash, MapEach, Collect;
    forall i | 0 <= i < |files|
      ensures files[i].path == paths[i] && FileMatches(full, files[i])
      ensures Named("source", files[i].path, files[i].chunks, sha) && DistinctPaths(files[i].chunks)
    {
      assert ProjectFile(full.files, paths[i]) == Some(files[i]);
      LoadedFileMatches(t, full, sha, paths[i]);
      MatchedFileNamed(t, full, sha, files[i]);
    }
  }

  lemma MatchedFileNamed(t: Tree, full: FullManifest, sha: Bytes -> string, row: ShardFile)
    requires HexHash(sha) && Loaded(t, full, sha) && FileMatches(full, row)
    ensures Named("source", row.path, row.chunks, sha) && DistinctPaths(row.chunks)
  {
    hide ChunkRowOk, ChunkRowsFor, Named, DistinctPaths;
    var f := FindFile(full.files, row.path).value;
    assert FileLoaded(t, f, sha);
    RecordedRowsNamed("source", f.path, f.cache.sha256, Payload(t.files, f.cache.path), sha, f.chunks);
    RecordedRows("source", f.path, f.cache.sha256, Payload(t.files, f.cache.path), sha, f.chunks);
  }

  lemma MatchedCitationNamed(t: Tree, full: FullManifest, sha: Bytes -> string, refs: seq<RuleReference>, row: ShardCitation)
    requires HexHash(sha) && Loaded(t, full, sha) && CitationMatches(full, refs, row)
    ensures Named("citation", row.requestedUrl, row.chunks, sha) && DistinctPaths(row.chunks)
  {
    hide ChunkRowOk, ChunkRowsFor, Named, DistinctPaths;
    var c := FindCitation(full.citations, row.requestedUrl).value;
    assert CitationLoaded(t, c, sha);
    RecordedRowsNamed("citation", c.requestedUrl, c.inspection.value.sha256, Payload(t.files, c.inspection.value.path), sha, c.chunks);
    RecordedRows("citation", c.requestedUrl, c.inspection.value.sha256, Payload(t.files, c.inspection.value.path), sha, c.chunks);
  }

  // ---- The two sides agree ----

  lemma AssignedUrlsAscend(refs: seq<RuleReference>)
    ensures forall i, j :: 0 <= i < j < |AssignedUrls(refs)| ==> StringLt(AssignedUrls(refs)[i], AssignedUrls(refs)[j])
    ensures forall r :: r in refs ==> r.citationUrl in AssignedUrls(refs)
    ensures forall u :: u in AssignedUrls(refs) ==> exists r :: r in refs && r.citationUrl == u
  {
    var us := MapEach(ReferenceUrl, refs);
    SortedStringsAscend(Distinct(us));
    forall r | r in refs ensures r.citationUrl in AssignedUrls(refs) {
      var i :| 0 <= i < |refs| && refs[i] == r;
      assert us[i] == r.citationUrl;
    }
    forall u | u in AssignedUrls(refs) ensures exists r :: r in refs && r.citationUrl == u {
      var i :| 0 <= i < |us| && us[i] == u;
      assert refs[i].citationUrl == u;
    }
  }

  /** The selected rows are their own surface: sorted by URL, every row in normal form. */
  lemma SelectionIsSurface(t: Tree, full: FullManifest, sha: Bytes -> string, refs: seq<RuleReference>, selected: seq<ShardCitation>)
    requires HexHash(sha) && Loaded(t, full, sha)
    requires Collect(url => SelectCitation(full.citations, refs, url), AssignedUrls(refs)) == Some(selected)
    ensures MapEach(Url, selected) == AssignedUrls(refs) && DistinctUrls(selected)
    ensures SurfaceRows(selected).Some? ==> SurfaceRows(selected).value == selected
  {
    hide SelectCitation, SurfaceRow, AssignedUrls, CitationMatches, SurfaceRowOk;
    var urls := AssignedUrls(refs);
    forall i | 0 <= i < |selected| ensures selected[i].requestedUrl == urls[i] && SurfaceRow(selected[i]) == selected[i] {
      assert SelectCitation(full.citations, refs, urls[i]) == Some(selected[i]);
      LoadedCitationMatches(t, full, sha, refs, refs, urls[i]);
    }
    AssignedUrlsAscend(refs);
    assert MapEach(SurfaceRow, selected) == selected;
    forall i, j | 0 <= i < j < |selected| ensures ByKey(Url)(selected[i], selected[j]) {
      assert StringLt(urls[i], urls[j]) && StringLe(Url(selected[i]), Url(selected[j]));
    }
    SortFixesSorted(selected, ByKey(Url));
  }

  lemma SelectedMatch(t: Tree, full: FullManifest, sha: Bytes -> string, refs: seq<RuleReference>, sorted: seq<RuleReference>, selected: seq<ShardCitation>)
    requires HexHash(sha) && Loaded(t, full, sha) && multiset(refs) == multiset(sorted)
    requires Collect(url => SelectCitation(full.citations, refs, url), AssignedUrls(refs)) == Some(selected)
    requires forall i :: 0 <= i < |selected| ==> selected[i].available
    ensures forall i :: 0 <= i < |selected| ==> CitationMatches(full, sorted, selected[i])
  {
    hide SelectCitation, AssignedUrls, CitationMatches;
    forall i | 0 <= i < |selected| ensures CitationMatches(full, sorted, selected[i]) {
      var url := AssignedUrls(refs)[i];
      assert SelectCitation(full.citations, refs, url) == Some(selected[i]);
      LoadedCitationMatches(t, full, sha, refs, sorted, url);
    }
  }

  /** The selected rows are available exactly when every assigned citation was acquired. */
  lemma SelectedAvailable(full: FullManifest, plan: ShardPlan, selected: seq<ShardCitation>)
    requires FullTablesOk(full)
    requires Collect(url => SelectCitation(full.citations, plan.ruleReferences, url), AssignedUrls(plan.ruleReferences)) == Some(selected)
    ensures AssignedAvailable(full, plan) <==> forall i :: 0 <= i < |selected| ==> selected[i].available
  {
    hide AssignedUrls, AssignedIds, SortStrings;
    var urls := AssignedUrls(plan.ruleReferences);
    AssignedUrlsAscend(plan.ruleReferences);
    forall i | 0 <= i < |selected|
      ensures FindCitation(full.citations, urls[i]).Some?
      ensures selected[i].available == FindCitation(full.citations, urls[i]).value.available
    {
      assert SelectCitation(full.citations, plan.ruleReferences, urls[i]) == Some(selected[i]);
    }
    if AssignedAvailable(full, plan) {
      forall i | 0 <= i < |selected| ensures selected[i].available {
        assert urls[i] in urls;
        var r :| r in plan.ruleReferences && r.citationUrl == urls[i];
      }
    }
    if forall i :: 0 <= i < |selected| ==> selected[i].available {
      forall c, r | c in full.citations && r in plan.ruleReferences && c.requestedUrl == r.citationUrl ensures c.available {
        var i :| 0 <= i < |urls| && urls[i] == r.citationUrl;
        FoundIsUnique(full, c);
        assert selected[i].available;
      }
    }
  }

  lemma FoundIsUnique(full: FullManifest, c: FullCitation)
    requires FullTablesOk(full) && c in full.citations
    ensures FindCitation(full.citations, c.requestedUrl) == Some(c)
  {
    var found := FindCitation(full.citations, c.requestedUrl).value;
    var i :| 0 <= i < |full.citations| && full.citations[i] == c;
    var j :| 0 <= j < |full.citations| && full.citations[j] == found;
    assert i == j;
  }

  ghost predicate HexDigest(digest: seq<ShardCitation> -> string) {
    forall rows :: IsSha256(digest(rows))
  }

  lemma MatchedPathsDistinct(t: Tree, full: FullManifest, sha: Bytes -> string, m: ShardManifest)
    requires HexHash(sha) && CollisionFree(sha, OriginNames(m)) && Loaded(t, full, sha) && FilesNamed(m.files, sha) && DistinctUrls(m.citations)
    requires forall i :: 0 <= i < |m.citations| ==> CitationMatches(full, m.ruleReferences, m.citations[i])
    ensures DistinctPaths(AssignedChunks(m))
  {
    hide HexHash, CollisionFree, Loaded, CitationMatches, DistinctPaths, Named, FilesNamed, DistinctUrls;
    forall i | 0 <= i < |m.citations|
      ensures Named("citation", m.citations[i].requestedUrl, m.citations[i].chunks, sha) && DistinctPaths(m.citations[i].chunks)
    {
      MatchedCitationNamed(t, full, sha, m.ruleReferences, m.citations[i]);
    }
    AssignedPathsDistinct(m, sha);
  }

  /** A manifest projected from a loaded cache passes the independent validator
      exactly when every citation assigned to the shard is available. */
  lemma ProjectionsAgree(t: Tree, full: FullManifest, sha: Bytes -> string, plan: ShardPlan, budget: string,
                         digest: seq<ShardCitation> -> string, m: ShardManifest)
    requires HexHash(sha) && CollisionFree(sha, OriginNames(m)) && HexDigest(digest) && IsSha256(plan.planSha256)
    requires Loaded(t, full, sha) && Project(full, plan, budget, digest) == Some(m)
    ensures ShardManifestOk(full, m, budget, digest) <==> AssignedAvailable(full, plan)
  {
    hide Loaded, ProjectFile, SelectCitation, SurfaceRows, SurfaceDigest, AssignedUrls, FileMatches, CitationMatches, DistinctPaths, AssignedChunks, SortStrings, FilesNamed, HexHash, CollisionFree;
    var refs := plan.ruleReferences;
    var selected := Collect(url => SelectCitation(full.citations, refs, url), AssignedUrls(refs)).value;
    SelectionIsSurface(t, full, sha, refs, selected);
    assert m.citations == selected;
    SelectedAvailable(full, plan, selected);
    ProjectionParts(t, full, sha, plan, budget, digest, m);
    if AssignedAvailable(full, plan) {
      SortPermutes(refs, ByKey(ReferenceId));
      SelectedMatch(t, full, sha, refs, m.ruleReferences, selected);
      MatchedPathsDistinct(t, full, sha, m);
    } else {
      var i :| 0 <= i < |selected| && !selected[i].available;
      UnavailableFails(full, m.ruleReferences, m.citations[i]);
    }
  }

  lemma UnavailableFails(full: FullManifest, refs: seq<RuleReference>, row: ShardCitation)
    requires !row.available
    ensures !CitationMatches(full, refs, row)
  {
  }

  // ---- A projection that the validator refuses ----

  /** A cited page that could not be fetched. */
  function Unreached(): FullCitation {
    FullCitation("u", "u", "direct", [Hex('a')], true, false, false, None, None, None, None, [], [], Some("OSError"))
  }

  function UnreachedCache(): FullManifest { FullManifest("", Hex('a'), "", [], [Unreached()]) }

  function UnreachedPlan(): ShardPlan {
    ShardPlan("s", [], [], [RuleReference(Hex('a'), Hex('a'), "rule", "u", "section")], Hex('a'), "")
  }

  function AlwaysA<T(!new)>(x: T): string { Hex('a') }

  lemma HexIsSha(c: char)
    requires HexDigit(c)
    ensures IsSha256(Hex(c))
  {
  }

  lemma UnreachedSelected()
    ensures AssignedUrls(UnreachedPlan().ruleReferences) == ["u"]
    ensures SelectCitation(UnreachedCache().citations, UnreachedPlan().ruleReferences, "u") == Some(Strip(Unreached()))
  {
    hide Hex, Sort;
    var refs := UnreachedPlan().ruleReferences;
    assert refs[1..] == [] && MapEach(ReferenceUrl, refs) == ["u"] && ["u"][..0] == [];
    assert Distinct(["u"]) == ["u"];
    SortOne("u", ByKey(Self));
    assert AssignedIds(refs, "u") == [Hex('a')];
    SortOne(Hex('a'), ByKey(Self));
    assert UnreachedCache().citations[0] == Unreached();
  }

  lemma UnreachedSurface()
    ensures MapEach(Strip, UnreachedCache().citations) == [Strip(Unreached())]
    ensures SurfaceRows([Strip(Unreached())]) == Some([Strip(Unreached())])
  {
    hide Hex, Sort;
    HexIsSha('a');
    var row := Strip(Unreached());
    SortOne(Hex('a'), ByKey(Self));
    EmptySort(ArtifactLe);
    EmptySort(ChunkLe);
    assert MapEach(StripArtifact, []) == [];
    assert SurfaceRow(row) == row && MapEach(SurfaceRow, [row]) == [row];
    SortOne(row, ByKey(Url));
  }

  lemma UnreachedProjects()
    ensures Project(UnreachedCache(), UnreachedPlan(), "", AlwaysA).Some?
  {
    hide Hex, SurfaceRows, AssignedUrls, SelectCitation, Strip;
    HexIsSha('a');
    UnreachedSelected();
    UnreachedSurface();
    EmptySort(ByKey(Self));
    var full, plan := UnreachedCache(), UnreachedPlan();
    CollectIs(url => SelectCitation(full.citations, plan.ruleReferences, url), ["u"], [Strip(Unreached())]);
    assert SurfaceDigest([Strip(Unreached())], AlwaysA).Some?;
  }

  /** One assigned citation, not available: the cache is loaded and projects, and the manifest is refused. */
  lemma UnavailableProjects(t: Tree)
    ensures HexHash(AlwaysA<Bytes>) && HexDigest(AlwaysA) && Loaded(t, UnreachedCache(), AlwaysA)
    ensures IsSha256(UnreachedPlan().planSha256) && !AssignedAvailable(UnreachedCache(), UnreachedPlan())
    ensures Project(UnreachedCache(), UnreachedPlan(), "", AlwaysA).Some?
    ensures var m := Project(UnreachedCache(), UnreachedPlan(), "", AlwaysA).value;
      CollisionFree(AlwaysA, OriginNames(m)) && !ShardManifestOk(UnreachedCache(), m, "", AlwaysA)
  {
    hide Hex, Project, ShardManifestOk, OriginNames, Loaded, AssignedAvailable;
    HexIsSha('a');
    UnreachedProjects();
    UnreachedLoaded(t);
    var m := Project(UnreachedCache(), UnreachedPlan(), "", AlwaysA).value;
    UnreachedNames(m);
    ProjectionsAgree(t, UnreachedCache(), AlwaysA, UnreachedPlan(), "", AlwaysA, m);
  }

  lemma UnreachedLoaded(t: Tree)
    ensures Loaded(t, UnreachedCache(), AlwaysA) && !AssignedAvailable(UnreachedCache(), UnreachedPlan())
  {
    hide Hex, Sort;
    SortOne(Hex('a'), ByKey(Self));
    assert Unreached() in UnreachedCache().citations;
    assert UnreachedPlan().ruleReferences[0] in UnreachedPlan().ruleReferences;
  }

  lemma UnreachedNames(m: ShardManifest)
    requires Project(UnreachedCache(), UnreachedPlan(), "", AlwaysA) == Some(m)
    ensures CollisionFree(AlwaysA, OriginNames(m))
  {
    hide Hex, SurfaceRows, AssignedUrls, SelectCitation, Strip, Encode;
    UnreachedSelected();
    UnreachedSurface();
    EmptySort(ByKey(Self));
    var full, plan := UnreachedCache(), UnreachedPlan();
    CollectIs(url => SelectCitation(full.citations, plan.ruleReferences, url), ["u"], [Strip(Unreached())]);
    assert m.files == [] && m.citations == [Strip(Unreached())];
    assert OriginNames(m) <= {Encode(Strip(Unreached()).requestedUrl)};
  }

  lemma SortedInventoryOf(paths: seq<string>)
    requires NonEmptyStrings(paths)
    ensures SortedInventory(SortStrings(paths))
    ensures forall i, j :: 0 <= i < j < |SortStrings(paths)| ==> SortStrings(paths)[i] != SortStrings(paths)[j]
  {
    hide SortStrings;
    SortedStringsAscend(paths);
    var sorted := SortStrings(paths);
    forall i | 0 <= i < |sorted| ensures sorted[i] != "" { assert sorted[i] in paths; }
  }

  lemma ProjectedInventories(full: FullManifest, plan: ShardPlan, budget: string, digest: seq<ShardCitation> -> string, m: ShardManifest)
    requires Project(full, plan, budget, digest) == Some(m)
    ensures SortedInventory(m.sourcePaths) && SortedInventory(m.assertionIds) && ReferencesAscend(m.ruleReferences)
    ensures forall i, j :: 0 <= i < j < |m.sourcePaths| ==> m.sourcePaths[i] != m.sourcePaths[j]
    ensures AssignedUrls(m.ruleReferences) == AssignedUrls(plan.ruleReferences)
    ensures Collect(path => ProjectFile(full.files, path), m.sourcePaths) == Some(m.files)
  {
    hide ProjectFile, SelectCitation, SurfaceRows, SurfaceDigest, AssignedUrls, SortStrings, NonEmptyStrings, SortedInventory, ReferencesOk, ReferencesAscend, FullTablesOk, Sort;
    SortedInventoryOf(plan.sourcePaths);
    SortedInventoryOf(plan.assertionIds);
    SortedReferencesAscend(plan.ruleReferences);
    SortPermutes(plan.ruleReferences, ByKey(ReferenceId));
    AssignmentIgnoresOrder(m.ruleReferences, plan.ruleReferences, "");
  }

  lemma ProjectedDigests(t: Tree, full: FullManifest, sha: Bytes -> string, plan: ShardPlan, budget: string,
                         digest: seq<ShardCitation> -> string, m: ShardManifest)
    requires HexDigest(digest) && Loaded(t, full, sha) && Project(full, plan, budget, digest) == Some(m)
    ensures SurfaceDigest(MapEach(WithSortedIds, SortedByUrl(full.citations)), digest) == Some(m.fullSurfaceSha256)
    ensures SurfaceDigest(m.citations, digest) == Some(m.citationSurfaceSha256)
    ensures IsSha256(m.citationSurfaceSha256) && IsSha256(m.fullSurfaceSha256)
  {
    hide Loaded, ProjectFile, SelectCitation, SurfaceRows, AssignedUrls, SortStrings, PlanOk, FullTablesOk, Sort, MapEach, SortedByUrl, IsSha256, Collect;
    WholeSurfaceAgrees(t, full, sha, digest);
  }

  /** Everything in the projected manifest that does not depend on availability. */
  lemma ProjectionParts(t: Tree, full: FullManifest, sha: Bytes -> string, plan: ShardPlan, budget: string,
                        digest: seq<ShardCitation> -> string, m: ShardManifest)
    requires HexHash(sha) && HexDigest(digest)
    requires Loaded(t, full, sha) && Project(full, plan, budget, digest) == Some(m)
    ensures SortedInventory(m.sourcePaths) && SortedInventory(m.assertionIds) && ReferencesAscend(m.ruleReferences)
    ensures MapEach((f: ShardFile) => f.path, m.files) == m.sourcePaths && FilesNamed(m.files, sha)
    ensures forall i :: 0 <= i < |m.files| ==> FileMatches(full, m.files[i])
    ensures SurfaceDigest(MapEach(WithSortedIds, SortedByUrl(full.citations)), digest) == Some(m.fullSurfaceSha256)
    ensures AssignedUrls(m.ruleReferences) == AssignedUrls(plan.ruleReferences)
    ensures SurfaceDigest(m.citations, digest) == Some(m.citationSurfaceSha256)
    ensures IsSha256(m.citationSurfaceSha256) && IsSha256(m.fullSurfaceSha256)
  {
    hide Loaded, ProjectFile, Project, SurfaceDigest, AssignedUrls, FileMatches, FilesNamed, SortedInventory, ReferencesAscend, HexHash, HexDigest, IsSha256, MapEach, Collect;
    ProjectedInventories(full, plan, budget, digest, m);
    ProjectedDigests(t, full, sha, plan, budget, digest, m);
    ProjectedFiles(t, full, sha, m.sourcePaths, m.files);
  }
}
