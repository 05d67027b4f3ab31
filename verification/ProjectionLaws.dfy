/** When a shard manifest can be projected, and what it then holds, field by field, of the full cache and the plan. */
module ProjectionLaws {
  import opened Sequences
  import opened Sorting
  import opened CacheModel
  import opened FullCache
  import opened Surface
  import opened Projection
  import opened VerdictLaws
  import opened ViewLaws
  import opened AllocationLaws

  // ---- One row of the surface ----

  /** Chunk rows by index, then by path. */
  predicate ChunkBefore(a: ChunkRow, b: ChunkRow) { a.index < b.index || (a.index == b.index && StringLe(a.path, b.path)) }

  /** Artifacts by kind, URL and body hash. */
  predicate ArtifactBefore(a: ShardArtifact, b: ShardArtifact) {
    if a.kind != b.kind then StringLe(a.kind, b.kind)
    else if a.requestedUrl != b.requestedUrl then StringLe(a.requestedUrl, b.requestedUrl)
    else StringLe(a.body.sha256, b.body.sha256)
  }

  ghost predicate ChunksOf(rows: seq<ChunkRow>, of: seq<ChunkRow>) {
    multiset(rows) == multiset(of) && forall i, j :: 0 <= i < j < |rows| ==> ChunkBefore(rows[i], rows[j])
  }

  function WithoutPath(d: Option<Declared>): Option<Identity> {
    match d
    case None => None
    case Some(x) => Some(Identity(x.sha256, x.size))
  }

  function PublicArtifact(a: FullArtifact): ShardArtifact { ShardArtifact(a.kind, a.requestedUrl, a.facts, Identity(a.body.sha256, a.body.size)) }

  /** The public row of a cached citation, whatever references it lists: no private paths, artifacts and chunks in order. */
  ghost predicate PublicRow(f: FullCitation, row: ShardCitation) {
    && row.requestedUrl == f.requestedUrl && row.evidenceUrl == f.evidenceUrl && row.resolverId == f.resolverId
    && row.inspectionRequired == f.inspectionRequired && row.identityVerified == f.identityVerified && row.available == f.available
    && row.facts == f.facts && row.body == WithoutPath(f.body) && row.inspection == WithoutPath(f.inspection)
    && row.parser == f.parser && row.errorCode == f.errorCode && ChunksOf(row.chunks, f.chunks)
    && multiset(row.artifacts) == multiset(MapEach(PublicArtifact, f.artifacts))
    && forall i, j :: 0 <= i < j < |row.artifacts| ==> ArtifactBefore(row.artifacts[i], row.artifacts[j])
  }

  lemma ArtifactsAre(f: FullCitation)
    ensures MapEach(StripArtifact, f.artifacts) == MapEach(PublicArtifact, f.artifacts)
  {
    var a, b := MapEach(StripArtifact, f.artifacts), MapEach(PublicArtifact, f.artifacts);
    forall i | 0 <= i < |a| ensures a[i] == b[i] { }
  }

  lemma SortedChunks(chunks: seq<ChunkRow>)
    ensures ChunksOf(Sort(chunks, ChunkLe), chunks)
  {
    ChunkOrder();
    SortPermutes(chunks, ChunkLe);
    SortSorts(chunks, ChunkLe);
    var r := Sort(chunks, ChunkLe);
    forall i, j | 0 <= i < j < |r| ensures ChunkBefore(r[i], r[j]) { assert ChunkLe(r[i], r[j]); }
  }

  lemma SortedArtifacts(artifacts: seq<ShardArtifact>)
    ensures var r := Sort(artifacts, ArtifactLe);
      multiset(r) == multiset(artifacts) && forall i, j :: 0 <= i < j < |r| ==> ArtifactBefore(r[i], r[j])
  {
    ArtifactOrder();
    SortPermutes(artifacts, ArtifactLe);
    SortSorts(artifacts, ArtifactLe);
    var r := Sort(artifacts, ArtifactLe);
    forall i, j | 0 <= i < j < |r| ensures ArtifactBefore(r[i], r[j]) { assert ArtifactLe(r[i], r[j]); }
  }

  /** The surface row of a cached citation is its public row. */
  lemma SurfaceRowIsPublic(f: FullCitation, ids: seq<string>)
    ensures PublicRow(f, SurfaceRow(Strip(f).(referenceIds := ids)))
  {
    hide Sort, ArtifactLe, ChunkLe, ChunkBefore, ArtifactBefore;
    SortedChunks(f.chunks);
    SortedArtifacts(MapEach(StripArtifact, f.artifacts));
    ArtifactsAre(f);
  }

  // ---- The parts of a manifest ----

  /** The plan and the cache tables can be used at all. */
  predicate Usable(full: FullManifest, plan: ShardPlan, budget: string) {
    && (forall i :: 0 <= i < |plan.sourcePaths| ==> plan.sourcePaths[i] != "")
    && (forall i, j :: 0 <= i < j < |plan.sourcePaths| ==> plan.sourcePaths[i] != plan.sourcePaths[j])
    && (forall i :: 0 <= i < |plan.assertionIds| ==> plan.assertionIds[i] != "")
    && (forall i, j :: 0 <= i < j < |plan.assertionIds| ==> plan.assertionIds[i] != plan.assertionIds[j])
    && (forall r :: r in plan.ruleReferences ==> Digest(r.referenceId) && Digest(r.surfaceSha256) && r.citationUrl != "")
    && (forall i, j :: 0 <= i < j < |plan.ruleReferences| ==> plan.ruleReferences[i].referenceId != plan.ruleReferences[j].referenceId)
    && plan.budgetContract == budget
    && (forall i, j :: 0 <= i < j < |full.files| ==> full.files[i].path != full.files[j].path)
    && forall i, j :: 0 <= i < j < |full.citations| ==> full.citations[i].requestedUrl != full.citations[j].requestedUrl
  }

  predicate PathsDiffer(chunks: seq<ChunkRow>) {
    && (forall c :: c in chunks ==> c.path != "")
    && forall i, j :: 0 <= i < j < |chunks| ==> chunks[i].path != chunks[j].path
  }

  /** The cached file is to be inspected and in chunks. */
  predicate Assignable(f: FullFile) { f.inspectionRequired && f.chunks != [] && PathsDiffer(f.chunks) }

  /** Every assigned path has an assignable file. */
  predicate FilesAssignable(full: FullManifest, plan: ShardPlan) {
    forall p :: p in plan.sourcePaths ==> exists f :: f in full.files && f.path == p && Assignable(f)
  }

  /** Every assigned reference is listed by the cached citation of its URL, which is to be inspected. */
  predicate CitationsAssignable(full: FullManifest, plan: ShardPlan) {
    forall r :: r in plan.ruleReferences ==>
      exists c :: c in full.citations && c.requestedUrl == r.citationUrl && c.inspectionRequired && r.referenceId in c.referenceIds
                  && PathsDiffer(c.chunks)
  }

  /** Every cached citation can stand on the full surface. */
  predicate WholeSurface(full: FullManifest) {
    forall c :: c in full.citations ==>
      && c.requestedUrl != "" && c.referenceIds != [] && (forall id :: id in c.referenceIds ==> Digest(id))
      && (forall i, j :: 0 <= i < j < |c.referenceIds| ==> c.referenceIds[i] != c.referenceIds[j]) && PathsDiffer(c.chunks)
  }

  lemma UsableExactly(full: FullManifest, plan: ShardPlan, budget: string)
    ensures PlanOk(plan, budget) && FullTablesOk(full) <==> Usable(full, plan, budget)
  {
    if PlanOk(plan, budget) {
      forall r | r in plan.ruleReferences ensures Digest(r.referenceId) && Digest(r.surfaceSha256) && r.citationUrl != "" {
        var i :| 0 <= i < |plan.ruleReferences| && plan.ruleReferences[i] == r;
      }
    }
    if Usable(full, plan, budget) {
      forall i | 0 <= i < |plan.ruleReferences|
        ensures IsSha256(plan.ruleReferences[i].referenceId) && IsSha256(plan.ruleReferences[i].surfaceSha256) && plan.ruleReferences[i].citationUrl != ""
      {
        assert plan.ruleReferences[i] in plan.ruleReferences;
      }
    }
  }

  lemma PathsDifferExactly(chunks: seq<ChunkRow>)
    ensures DistinctChunkPaths(chunks) <==> PathsDiffer(chunks)
  {
    if DistinctChunkPaths(chunks) {
      forall c | c in chunks ensures c.path != "" { var i :| 0 <= i < |chunks| && chunks[i] == c; }
    }
  }

  // ---- Files ----

  lemma FoundFile(files: seq<FullFile>, f: FullFile)
    requires (forall i, j :: 0 <= i < j < |files| ==> files[i].path != files[j].path) && f in files
    ensures FindFile(files, f.path) == Some(f)
  {
    var found := FindFile(files, f.path).value;
    var i :| 0 <= i < |files| && files[i] == f;
    var j :| 0 <= j < |files| && files[j] == found;
  }

  /** A file row of the manifest: the file's public fields and its chunks in order. */
  ghost predicate FileOf(full: FullManifest, path: string, row: ShardFile) {
    exists f :: f in full.files && f.path == path && Assignable(f) && ChunksOf(row.chunks, f.chunks)
                && row == ShardFile(f.path, f.hashKind, f.sha256, Identity(f.cache.sha256, f.cache.size), true, row.chunks)
  }

  lemma FileProjects(full: FullManifest, path: string)
    requires forall i, j :: 0 <= i < j < |full.files| ==> full.files[i].path != full.files[j].path
    ensures ProjectFile(full.files, path).Some? <==> path != "" && exists f :: f in full.files && f.path == path && Assignable(f)
    ensures ProjectFile(full.files, path).Some? ==> FileOf(full, path, ProjectFile(full.files, path).value)
  {
    hide ChunkLe, DistinctChunkPaths, PathsDiffer, Sort;
    if f :| f in full.files && f.path == path && Assignable(f) {
      FoundFile(full.files, f);
      PathsDifferExactly(f.chunks);
    }
    if FindFile(full.files, path).Some? {
      PathsDifferExactly(FindFile(full.files, path).value.chunks);
      SortedChunks(FindFile(full.files, path).value.chunks);
    }
  }

  // ---- Citations ----

  /** A citation row of the manifest: the public row of the cached citation, with exactly the assigned references, ascending. */
  ghost predicate CitationOf(full: FullManifest, refs: seq<RuleReference>, url: string, row: ShardCitation) {
    && (exists f :: f in full.citations && f.requestedUrl == url && f.inspectionRequired && PublicRow(f, row))
    && Ascends(row.referenceIds)
    && forall id :: id in row.referenceIds <==> exists r :: r in refs && r.citationUrl == url && r.referenceId == id
  }

  lemma CitesMember(refs: seq<RuleReference>, url: string, id: string)
    ensures id in AssignedIds(refs, url) <==> exists r :: r in refs && r.citationUrl == url && r.referenceId == id
  {
    hide MapEach;
    var cites := (r: RuleReference) => r.citationUrl == url;
    var picked := Filter(cites, refs);
    KeysHave(picked, ReferenceId, id);
    if i :| 0 <= i < |picked| && ReferenceId(picked[i]) == id { assert picked[i] in picked; }
    if r :| r in refs && r.citationUrl == url && r.referenceId == id {
      assert r in picked;
      var i :| 0 <= i < |picked| && picked[i] == r;
    }
  }

  lemma AssignedDistinct(refs: seq<RuleReference>, url: string)
    requires forall i, j :: 0 <= i < j < |refs| ==> refs[i].referenceId != refs[j].referenceId
    ensures NoDuplicates(AssignedIds(refs, url))
  {
    hide MapEach, Filter;
    var cites := (r: RuleReference) => r.citationUrl == url;
    ApartExactly(cites, refs, ReferenceId);
    forall i, j | 0 <= i < j < |refs| && cites(refs[i]) && cites(refs[j]) ensures ReferenceId(refs[i]) != ReferenceId(refs[j]) { }
  }

  /** The assigned references of a URL are all listed by its citation. */
  lemma SelectsExactly(full: FullManifest, refs: seq<RuleReference>, url: string)
    requires FullTablesOk(full)
    ensures SelectCitation(full.citations, refs, url).Some? <==>
              exists c :: c in full.citations && c.requestedUrl == url && c.inspectionRequired
                          && forall r :: r in refs && r.citationUrl == url ==> r.referenceId in c.referenceIds
  {
    hide AssignedIds, FullTablesOk;
    forall c | c in full.citations && c.requestedUrl == url ensures FindCitation(full.citations, url) == Some(c) { FoundIsUnique(full, c); }
    forall id ensures id in AssignedIds(refs, url) <==> exists r :: r in refs && r.citationUrl == url && r.referenceId == id { CitesMember(refs, url, id); }
    forall c: FullCitation
      ensures AllIn(AssignedIds(refs, url), c.referenceIds) <==> forall r :: r in refs && r.citationUrl == url ==> r.referenceId in c.referenceIds
    {
      ListsAssigned(refs, url, c);
    }
  }

  lemma ListsAssigned(refs: seq<RuleReference>, url: string, c: FullCitation)
    requires forall id :: id in AssignedIds(refs, url) <==> exists r :: r in refs && r.citationUrl == url && r.referenceId == id
    ensures AllIn(AssignedIds(refs, url), c.referenceIds) <==> forall r :: r in refs && r.citationUrl == url ==> r.referenceId in c.referenceIds
  {
    hide AssignedIds;
    var ids := AssignedIds(refs, url);
    if AllIn(ids, c.referenceIds) {
      forall r | r in refs && r.citationUrl == url ensures r.referenceId in c.referenceIds {
        assert r.referenceId in ids;
        var i :| 0 <= i < |ids| && ids[i] == r.referenceId;
      }
    }
    if forall r :: r in refs && r.citationUrl == url ==> r.referenceId in c.referenceIds {
      forall i | 0 <= i < |ids| ensures ids[i] in c.referenceIds { assert ids[i] in ids; }
    }
  }

  lemma SelectedIsCitation(full: FullManifest, refs: seq<RuleReference>, url: string)
    requires SelectCitation(full.citations, refs, url).Some?
    requires forall i, j :: 0 <= i < j < |refs| ==> refs[i].referenceId != refs[j].referenceId
    ensures CitationOf(full, refs, url, SurfaceRow(SelectCitation(full.citations, refs, url).value))
  {
    hide AssignedIds, PublicRow, SurfaceRow, Strip, SortStrings, Ascends;
    var f := FindCitation(full.citations, url).value;
    var ids := AssignedIds(refs, url);
    var row := SurfaceRow(SelectCitation(full.citations, refs, url).value);
    SurfaceRowIsPublic(f, SortStrings(ids));
    AssignedDistinct(refs, url);
    SortedDistinct(ids);
    SurfaceIds(Strip(f), ids);
    forall id ensures id in row.referenceIds <==> exists r :: r in refs && r.citationUrl == url && r.referenceId == id { CitesMember(refs, url, id); }
  }

  /** Sorting the reference IDs again changes nothing. */
  lemma SurfaceIds(row: ShardCitation, ids: seq<string>)
    ensures SurfaceRow(row.(referenceIds := SortStrings(ids))).referenceIds == SortStrings(ids)
    ensures forall id :: id in SortStrings(ids) <==> id in ids
  {
    SortedTwice(ids);
    SortKeepsMembers(ids, ByKey(Self));
  }

  // ---- The surfaces ----

  predicate UrlsAscend(rows: seq<ShardCitation>) { forall i, j :: 0 <= i < j < |rows| ==> StringLt(rows[i].requestedUrl, rows[j].requestedUrl) }

  lemma SurfaceAscends(cs: seq<ShardCitation>, rows: seq<ShardCitation>)
    requires SurfaceRows(cs) == Some(rows)
    ensures UrlsAscend(rows) && forall r :: r in rows <==> exists i :: 0 <= i < |cs| && SurfaceRow(cs[i]) == r
  {
    hide SurfaceRow, SurfaceRowOk, Sorted, UrlsAscend, MapEach;
    SurfaceMembers(cs, rows);
    SortedUrlsAscend(rows);
    var each := MapEach(SurfaceRow, cs);
    SortKeepsMembers(each, ByKey(Url));
    forall i | 0 <= i < |cs| ensures SurfaceRow(cs[i]) in rows { assert each[i] in each; }
    forall r | r in rows ensures exists i :: 0 <= i < |cs| && SurfaceRow(cs[i]) == r { var i :| 0 <= i < |each| && each[i] == r; }
  }

  lemma SortedUrlsAscend(rows: seq<ShardCitation>)
    requires DistinctUrls(rows) && Sorted(rows, ByKey(Url))
    ensures UrlsAscend(rows)
  {
    forall i, j | 0 <= i < j < |rows| ensures StringLt(rows[i].requestedUrl, rows[j].requestedUrl) {
      assert ByKey(Url)(rows[i], rows[j]) && Url(rows[i]) == rows[i].requestedUrl && Url(rows[j]) == rows[j].requestedUrl;
    }
  }

  /** The full surface: the public row of every cached citation with all its references, by URL. */
  ghost predicate FullSurface(full: FullManifest, rows: seq<ShardCitation>) {
    && UrlsAscend(rows) && |rows| == |full.citations|
    && (forall row :: row in rows ==> exists f :: f in full.citations && AllReferences(f, row))
    && forall f :: f in full.citations ==> exists row :: row in rows && AllReferences(f, row)
  }

  ghost predicate AllReferences(f: FullCitation, row: ShardCitation) {
    PublicRow(f, row) && Ascends(row.referenceIds) && forall id :: id in row.referenceIds <==> id in f.referenceIds
  }

  lemma WholeSurfaceExactly(full: FullManifest, digest: seq<ShardCitation> -> string)
    requires FullTablesOk(full)
    ensures SurfaceDigest(MapEach(Strip, full.citations), digest).Some? <==> WholeSurface(full)
    ensures WholeSurface(full) ==>
              exists rows :: FullSurface(full, rows) && SurfaceDigest(MapEach(Strip, full.citations), digest) == Some(digest(rows))
  {
    hide Strip, SurfaceRowOk, FullSurface, MapEach, PathsDiffer;
    var stripped := MapEach(Strip, full.citations);
    forall i | 0 <= i < |full.citations| ensures SurfaceRowOk(stripped[i]) <==> Standing(full.citations[i]) { StandsExactly(full.citations[i]); }
    StrippedUrls(full);
    EachStands(full);
    if WholeSurface(full) {
      var rows := SurfaceRows(stripped).value;
      SurfaceIsFull(full, rows);
    }
  }

  predicate Standing(c: FullCitation) {
    && c.requestedUrl != "" && c.referenceIds != [] && (forall id :: id in c.referenceIds ==> Digest(id))
    && (forall i, j :: 0 <= i < j < |c.referenceIds| ==> c.referenceIds[i] != c.referenceIds[j]) && PathsDiffer(c.chunks)
  }

  lemma StandsExactly(c: FullCitation)
    ensures SurfaceRowOk(Strip(c)) <==> Standing(c)
  {
    hide DistinctChunkPaths, PathsDiffer;
    PathsDifferExactly(c.chunks);
  }

  lemma EachStands(full: FullManifest)
    ensures WholeSurface(full) <==> forall i :: 0 <= i < |full.citations| ==> Standing(full.citations[i])
  {
    hide PathsDiffer, Digest;
    if forall i :: 0 <= i < |full.citations| ==> Standing(full.citations[i]) {
      forall c | c in full.citations ensures Standing(c) { var i :| 0 <= i < |full.citations| && full.citations[i] == c; }
    }
    if WholeSurface(full) {
      forall i | 0 <= i < |full.citations| ensures Standing(full.citations[i]) { assert full.citations[i] in full.citations; }
    }
  }

  lemma StrippedUrls(full: FullManifest)
    requires FullTablesOk(full)
    ensures DistinctUrls(MapEach(Strip, full.citations))
  {
    hide MapEach;
    var s := MapEach(Strip, full.citations);
    forall i, j | 0 <= i < j < |s| ensures s[i].requestedUrl != s[j].requestedUrl { assert s[i] == Strip(full.citations[i]) && s[j] == Strip(full.citations[j]); }
  }

  lemma SurfaceIsFull(full: FullManifest, rows: seq<ShardCitation>)
    requires SurfaceRows(MapEach(Strip, full.citations)) == Some(rows) && WholeSurface(full)
    ensures FullSurface(full, rows)
  {
    hide Strip, SurfaceRow, SurfaceRowOk, MapEach, PathsDiffer, AllReferences;
    var stripped := MapEach(Strip, full.citations);
    SurfaceAscends(stripped, rows);
    forall row | row in rows ensures exists f :: f in full.citations && AllReferences(f, row) {
      var i :| 0 <= i < |stripped| && SurfaceRow(stripped[i]) == row;
      assert stripped[i] == Strip(full.citations[i]);
      PublicWhole(full.citations[i]);
    }
    forall f | f in full.citations ensures exists row :: row in rows && AllReferences(f, row) {
      var i :| 0 <= i < |full.citations| && full.citations[i] == f;
      assert stripped[i] == Strip(full.citations[i]) && SurfaceRow(stripped[i]) in rows;
      PublicWhole(f);
    }
    assert |rows| == |MapEach(SurfaceRow, stripped)|;
  }

  lemma PublicWhole(f: FullCitation)
    requires forall i, j :: 0 <= i < j < |f.referenceIds| ==> f.referenceIds[i] != f.referenceIds[j]
    ensures AllReferences(f, SurfaceRow(Strip(f)))
  {
    hide PublicRow, Sort;
    SurfaceRowIsPublic(f, f.referenceIds);
    assert Strip(f).(referenceIds := f.referenceIds) == Strip(f);
    SortedDistinct(f.referenceIds);
    SortKeepsMembers(f.referenceIds, ByKey(Self));
  }

  // ---- The assigned surface ----

  lemma AssignedUrlListed(refs: seq<RuleReference>, url: string)
    ensures url in AssignedUrls(refs) <==> exists r :: r in refs && r.citationUrl == url
  {
    hide AssignedUrls;
    AssignedUrlsAscend(refs);
  }

  /** All assigned citations can be selected exactly when each reference is listed by its own. */
  lemma SelectionExactly(full: FullManifest, plan: ShardPlan)
    requires FullTablesOk(full)
    ensures Collect(url => SelectCitation(full.citations, plan.ruleReferences, url), AssignedUrls(plan.ruleReferences)).Some? <==>
              forall r :: r in plan.ruleReferences ==>
                exists c :: c in full.citations && c.requestedUrl == r.citationUrl && c.inspectionRequired && r.referenceId in c.referenceIds
  {
    hide SelectCitation, AssignedUrls;
    var refs, urls := plan.ruleReferences, AssignedUrls(plan.ruleReferences);
    forall url
      ensures url in urls <==> exists r :: r in refs && r.citationUrl == url
      ensures SelectCitation(full.citations, refs, url).Some? <==>
                exists c :: c in full.citations && c.requestedUrl == url && c.inspectionRequired
                            && forall r :: r in refs && r.citationUrl == url ==> r.referenceId in c.referenceIds
    {
      AssignedUrlListed(refs, url);
      SelectsExactly(full, refs, url);
    }
    if forall i :: 0 <= i < |urls| ==> SelectCitation(full.citations, refs, urls[i]).Some? {
      forall r | r in refs
        ensures exists c :: c in full.citations && c.requestedUrl == r.citationUrl && c.inspectionRequired && r.referenceId in c.referenceIds
      {
        assert r.citationUrl in urls;
        var i :| 0 <= i < |urls| && urls[i] == r.citationUrl;
      }
    }
    if forall r :: r in refs ==> exists c :: c in full.citations && c.requestedUrl == r.citationUrl && c.inspectionRequired && r.referenceId in c.referenceIds {
      forall i | 0 <= i < |urls| ensures SelectCitation(full.citations, refs, urls[i]).Some? {
        assert urls[i] in urls;
        OneCitation(full, refs, urls[i]);
      }
    }
  }

  /** One URL has one citation, so it lists every reference of that URL. */
  lemma OneCitation(full: FullManifest, refs: seq<RuleReference>, url: string)
    requires FullTablesOk(full) && exists r :: r in refs && r.citationUrl == url
    requires forall r :: r in refs ==> exists c :: c in full.citations && c.requestedUrl == r.citationUrl && c.inspectionRequired && r.referenceId in c.referenceIds
    ensures exists c :: c in full.citations && c.requestedUrl == url && c.inspectionRequired
                        && forall r :: r in refs && r.citationUrl == url ==> r.referenceId in c.referenceIds
  {
    hide FullTablesOk;
    var first :| first in refs && first.citationUrl == url;
    var c :| c in full.citations && c.requestedUrl == first.citationUrl && c.inspectionRequired && first.referenceId in c.referenceIds;
    FoundIsUnique(full, c);
    forall r | r in refs && r.citationUrl == url ensures r.referenceId in c.referenceIds {
      var d :| d in full.citations && d.requestedUrl == r.citationUrl && d.inspectionRequired && r.referenceId in d.referenceIds;
      FoundIsUnique(full, d);
    }
  }

  // ---- The manifest ----

  function SelectedCitations(full: FullManifest, plan: ShardPlan): Option<seq<ShardCitation>> {
    Collect(url => SelectCitation(full.citations, plan.ruleReferences, url), AssignedUrls(plan.ruleReferences))
  }

  lemma SelectedRow(full: FullManifest, plan: ShardPlan, i: nat)
    requires SelectedCitations(full, plan).Some? && i < |AssignedUrls(plan.ruleReferences)|
    requires forall r :: r in plan.ruleReferences ==> Digest(r.referenceId) && r.citationUrl != ""
    requires forall i, j :: 0 <= i < j < |plan.ruleReferences| ==> plan.ruleReferences[i].referenceId != plan.ruleReferences[j].referenceId
    ensures |SelectedCitations(full, plan).value| == |AssignedUrls(plan.ruleReferences)|
    ensures var row, url := SelectedCitations(full, plan).value[i], AssignedUrls(plan.ruleReferences)[i];
      && SelectCitation(full.citations, plan.ruleReferences, url) == Some(row) && row.requestedUrl == url
      && FindCitation(full.citations, url).Some? && row.chunks == FindCitation(full.citations, url).value.chunks
      && (SurfaceRowOk(row) <==> PathsDiffer(row.chunks))
  {
    hide AssignedUrls, AssignedIds, DistinctChunkPaths, PathsDiffer, Sort;
    var refs, urls := plan.ruleReferences, AssignedUrls(plan.ruleReferences);
    var row := SelectedCitations(full, plan).value[i];
    PathsDifferExactly(row.chunks);
    assert urls[i] in urls;
    AssignedUrlListed(refs, urls[i]);
    var r :| r in refs && r.citationUrl == urls[i];
    var ids := AssignedIds(refs, urls[i]);
    AssignedDistinct(refs, urls[i]);
    NoDuplicatesSorted(ids);
    SortKeepsMembers(ids, ByKey(Self));
    forall id ensures id in ids <==> exists q :: q in refs && q.citationUrl == urls[i] && q.referenceId == id { CitesMember(refs, urls[i], id); }
    assert r.referenceId in row.referenceIds;
  }

  /** The assigned surface stands exactly when the selected citations have distinct chunk paths. */
  lemma AssignedSurface(full: FullManifest, plan: ShardPlan)
    requires SelectedCitations(full, plan).Some? && FullTablesOk(full)
    requires forall r :: r in plan.ruleReferences ==> Digest(r.referenceId) && r.citationUrl != ""
    requires forall i, j :: 0 <= i < j < |plan.ruleReferences| ==> plan.ruleReferences[i].referenceId != plan.ruleReferences[j].referenceId
    ensures SurfaceRows(SelectedCitations(full, plan).value).Some? <==>
              forall c, r :: c in full.citations && r in plan.ruleReferences && c.requestedUrl == r.citationUrl ==> PathsDiffer(c.chunks)
  {
    hide SelectedCitations, SelectCitation, AssignedUrls, PathsDiffer, SurfaceRowOk, FullTablesOk;
    var refs, urls, selected := plan.ruleReferences, AssignedUrls(plan.ruleReferences), SelectedCitations(full, plan).value;
    AssignedUrlsAscend(refs);
    forall i | 0 <= i < |urls|
      ensures |selected| == |urls| && selected[i].requestedUrl == urls[i] && FindCitation(full.citations, urls[i]).Some?
      ensures selected[i].chunks == FindCitation(full.citations, urls[i]).value.chunks && (SurfaceRowOk(selected[i]) <==> PathsDiffer(selected[i].chunks))
    {
      SelectedRow(full, plan, i);
    }
    SelectedLength(full, plan);
    forall i, j | 0 <= i < j < |selected| ensures selected[i].requestedUrl != selected[j].requestedUrl { assert StringLt(urls[i], urls[j]); }
    if forall i :: 0 <= i < |selected| ==> SurfaceRowOk(selected[i]) {
      forall c, r | c in full.citations && r in refs && c.requestedUrl == r.citationUrl ensures PathsDiffer(c.chunks) {
        FoundIsUnique(full, c);
        assert r.citationUrl in urls;
        var i :| 0 <= i < |urls| && urls[i] == r.citationUrl;
        assert SurfaceRowOk(selected[i]);
      }
    }
    if forall c, r :: c in full.citations && r in refs && c.requestedUrl == r.citationUrl ==> PathsDiffer(c.chunks) {
      forall i | 0 <= i < |selected| ensures SurfaceRowOk(selected[i]) {
        assert urls[i] in urls;
        var r :| r in refs && r.citationUrl == urls[i];
      }
    }
  }

  lemma SelectedLength(full: FullManifest, plan: ShardPlan)
    requires SelectedCitations(full, plan).Some?
    ensures |SelectedCitations(full, plan).value| == |AssignedUrls(plan.ruleReferences)|
  {
    hide SelectCitation, AssignedUrls;
  }

  lemma FilesExactly(full: FullManifest, plan: ShardPlan)
    requires forall i, j :: 0 <= i < j < |full.files| ==> full.files[i].path != full.files[j].path
    requires forall i :: 0 <= i < |plan.sourcePaths| ==> plan.sourcePaths[i] != ""
    ensures Collect(path => ProjectFile(full.files, path), SortStrings(plan.sourcePaths)).Some? <==> FilesAssignable(full, plan)
  {
    hide ProjectFile, Assignable;
    var sorted := SortStrings(plan.sourcePaths);
    SortKeepsMembers(plan.sourcePaths, ByKey(Self));
    forall p: string ensures ProjectFile(full.files, p).Some? <==> p != "" && exists f :: f in full.files && f.path == p && Assignable(f) { FileProjects(full, p); }
    if forall i :: 0 <= i < |sorted| ==> ProjectFile(full.files, sorted[i]).Some? {
      forall p | p in plan.sourcePaths ensures exists f :: f in full.files && f.path == p && Assignable(f) {
        assert p in sorted;
        var i :| 0 <= i < |sorted| && sorted[i] == p;
      }
    }
    if FilesAssignable(full, plan) {
      forall i | 0 <= i < |sorted| ensures ProjectFile(full.files, sorted[i]).Some? {
        assert sorted[i] in sorted;
        var k :| 0 <= k < |plan.sourcePaths| && plan.sourcePaths[k] == sorted[i];
      }
    }
  }

  lemma CitationsExactly(full: FullManifest, plan: ShardPlan)
    requires FullTablesOk(full)
    requires forall r :: r in plan.ruleReferences ==> Digest(r.referenceId) && r.citationUrl != ""
    requires forall i, j :: 0 <= i < j < |plan.ruleReferences| ==> plan.ruleReferences[i].referenceId != plan.ruleReferences[j].referenceId
    ensures SelectedCitations(full, plan).Some? && SurfaceRows(SelectedCitations(full, plan).value).Some? <==> CitationsAssignable(full, plan)
  {
    hide SelectCitation, AssignedUrls, PathsDiffer, SurfaceRows, FullTablesOk, Collect, Digest;
    SelectionExactly(full, plan);
    if SelectedCitations(full, plan).Some? {
      AssignedSurface(full, plan);
      forall c, d | c in full.citations && d in full.citations && c.requestedUrl == d.requestedUrl ensures c == d { FoundIsUnique(full, c); FoundIsUnique(full, d); }
    }
  }

  /** Projection needs its tables, its files, its selected citations on a surface, and the full surface. */
  lemma ProjectionParts(full: FullManifest, plan: ShardPlan, budget: string, digest: seq<ShardCitation> -> string)
    ensures Project(full, plan, budget, digest).Some? <==>
      && PlanOk(plan, budget) && FullTablesOk(full)
      && Collect(path => ProjectFile(full.files, path), SortStrings(plan.sourcePaths)).Some?
      && SelectedCitations(full, plan).Some? && SurfaceRows(SelectedCitations(full, plan).value).Some?
      && SurfaceDigest(MapEach(Strip, full.citations), digest).Some?
  {
    hide PlanOk, FullTablesOk, AssignedUrls, SelectCitation, ProjectFile, SortStrings, Collect, Sort, SurfaceRows;
    if SelectedCitations(full, plan).Some? && SurfaceRows(SelectedCitations(full, plan).value).Some? {
      SurfaceIdempotent(SelectedCitations(full, plan).value, SurfaceRows(SelectedCitations(full, plan).value).value);
    }
  }

  /** A shard manifest can be projected exactly when the plan and cache tables are usable, every assigned file is in chunks, every
      assigned reference is listed by the citation of its URL, and the full surface stands. */
  lemma ManifestProjectsExactly(full: FullManifest, plan: ShardPlan, budget: string, digest: seq<ShardCitation> -> string)
    ensures Project(full, plan, budget, digest).Some? <==>
      && Usable(full, plan, budget) && FilesAssignable(full, plan) && CitationsAssignable(full, plan) && WholeSurface(full)
  {
    hide *;
    ProjectionParts(full, plan, budget, digest);
    UsableExactly(full, plan, budget);
    if Usable(full, plan, budget) {
      UsableParts(full, plan, budget);
      FilesExactly(full, plan);
      CitationsExactly(full, plan);
      WholeSurfaceExactly(full, digest);
    }
  }

  lemma UsableParts(full: FullManifest, plan: ShardPlan, budget: string)
    requires Usable(full, plan, budget)
    ensures forall i, j :: 0 <= i < j < |full.files| ==> full.files[i].path != full.files[j].path
    ensures forall i :: 0 <= i < |plan.sourcePaths| ==> plan.sourcePaths[i] != ""
    ensures forall r :: r in plan.ruleReferences ==> Digest(r.referenceId) && r.citationUrl != ""
    ensures forall i, j :: 0 <= i < j < |plan.ruleReferences| ==> plan.ruleReferences[i].referenceId != plan.ruleReferences[j].referenceId
    ensures NoDuplicates(plan.sourcePaths) && NoDuplicates(plan.assertionIds)
  {
  }

  /** The rows of the manifest: the plan's inventories ascending, one row for each file and each URL. */
  ghost predicate RowsProjected(full: FullManifest, plan: ShardPlan, m: ShardManifest) {
    && Ascends(m.sourcePaths) && (forall p :: p in m.sourcePaths <==> p in plan.sourcePaths)
    && Ascends(m.assertionIds) && (forall a :: a in m.assertionIds <==> a in plan.assertionIds)
    && (forall i, j :: 0 <= i < j < |m.ruleReferences| ==> StringLt(m.ruleReferences[i].referenceId, m.ruleReferences[j].referenceId))
    && (forall r :: r in m.ruleReferences <==> r in plan.ruleReferences)
    && |m.files| == |m.sourcePaths| && (forall i :: 0 <= i < |m.files| ==> FileOf(full, m.sourcePaths[i], m.files[i]))
    && UrlsAscend(m.citations)
    && (forall c :: c in m.citations ==> CitationOf(full, plan.ruleReferences, c.requestedUrl, c))
    && forall r :: r in plan.ruleReferences ==> exists c :: c in m.citations && c.requestedUrl == r.citationUrl
  }

  /** What the projected manifest holds. */
  lemma ManifestRowsExactly(full: FullManifest, plan: ShardPlan, budget: string, digest: seq<ShardCitation> -> string, m: ShardManifest)
    requires Project(full, plan, budget, digest) == Some(m)
    ensures RowsProjected(full, plan, m)
    ensures m.protocolId == full.protocolId && m.snapshotSha256 == full.snapshotSha256 && m.chunkContract == full.chunkContract
    ensures m.planSha256 == plan.planSha256 && m.shardId == plan.shardId && m.budgetContract == budget
    ensures m.citationSurfaceSha256 == digest(m.citations)
    ensures exists rows :: FullSurface(full, rows) && m.fullSurfaceSha256 == digest(rows)
  {
    hide PlanOk, FullTablesOk, Usable, AssignedUrls, SelectCitation, ProjectFile, SortStrings, Collect, Sort, RowsProjected, FullSurface, WholeSurface, SurfaceRows;
    UsableExactly(full, plan, budget);
    UsableParts(full, plan, budget);
    var selected := SelectedCitations(full, plan).value;
    SurfaceIdempotent(selected, m.citations);
    WholeSurfaceExactly(full, digest);
    InventoriesProjected(full, plan, m);
  }

  lemma InventoriesProjected(full: FullManifest, plan: ShardPlan, m: ShardManifest)
    requires forall i, j :: 0 <= i < j < |full.files| ==> full.files[i].path != full.files[j].path
    requires forall i, j :: 0 <= i < j < |plan.ruleReferences| ==> plan.ruleReferences[i].referenceId != plan.ruleReferences[j].referenceId
    requires NoDuplicates(plan.sourcePaths) && NoDuplicates(plan.assertionIds)
    requires m.sourcePaths == SortStrings(plan.sourcePaths) && m.assertionIds == SortStrings(plan.assertionIds)
    requires m.ruleReferences == Sort(plan.ruleReferences, ByKey(ReferenceId))
    requires Collect(path => ProjectFile(full.files, path), m.sourcePaths) == Some(m.files)
    requires SelectedCitations(full, plan).Some? && SurfaceRows(SelectedCitations(full, plan).value) == Some(m.citations)
    ensures RowsProjected(full, plan, m)
  {
    hide SelectedCitations, SurfaceRows, ProjectFile, FileOf, CitationOf, UrlsAscend, Sort, Ascends;
    SortedDistinct(plan.sourcePaths);
    SortedDistinct(plan.assertionIds);
    SortKeepsMembers(plan.sourcePaths, ByKey(Self));
    SortKeepsMembers(plan.assertionIds, ByKey(Self));
    SortKeepsMembers(plan.ruleReferences, ByKey(ReferenceId));
    ReferencesSorted(plan.ruleReferences);
    forall i | 0 <= i < |m.files| ensures FileOf(full, m.sourcePaths[i], m.files[i]) { FileProjects(full, m.sourcePaths[i]); }
    CitationsProjected(full, plan, m.citations);
  }

  lemma ReferencesSorted(refs: seq<RuleReference>)
    requires forall i, j :: 0 <= i < j < |refs| ==> refs[i].referenceId != refs[j].referenceId
    ensures var r := Sort(refs, ByKey(ReferenceId)); forall i, j :: 0 <= i < j < |r| ==> StringLt(r[i].referenceId, r[j].referenceId)
  {
    var r := Sort(refs, ByKey(ReferenceId));
    forall i, j | 0 <= i < j < |refs| ensures ReferenceId(refs[i]) != ReferenceId(refs[j]) { }
    SortPermutes(refs, ByKey(ReferenceId));
    DistinctRearranged(refs, r, ReferenceId);
    ByKeyIsPreorder(ReferenceId);
    SortSorts(refs, ByKey(ReferenceId));
    forall i, j | 0 <= i < j < |r| ensures StringLt(r[i].referenceId, r[j].referenceId) {
      assert ByKey(ReferenceId)(r[i], r[j]) && ReferenceId(r[i]) != ReferenceId(r[j]);
    }
  }

  lemma CitationsProjected(full: FullManifest, plan: ShardPlan, citations: seq<ShardCitation>)
    requires SelectedCitations(full, plan).Some? && SurfaceRows(SelectedCitations(full, plan).value) == Some(citations)
    requires forall i, j :: 0 <= i < j < |plan.ruleReferences| ==> plan.ruleReferences[i].referenceId != plan.ruleReferences[j].referenceId
    ensures UrlsAscend(citations)
    ensures forall c :: c in citations ==> CitationOf(full, plan.ruleReferences, c.requestedUrl, c)
    ensures forall r :: r in plan.ruleReferences ==> exists c :: c in citations && c.requestedUrl == r.citationUrl
  {
    hide SurfaceRows, SelectCitation, CitationOf, UrlsAscend, SurfaceRow, AssignedUrls;
    var refs, urls, selected := plan.ruleReferences, AssignedUrls(plan.ruleReferences), SelectedCitations(full, plan).value;
    SurfaceAscends(selected, citations);
    forall c | c in citations ensures CitationOf(full, refs, c.requestedUrl, c) {
      var i :| 0 <= i < |selected| && SurfaceRow(selected[i]) == c;
      assert SelectCitation(full.citations, refs, urls[i]) == Some(selected[i]);
      SelectedIsCitation(full, refs, urls[i]);
      CitationUrl(full, refs, urls[i], c);
    }
    forall r | r in refs ensures exists c :: c in citations && c.requestedUrl == r.citationUrl {
      AssignedUrlListed(refs, r.citationUrl);
      var i :| 0 <= i < |urls| && urls[i] == r.citationUrl;
      assert SelectCitation(full.citations, refs, urls[i]) == Some(selected[i]);
      SelectedIsCitation(full, refs, urls[i]);
      CitationUrl(full, refs, urls[i], SurfaceRow(selected[i]));
      assert SurfaceRow(selected[i]) in citations;
    }
  }

  lemma CitationUrl(full: FullManifest, refs: seq<RuleReference>, url: string, row: ShardCitation)
    requires CitationOf(full, refs, url, row)
    ensures row.requestedUrl == url
  {
    hide ChunksOf, Ascends, ArtifactBefore;
  }
}
