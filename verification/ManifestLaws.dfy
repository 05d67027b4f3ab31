/** The independent check of a shard manifest against the full cache, condition by condition. */
module ManifestLaws {
  import opened Sequences
  import opened Sorting
  import opened CacheModel
  import opened FullCache
  import opened Surface
  import opened Projection
  import opened ViewLaws
  import opened AllocationLaws
  import opened ProjectionLaws

  predicate Follows(chunks: seq<ChunkRow>, i: nat, prefix: string)
    requires i < |chunks|
  {
    && chunks[i].index == i && chunks[i].byteStart == (if i == 0 then 0 else chunks[i - 1].byteEnd)
    && 0 <= chunks[i].byteStart && 0 <= chunks[i].byteEnd && chunks[i].byteEnd - chunks[i].byteStart == chunks[i].size
    && 0 <= chunks[i].size && 0 <= chunks[i].originalSize
    && Digest(chunks[i].sha256) && Digest(chunks[i].originalSha256)
    && CanonicalRelative(chunks[i].path) && StartsWith(chunks[i].path, prefix)
  }

  /** Chunk rows under the prefix that follow on each other, from the first byte to the last of the original. */
  predicate Consecutive(chunks: seq<ChunkRow>, prefix: string) {
    && (forall i :: 0 <= i < |chunks| ==> Follows(chunks, i, prefix))
    && (chunks != [] ==> chunks[|chunks| - 1].byteEnd == chunks[|chunks| - 1].originalSize)
  }

  lemma FollowsExactly(chunks: seq<ChunkRow>, i: nat, prefix: string)
    requires i < |chunks|
    ensures ChunkRowOk(chunks, i, prefix) <==> Follows(chunks, i, prefix)
  {
    HexExactly(chunks[i].sha256);
    HexExactly(chunks[i].originalSha256);
    hide IsSha256, Digest, CanonicalRelative, StartsWith;
  }

  lemma HexExactly(s: string)
    ensures IsSha256(s) <==> Digest(s)
  {
    assert forall i :: 0 <= i < |s| ==> (HexDigit(s[i]) <==> '0' <= s[i] <= '9' || 'a' <= s[i] <= 'f');
  }

  lemma ConsecutiveExactly(chunks: seq<ChunkRow>, prefix: string)
    ensures ChunkRowsOk(chunks, prefix) <==> Consecutive(chunks, prefix)
  {
    hide ChunkRowOk, Follows;
    forall i | 0 <= i < |chunks| ensures ChunkRowOk(chunks, i, prefix) <==> Follows(chunks, i, prefix) { FollowsExactly(chunks, i, prefix); }
  }

  /** The row repeats an inspected file of the cache, with its chunks. */
  predicate FileRepeats(full: FullManifest, path: string, row: ShardFile) {
    exists f :: f in full.files && f.path == path && f.inspectionRequired && f.chunks != [] && Consecutive(f.chunks, "chunks/source/")
                && row == ShardFile(f.path, f.hashKind, f.sha256, Identity(f.cache.sha256, f.cache.size), true, f.chunks)
  }

  /** The public fields of a citation, with artifacts and chunks as the cache has them. */
  predicate PublicFields(f: FullCitation, row: ShardCitation) {
    && row.requestedUrl == f.requestedUrl && row.evidenceUrl == f.evidenceUrl && row.resolverId == f.resolverId
    && row.inspectionRequired == f.inspectionRequired && row.identityVerified == f.identityVerified && row.available == f.available
    && row.facts == f.facts && row.body == WithoutPath(f.body) && row.inspection == WithoutPath(f.inspection)
    && row.parser == f.parser && row.errorCode == f.errorCode
    && row.chunks == f.chunks && row.artifacts == MapEach(PublicArtifact, f.artifacts)
  }

  predicate AssignedTo(refs: seq<RuleReference>, url: string, id: string) {
    exists r :: r in refs && r.citationUrl == url && r.referenceId == id
  }

  /** The row repeats an available, inspected citation of the cache, with exactly the assigned references, all its own. */
  predicate CitationRepeats(full: FullManifest, refs: seq<RuleReference>, row: ShardCitation) {
    && (exists f :: f in full.citations && PublicFields(f, row) && f.available && f.inspectionRequired && f.chunks != []
                    && Consecutive(f.chunks, "chunks/citation/") && forall id :: id in row.referenceIds ==> id in f.referenceIds)
    && Ascends(row.referenceIds)
    && (forall id :: id in row.referenceIds ==> AssignedTo(refs, row.requestedUrl, id))
    && forall r :: r in refs && r.citationUrl == row.requestedUrl ==> r.referenceId in row.referenceIds
  }

  /** One row for each path, in order. */
  predicate FilesRepeat(full: FullManifest, m: ShardManifest) {
    |m.files| == |m.sourcePaths| && forall i :: 0 <= i < |m.files| ==> FileRepeats(full, m.sourcePaths[i], m.files[i])
  }

  /** One row for each cited URL, in order. */
  predicate CitationsRepeat(full: FullManifest, m: ShardManifest) {
    && UrlsAscend(m.citations)
    && (forall c :: c in m.citations ==> CitationRepeats(full, m.ruleReferences, c) && exists r :: r in m.ruleReferences && r.citationUrl == c.requestedUrl)
    && forall r :: r in m.ruleReferences ==> exists c :: c in m.citations && c.requestedUrl == r.citationUrl
  }

  predicate Inventory(s: seq<string>) { Ascends(s) && forall x :: x in s ==> x != "" }

  predicate ReferencesListed(refs: seq<RuleReference>) {
    && (forall r :: r in refs ==> Digest(r.referenceId) && Digest(r.surfaceSha256))
    && forall i, j :: 0 <= i < j < |refs| ==> StringLt(refs[i].referenceId, refs[j].referenceId)
  }

  /** No chunk file is assigned twice, be it to one file or citation or to two. */
  predicate AssignedOnce(m: ShardManifest) {
    && (forall i :: 0 <= i < |m.files| ==> DistinctPaths(m.files[i].chunks))
    && (forall i :: 0 <= i < |m.citations| ==> DistinctPaths(m.citations[i].chunks))
    && (forall i, j :: 0 <= i < j < |m.files| ==> Apart(m.files[i].chunks, m.files[j].chunks))
    && (forall i, j :: 0 <= i < j < |m.citations| ==> Apart(m.citations[i].chunks, m.citations[j].chunks))
    && forall i, j :: 0 <= i < |m.files| && 0 <= j < |m.citations| ==> Apart(m.files[i].chunks, m.citations[j].chunks)
  }

  /** The manifest is bound to the cache and the contracts, and its rows repeat the cache. */
  predicate Faithful(full: FullManifest, m: ShardManifest, budget: string, digest: seq<ShardCitation> -> string) {
    && m.protocolId == full.protocolId && m.snapshotSha256 == full.snapshotSha256
    && m.chunkContract == full.chunkContract && m.budgetContract == budget
    && Digest(m.planSha256) && Digest(m.citationSurfaceSha256) && Digest(m.fullSurfaceSha256)
    && Inventory(m.sourcePaths) && Inventory(m.assertionIds) && ReferencesListed(m.ruleReferences)
    && FilesRepeat(full, m) && CitationsRepeat(full, m) && AssignedOnce(m)
    && SurfaceDigest(MapEach(Strip, full.citations), digest) == Some(m.fullSurfaceSha256)
    && SurfaceDigest(m.citations, digest) == Some(m.citationSurfaceSha256)
  }

  // ---- Each condition ----

  lemma InventoryExactly(s: seq<string>)
    ensures SortedInventory(s) <==> Inventory(s)
  {
    hide StringLt;
    if Inventory(s) { forall i | 0 <= i < |s| ensures s[i] != "" { assert s[i] in s; } }
  }

  lemma {:induction false} ChainAscends(refs: seq<RuleReference>, i: nat, j: nat)
    requires ReferencesAscend(refs) && i < j < |refs|
    ensures StringLt(refs[i].referenceId, refs[j].referenceId)
  {
    if i + 1 < j {
      ChainAscends(refs, i, j - 1);
      StringLtTransitive(refs[i].referenceId, refs[j - 1].referenceId, refs[j].referenceId);
    }
  }

  lemma ReferencesExactly(refs: seq<RuleReference>)
    ensures ReferencesAscend(refs) <==> ReferencesListed(refs)
  {
    if ReferencesAscend(refs) {
      forall i, j | 0 <= i < j < |refs| ensures StringLt(refs[i].referenceId, refs[j].referenceId) { ChainAscends(refs, i, j); }
    }
  }

  lemma FileRepeatsExactly(full: FullManifest, row: ShardFile)
    requires forall i, j :: 0 <= i < j < |full.files| ==> full.files[i].path != full.files[j].path
    ensures FileMatches(full, row) <==> FileRepeats(full, row.path, row)
  {
    hide ChunkRowsOk, Consecutive;
    ConsecutiveExactly(row.chunks, "chunks/source/");
    if FileRepeats(full, row.path, row) {
      var f :| f in full.files && f.path == row.path && f.inspectionRequired && f.chunks != [] && Consecutive(f.chunks, "chunks/source/")
               && row == ShardFile(f.path, f.hashKind, f.sha256, Identity(f.cache.sha256, f.cache.size), true, f.chunks);
      FoundFile(full.files, f);
    }
  }

  lemma FilesExactly(full: FullManifest, m: ShardManifest)
    requires forall i, j :: 0 <= i < j < |full.files| ==> full.files[i].path != full.files[j].path
    ensures MapEach((f: ShardFile) => f.path, m.files) == m.sourcePaths && (forall i :: 0 <= i < |m.files| ==> FileMatches(full, m.files[i]))
       <==> FilesRepeat(full, m)
  {
    hide FileMatches, FileRepeats;
    var paths := MapEach((f: ShardFile) => f.path, m.files);
    forall i | 0 <= i < |m.files| ensures FileMatches(full, m.files[i]) <==> FileRepeats(full, m.files[i].path, m.files[i]) {
      FileRepeatsExactly(full, m.files[i]);
    }
    assert forall i :: 0 <= i < |m.files| ==> paths[i] == m.files[i].path;
    if FilesRepeat(full, m) {
      forall i | 0 <= i < |m.files| ensures m.files[i].path == m.sourcePaths[i] { RepeatedPath(full, m.sourcePaths[i], m.files[i]); }
      assert paths == m.sourcePaths;
    }
  }

  lemma RepeatedPath(full: FullManifest, path: string, row: ShardFile)
    requires FileRepeats(full, path, row)
    ensures row.path == path
  {
    hide Consecutive;
  }

  lemma PublicExactly(f: FullCitation, row: ShardCitation, ids: seq<string>)
    ensures row == Strip(f).(referenceIds := ids) <==> PublicFields(f, row) && row.referenceIds == ids
  {
    ArtifactsAre(f);
  }

  lemma FoundCitation(cs: seq<FullCitation>, f: FullCitation)
    requires (forall i, j :: 0 <= i < j < |cs| ==> cs[i].requestedUrl != cs[j].requestedUrl) && f in cs
    ensures FindCitation(cs, f.requestedUrl) == Some(f)
  {
    var g := FindCitation(cs, f.requestedUrl).value;
    var i :| 0 <= i < |cs| && cs[i] == f;
    var j :| 0 <= j < |cs| && cs[j] == g;
  }

  lemma IdsExactly(refs: seq<RuleReference>, row: ShardCitation)
    requires forall i, j :: 0 <= i < j < |refs| ==> refs[i].referenceId != refs[j].referenceId
    ensures row.referenceIds == SortStrings(AssignedIds(refs, row.requestedUrl)) <==>
      && Ascends(row.referenceIds)
      && (forall id :: id in row.referenceIds ==> AssignedTo(refs, row.requestedUrl, id))
      && forall r :: r in refs && r.citationUrl == row.requestedUrl ==> r.referenceId in row.referenceIds
  {
    hide Ascends, SortStrings, AssignedIds;
    var ids := AssignedIds(refs, row.requestedUrl);
    AssignedDistinct(refs, row.requestedUrl);
    SortedDistinct(ids);
    SortedIds(ids);
    forall id ensures id in ids <==> AssignedTo(refs, row.requestedUrl, id) { CitesMember(refs, row.requestedUrl, id); }
    if Ascends(row.referenceIds) { SortedIsExactly(ids, row.referenceIds); }
  }

  lemma SortedIds(ids: seq<string>)
    ensures forall id :: id in SortStrings(ids) <==> id in ids
  {
    SortKeepsMembers(ids, ByKey(Self));
  }

  lemma CitationRepeatsExactly(full: FullManifest, refs: seq<RuleReference>, row: ShardCitation)
    requires forall i, j :: 0 <= i < j < |full.citations| ==> full.citations[i].requestedUrl != full.citations[j].requestedUrl
    requires forall i, j :: 0 <= i < j < |refs| ==> refs[i].referenceId != refs[j].referenceId
    ensures CitationMatches(full, refs, row) <==> CitationRepeats(full, refs, row)
  {
    hide ChunkRowsOk, Consecutive, SortStrings, AssignedIds, Strip, PublicFields, Ascends, AssignedTo;
    var ids := SortStrings(AssignedIds(refs, row.requestedUrl));
    ConsecutiveExactly(row.chunks, "chunks/citation/");
    IdsExactly(refs, row);
    if CitationMatches(full, refs, row) {
      var f := FindCitation(full.citations, row.requestedUrl).value;
      PublicExactly(f, row, ids);
      PublicAgrees(f, row);
    }
    if CitationRepeats(full, refs, row) {
      var f :| f in full.citations && PublicFields(f, row) && f.available && f.inspectionRequired && f.chunks != []
               && Consecutive(f.chunks, "chunks/citation/") && forall id :: id in row.referenceIds ==> id in f.referenceIds;
      PublicExactly(f, row, ids);
      PublicAgrees(f, row);
      FoundCitation(full.citations, f);
    }
  }

  lemma PublicAgrees(f: FullCitation, row: ShardCitation)
    requires PublicFields(f, row)
    ensures row.requestedUrl == f.requestedUrl && row.available == f.available && row.inspectionRequired == f.inspectionRequired && row.chunks == f.chunks
  {
  }

  lemma CitationsExactly(full: FullManifest, m: ShardManifest)
    requires FullTablesOk(full) && ReferencesListed(m.ruleReferences)
    ensures MapEach(Url, m.citations) == AssignedUrls(m.ruleReferences)
            && (forall i :: 0 <= i < |m.citations| ==> CitationMatches(full, m.ruleReferences, m.citations[i]))
       <==> CitationsRepeat(full, m)
  {
    hide CitationMatches, CitationRepeats, AssignedUrls, MapEach, UrlsAscend;
    EachRepeats(full, m);
    UrlsExactly(m.ruleReferences, m.citations);
  }

  lemma EachRepeats(full: FullManifest, m: ShardManifest)
    requires FullTablesOk(full) && ReferencesListed(m.ruleReferences)
    ensures (forall i :: 0 <= i < |m.citations| ==> CitationMatches(full, m.ruleReferences, m.citations[i])) <==>
            forall c :: c in m.citations ==> CitationRepeats(full, m.ruleReferences, c)
  {
    hide CitationMatches, CitationRepeats;
    var refs := m.ruleReferences;
    forall i, j | 0 <= i < j < |refs| ensures refs[i].referenceId != refs[j].referenceId { assert StringLt(refs[i].referenceId, refs[j].referenceId); }
    forall c ensures CitationMatches(full, refs, c) <==> CitationRepeats(full, refs, c) { CitationRepeatsExactly(full, refs, c); }
    if forall c :: c in m.citations ==> CitationRepeats(full, refs, c) {
      forall i | 0 <= i < |m.citations| ensures CitationMatches(full, refs, m.citations[i]) { assert m.citations[i] in m.citations; }
    }
  }

  lemma UrlsExactly(refs: seq<RuleReference>, citations: seq<ShardCitation>)
    ensures MapEach(Url, citations) == AssignedUrls(refs) <==>
      && UrlsAscend(citations)
      && (forall c :: c in citations ==> exists r :: r in refs && r.citationUrl == c.requestedUrl)
      && forall r :: r in refs ==> exists c :: c in citations && c.requestedUrl == r.citationUrl
  {
    hide Sort;
    var urls, cited := MapEach(Url, citations), MapEach(ReferenceUrl, refs);
    assert forall i :: 0 <= i < |urls| ==> urls[i] == citations[i].requestedUrl;
    assert forall i :: 0 <= i < |cited| ==> cited[i] == refs[i].citationUrl;
    SortedSetAscends(cited);
    UrlMembers(refs, citations);
    if UrlsAscend(citations) {
      assert Ascends(urls);
      SortedIsExactly(Distinct(cited), urls);
    }
  }

  lemma UrlMembers(refs: seq<RuleReference>, citations: seq<ShardCitation>)
    ensures NoDuplicates(Distinct(MapEach(ReferenceUrl, refs)))
    ensures (forall url :: url in MapEach(Url, citations) <==> url in Distinct(MapEach(ReferenceUrl, refs))) <==>
      && (forall c :: c in citations ==> exists r :: r in refs && r.citationUrl == c.requestedUrl)
      && forall r :: r in refs ==> exists c :: c in citations && c.requestedUrl == r.citationUrl
  {
    var urls, cited := MapEach(Url, citations), MapEach(ReferenceUrl, refs);
    forall url ensures url in urls <==> exists c :: c in citations && c.requestedUrl == url {
      if c :| c in citations && c.requestedUrl == url { var i :| 0 <= i < |citations| && citations[i] == c; assert urls[i] == url; }
      if url in urls { var i :| 0 <= i < |urls| && urls[i] == url; assert citations[i] in citations; }
    }
    forall url ensures url in cited <==> exists r :: r in refs && r.citationUrl == url {
      if r :| r in refs && r.citationUrl == url { var i :| 0 <= i < |refs| && refs[i] == r; assert cited[i] == url; }
      if url in cited { var i :| 0 <= i < |cited| && cited[i] == url; assert refs[i] in refs; }
    }
    assert forall url :: url in Distinct(cited) <==> url in cited;
    if forall url :: url in urls <==> url in Distinct(cited) {
      forall c | c in citations ensures exists r :: r in refs && r.citationUrl == c.requestedUrl { assert c.requestedUrl in urls; }
      forall r | r in refs ensures exists c :: c in citations && c.requestedUrl == r.citationUrl { assert r.citationUrl in cited; }
    }
  }

  // ---- Chunk paths ----

  predicate EachApart<T>(f: T -> seq<ChunkRow>, s: seq<T>) {
    && (forall i :: 0 <= i < |s| ==> DistinctPaths(f(s[i])))
    && forall i, j :: 0 <= i < j < |s| ==> Apart(f(s[i]), f(s[j]))
  }

  lemma {:induction false} FlatApart<T>(f: T -> seq<ChunkRow>, s: seq<T>)
    ensures DistinctPaths(FlatMap(f, s)) <==> EachApart(f, s)
  {
    if s != [] {
      hide DistinctPaths, Apart;
      FlatApart(f, s[1..]);
      TwoParts(f(s[0]), FlatMap(f, s[1..]));
      ApartAll(f, f(s[0]), s[1..]);
      var rest := s[1..];
      assert forall i :: 0 <= i < |rest| ==> rest[i] == s[i + 1];
      if EachApart(f, rest) && DistinctPaths(f(s[0])) && forall j :: 0 <= j < |rest| ==> Apart(f(s[0]), f(rest[j])) {
        forall i | 0 <= i < |s| ensures DistinctPaths(f(s[i])) { if i > 0 { assert s[i] == rest[i - 1]; } }
        forall i, j | 0 <= i < j < |s| ensures Apart(f(s[i]), f(s[j])) {
          assert s[j] == rest[j - 1];
          if i > 0 { assert s[i] == rest[i - 1]; }
        }
      }
    }
  }

  lemma TwoParts(a: seq<ChunkRow>, b: seq<ChunkRow>)
    ensures DistinctPaths(a + b) <==> DistinctPaths(a) && DistinctPaths(b) && Apart(a, b)
  {
    var all := a + b;
    if DistinctPaths(all) {
      forall i, j | 0 <= i < j < |a| ensures a[i].path != a[j].path { assert all[i] == a[i] && all[j] == a[j]; }
      forall i, j | 0 <= i < j < |b| ensures b[i].path != b[j].path { assert all[|a| + i] == b[i] && all[|a| + j] == b[j]; }
      forall i, j | 0 <= i < |a| && 0 <= j < |b| ensures a[i].path != b[j].path { assert all[i] == a[i] && all[|a| + j] == b[j]; }
    }
  }

  /** Rows that stand apart from each of the parts stand apart from all of them. */
  lemma {:induction false} ApartAll<T>(f: T -> seq<ChunkRow>, a: seq<ChunkRow>, s: seq<T>)
    ensures Apart(a, FlatMap(f, s)) <==> forall j :: 0 <= j < |s| ==> Apart(a, f(s[j]))
  {
    if s != [] {
      ApartAll(f, a, s[1..]);
      ApartPlus(a, f(s[0]), FlatMap(f, s[1..]));
      hide Apart;
      assert forall j :: 0 <= j < |s[1..]| ==> s[1..][j] == s[j + 1];
      if forall j :: 0 <= j < |s[1..]| ==> Apart(a, f(s[1..][j])) {
        forall j | 0 < j < |s| ensures Apart(a, f(s[j])) { assert s[1..][j - 1] == s[j]; }
      }
    }
  }

  lemma ApartPlus(a: seq<ChunkRow>, b: seq<ChunkRow>, c: seq<ChunkRow>)
    ensures Apart(a, b + c) <==> Apart(a, b) && Apart(a, c)
  {
    var all := b + c;
    if Apart(a, all) {
      forall i, j | 0 <= i < |a| && 0 <= j < |b| ensures a[i].path != b[j].path { assert all[j] == b[j]; }
      forall i, j | 0 <= i < |a| && 0 <= j < |c| ensures a[i].path != c[j].path { assert all[|b| + j] == c[j]; }
    }
  }

  lemma ApartTurns(a: seq<ChunkRow>, b: seq<ChunkRow>)
    ensures Apart(a, b) <==> Apart(b, a)
  {
  }

  lemma AssignedOnceExactly(m: ShardManifest)
    ensures DistinctPaths(AssignedChunks(m)) <==> AssignedOnce(m)
  {
    hide DistinctPaths, Apart;
    var a, b := FlatMap(FileChunks, m.files), FlatMap(CitationChunks, m.citations);
    FlatApart(FileChunks, m.files);
    FlatApart(CitationChunks, m.citations);
    TwoParts(a, b);
    PartsApart(m);
    assert EachApart(FileChunks, m.files) <==>
      (forall i :: 0 <= i < |m.files| ==> DistinctPaths(m.files[i].chunks))
      && forall i, j :: 0 <= i < j < |m.files| ==> Apart(m.files[i].chunks, m.files[j].chunks);
    assert EachApart(CitationChunks, m.citations) <==>
      (forall i :: 0 <= i < |m.citations| ==> DistinctPaths(m.citations[i].chunks))
      && forall i, j :: 0 <= i < j < |m.citations| ==> Apart(m.citations[i].chunks, m.citations[j].chunks);
  }

  lemma PartsApart(m: ShardManifest)
    ensures Apart(FlatMap(FileChunks, m.files), FlatMap(CitationChunks, m.citations)) <==>
              forall i, j :: 0 <= i < |m.files| && 0 <= j < |m.citations| ==> Apart(m.files[i].chunks, m.citations[j].chunks)
  {
    hide Apart;
    var a, b := FlatMap(FileChunks, m.files), FlatMap(CitationChunks, m.citations);
    ApartAll(CitationChunks, a, m.citations);
    forall j | 0 <= j < |m.citations|
      ensures Apart(a, m.citations[j].chunks) <==> forall i :: 0 <= i < |m.files| ==> Apart(m.files[i].chunks, m.citations[j].chunks)
    {
      var c := m.citations[j].chunks;
      ApartTurns(a, c);
      ApartAll(FileChunks, c, m.files);
      forall i | 0 <= i < |m.files| ensures Apart(m.files[i].chunks, c) <==> Apart(c, FileChunks(m.files[i])) { ApartTurns(m.files[i].chunks, c); }
    }
  }

  // ---- The surface ----

  lemma RowSurface(c: FullCitation)
    ensures SurfaceRow(WithSortedIds(c)) == SurfaceRow(Strip(c)) && (SurfaceRowOk(WithSortedIds(c)) <==> SurfaceRowOk(Strip(c)))
    ensures WithSortedIds(c).requestedUrl == Strip(c).requestedUrl
  {
    hide Sort, DistinctChunkPaths, ArtifactLe, ChunkLe;
    SortedTwice(c.referenceIds);
    SortKeepsMembers(c.referenceIds, ByKey(Self));
    SortPermutes(c.referenceIds, ByKey(Self));
    if NoDuplicates(c.referenceIds) { DuplicatesRearranged(c.referenceIds, SortStrings(c.referenceIds)); }
    if NoDuplicates(SortStrings(c.referenceIds)) { DuplicatesRearranged(SortStrings(c.referenceIds), c.referenceIds); }
  }

  lemma DuplicatesRearranged(a: seq<string>, b: seq<string>)
    requires multiset(a) == multiset(b) && NoDuplicates(a)
    ensures NoDuplicates(b)
  {
    DistinctRearranged(a, b, Self);
  }

  /** The digest over the whole cache is the same in whatever order rows and references are taken. */
  lemma WholeDigest(full: FullManifest, digest: seq<ShardCitation> -> string)
    ensures SurfaceDigest(MapEach(WithSortedIds, SortedByUrl(full.citations)), digest) == SurfaceDigest(MapEach(Strip, full.citations), digest)
  {
    hide SurfaceRow, SurfaceRowOk, Strip, WithSortedIds, Sort;
    var byUrl := ByKey((c: FullCitation) => c.requestedUrl);
    var s := SortedByUrl(full.citations);
    SortPermutes(full.citations, byUrl);
    SameSurface(s);
    MapEachPermutes(Strip, s, full.citations);
    SurfaceIgnoresOrder(MapEach(Strip, s), MapEach(Strip, full.citations));
  }

  lemma SameSurface(s: seq<FullCitation>)
    ensures SurfaceRows(MapEach(WithSortedIds, s)) == SurfaceRows(MapEach(Strip, s))
  {
    hide SurfaceRow, SurfaceRowOk, Strip, WithSortedIds, Sort;
    var a, b := MapEach(WithSortedIds, s), MapEach(Strip, s);
    forall i | 0 <= i < |s|
      ensures SurfaceRow(a[i]) == SurfaceRow(b[i]) && (SurfaceRowOk(a[i]) <==> SurfaceRowOk(b[i])) && a[i].requestedUrl == b[i].requestedUrl
    {
      RowSurface(s[i]);
    }
    assert MapEach(SurfaceRow, a) == MapEach(SurfaceRow, b);
  }

  /** A manifest passes the independent check exactly when it is faithful to the cache. */
  lemma ValidatesExactly(full: FullManifest, m: ShardManifest, budget: string, digest: seq<ShardCitation> -> string)
    requires FullTablesOk(full)
    ensures ShardManifestOk(full, m, budget, digest) <==> Faithful(full, m, budget, digest)
  {
    hide FileMatches, CitationMatches, DistinctPaths, AssignedChunks, SurfaceDigest, FilesRepeat, CitationsRepeat, AssignedOnce, AssignedUrls,
      SortedInventory, Inventory, ReferencesAscend, ReferencesListed, FullTablesOk, MapEach;
    InventoryExactly(m.sourcePaths);
    InventoryExactly(m.assertionIds);
    ReferencesExactly(m.ruleReferences);
    FilesOfTables(full, m);
    if ReferencesListed(m.ruleReferences) { CitationsExactly(full, m); }
    AssignedOnceExactly(m);
    WholeDigest(full, digest);
  }

  lemma FilesOfTables(full: FullManifest, m: ShardManifest)
    requires FullTablesOk(full)
    ensures MapEach((f: ShardFile) => f.path, m.files) == m.sourcePaths && (forall i :: 0 <= i < |m.files| ==> FileMatches(full, m.files[i]))
       <==> FilesRepeat(full, m)
  {
    hide FileMatches, FilesRepeat;
    FilesExactly(full, m);
  }
}
