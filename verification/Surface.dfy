/** The body-free citation evidence surface (`_citation_surface_rows`) and its digest. */
module Surface {
  import opened Sequences
  import opened Sorting
  import opened CacheModel

  function IdentityOf(d: Declared): Identity { Identity(d.sha256, d.size) }

  function OptionalIdentity(d: Option<Declared>): Option<Identity> {
    if d.Some? then Some(IdentityOf(d.value)) else None
  }

  function StripArtifact(a: FullArtifact): ShardArtifact {
    ShardArtifact(a.kind, a.requestedUrl, a.facts, IdentityOf(a.body))
  }

  /** A full citation row without its private paths. */
  function Strip(c: FullCitation): ShardCitation {
    ShardCitation(
      c.requestedUrl, c.evidenceUrl, c.resolverId, c.referenceIds, c.inspectionRequired, c.identityVerified,
      c.available, c.facts, OptionalIdentity(c.body), OptionalIdentity(c.inspection), c.parser,
      MapEach(StripArtifact, c.artifacts), c.chunks, c.errorCode)
  }

  predicate StringLt(a: string, b: string) { a != b && StringLe(a, b) }

  /** Sort key `(kind, requested_url, body_sha256)`. */
  predicate ArtifactLe(a: ShardArtifact, b: ShardArtifact) {
    || StringLt(a.kind, b.kind)
    || (a.kind == b.kind
        && (|| StringLt(a.requestedUrl, b.requestedUrl)
            || (a.requestedUrl == b.requestedUrl && StringLe(a.body.sha256, b.body.sha256))))
  }

  /** Sort key `(index, path)`. */
  predicate ChunkLe(a: ChunkRow, b: ChunkRow) {
    a.index < b.index || (a.index == b.index && StringLe(a.path, b.path))
  }

  function Url(c: ShardCitation): string { c.requestedUrl }

  function Self(s: string): string { s }

  function SortStrings(s: seq<string>): seq<string> { Sort(s, ByKey(Self)) }

  function SurfaceRow(c: ShardCitation): ShardCitation {
    c.(referenceIds := SortStrings(c.referenceIds),
       artifacts := Sort(c.artifacts, ArtifactLe),
       chunks := Sort(c.chunks, ChunkLe))
  }

  predicate DistinctChunkPaths(chunks: seq<ChunkRow>) {
    && (forall i :: 0 <= i < |chunks| ==> chunks[i].path != "")
    && forall i, j :: 0 <= i < j < |chunks| ==> chunks[i].path != chunks[j].path
  }

  predicate SurfaceRowOk(c: ShardCitation) {
    && c.requestedUrl != ""
    && c.referenceIds != [] && NoDuplicates(c.referenceIds)
    && (forall id :: id in c.referenceIds ==> IsSha256(id))
    && DistinctChunkPaths(c.chunks)
  }

  predicate DistinctUrls(cs: seq<ShardCitation>) {
    forall i, j :: 0 <= i < j < |cs| ==> cs[i].requestedUrl != cs[j].requestedUrl
  }

  predicate SurfaceOk(cs: seq<ShardCitation>) {
    (forall i :: 0 <= i < |cs| ==> SurfaceRowOk(cs[i])) && DistinctUrls(cs)
  }

  function SurfaceRows(cs: seq<ShardCitation>): Option<seq<ShardCitation>> {
    if SurfaceOk(cs) then Some(Sort(MapEach(SurfaceRow, cs), ByKey(Url))) else None
  }

  /** `citation_evidence_surface_sha256`: a digest of the normalised rows. */
  function SurfaceDigest(cs: seq<ShardCitation>, digest: seq<ShardCitation> -> string): Option<string> {
    match SurfaceRows(cs)
    case Some(rows) => Some(digest(rows))
    case None => None
  }

  lemma ArtifactOrder()
    ensures TotalPreorder(ArtifactLe)
  {
    forall x, y ensures ArtifactLe(x, y) || ArtifactLe(y, x) {
      StringLeTotal(x.kind, y.kind);
      StringLeTotal(x.requestedUrl, y.requestedUrl);
      StringLeTotal(x.body.sha256, y.body.sha256);
    }
    forall x, y, z | ArtifactLe(x, y) && ArtifactLe(y, z) ensures ArtifactLe(x, z) { ArtifactTransitive(x, y, z); }
  }

  lemma ArtifactTransitive(x: ShardArtifact, y: ShardArtifact, z: ShardArtifact)
    requires ArtifactLe(x, y) && ArtifactLe(y, z)
    ensures ArtifactLe(x, z)
  {
    if x.kind == y.kind == z.kind {
      if x.requestedUrl == y.requestedUrl == z.requestedUrl {
        StringLeTransitive(x.body.sha256, y.body.sha256, z.body.sha256);
      } else {
        StringLtTransitive(x.requestedUrl, y.requestedUrl, z.requestedUrl);
      }
    } else {
      StringLtTransitive(x.kind, y.kind, z.kind);
    }
  }

  lemma StringLtTransitive(x: string, y: string, z: string)
    requires x == y || StringLt(x, y)
    requires y == z || StringLt(y, z)
    ensures x == y == z || StringLt(x, z)
  {
    if x != y && y != z {
      StringLeTransitive(x, y, z);
      if x == z { StringLeAntisymmetric(x, y); }
    }
  }

  lemma ChunkOrder()
    ensures TotalPreorder(ChunkLe)
  {
    forall x, y ensures ChunkLe(x, y) || ChunkLe(y, x) { StringLeTotal(x.path, y.path); }
    forall x, y, z | ChunkLe(x, y) && ChunkLe(y, z) ensures ChunkLe(x, z) {
      if x.index == y.index == z.index { StringLeTransitive(x.path, y.path, z.path); }
    }
  }

  lemma SortKeepsMembers<T>(s: seq<T>, le: (T, T) -> bool)
    ensures forall x :: x in Sort(s, le) <==> x in s
  {
    SortPermutes(s, le);
    forall x ensures x in Sort(s, le) <==> x in s {
      InMultiset(s, x);
      InMultiset(Sort(s, le), x);
    }
  }

  /** A key that separates the members of a sequence separates those of any rearrangement. */
  lemma DistinctRearranged<T, K>(a: seq<T>, b: seq<T>, key: T -> K)
    requires multiset(a) == multiset(b)
    requires forall i, j :: 0 <= i < j < |a| ==> key(a[i]) != key(a[j])
    ensures forall i, j :: 0 <= i < j < |b| ==> key(b[i]) != key(b[j])
  {
    forall i, j | 0 <= i < j < |b| ensures key(b[i]) != key(b[j]) {
      if key(b[i]) == key(b[j]) {
        InMultiset(b, b[i]);
        InMultiset(a, b[i]);
        InMultiset(b, b[j]);
        InMultiset(a, b[j]);
        var k :| 0 <= k < |a| && a[k] == b[i];
        var l :| 0 <= l < |a| && a[l] == b[j];
        assert k == l;
        TwiceInMultiset(b, i, j);
        OnceInMultiset(a, k);
      }
    }
  }

  lemma TwiceInMultiset<T>(s: seq<T>, i: nat, j: nat)
    requires i < j < |s| && s[i] == s[j]
    ensures multiset(s)[s[i]] >= 2
  {
    assert s == s[..i] + [s[i]] + s[i + 1..j] + [s[j]] + s[j + 1..];
  }

  lemma OnceInMultiset<T>(s: seq<T>, k: nat)
    requires k < |s| && forall i :: 0 <= i < |s| && i != k ==> s[i] != s[k]
    ensures multiset(s)[s[k]] == 1
  {
    assert s == s[..k] + [s[k]] + s[k + 1..];
    assert s[k] !in s[..k] && s[k] !in s[k + 1..];
  }

  lemma NoDuplicatesSorted(s: seq<string>)
    requires NoDuplicates(s)
    ensures NoDuplicates(SortStrings(s)) && |SortStrings(s)| == |s|
  {
    SortPermutes(s, ByKey(Self));
    DistinctRearranged(s, SortStrings(s), Self);
    var r := SortStrings(s);
    forall i, j | 0 <= i < j < |r| ensures r[i] != r[j] { assert Self(r[i]) != Self(r[j]); }
  }

  lemma DistinctPathsSorted(chunks: seq<ChunkRow>)
    requires DistinctChunkPaths(chunks)
    ensures DistinctChunkPaths(Sort(chunks, ChunkLe))
  {
    var r := Sort(chunks, ChunkLe);
    SortPermutes(chunks, ChunkLe);
    SortKeepsMembers(chunks, ChunkLe);
    var path := (c: ChunkRow) => c.path;
    forall i, j | 0 <= i < j < |chunks| ensures path(chunks[i]) != path(chunks[j]) {}
    DistinctRearranged(chunks, r, path);
    forall i | 0 <= i < |r| ensures r[i].path != "" { assert r[i] in chunks; }
    forall i, j | 0 <= i < j < |r| ensures r[i].path != r[j].path { assert path(r[i]) != path(r[j]); }
  }

  /** Normalising a row twice is normalising it once, and keeps it acceptable. */
  lemma SurfaceRowNormal(c: ShardCitation)
    ensures SurfaceRow(SurfaceRow(c)) == SurfaceRow(c)
    ensures SurfaceRowOk(c) ==> SurfaceRowOk(SurfaceRow(c))
  {
    ByKeyIsPreorder(Self);
    ArtifactOrder();
    ChunkOrder();
    SortSorts(c.referenceIds, ByKey(Self));
    SortSorts(c.artifacts, ArtifactLe);
    SortSorts(c.chunks, ChunkLe);
    var r := SurfaceRow(c);
    SortFixesSorted(r.referenceIds, ByKey(Self));
    SortFixesSorted(r.artifacts, ArtifactLe);
    SortFixesSorted(r.chunks, ChunkLe);
    if SurfaceRowOk(c) {
      NoDuplicatesSorted(c.referenceIds);
      DistinctPathsSorted(c.chunks);
      SortKeepsMembers(c.referenceIds, ByKey(Self));
    }
  }

  lemma SurfaceMember(cs: seq<ShardCitation>, r: ShardCitation)
    requires SurfaceOk(cs) && r in MapEach(SurfaceRow, cs)
    ensures SurfaceRowOk(r) && SurfaceRow(r) == r
  {
    hide SurfaceRowOk, SurfaceRow;
    var each := MapEach(SurfaceRow, cs);
    var i :| 0 <= i < |each| && each[i] == r;
    SurfaceRowNormal(cs[i]);
  }

  lemma SurfaceMembers(cs: seq<ShardCitation>, rows: seq<ShardCitation>)
    requires SurfaceRows(cs) == Some(rows)
    ensures forall r :: r in rows ==> SurfaceRowOk(r) && SurfaceRow(r) == r
    ensures DistinctUrls(rows) && Sorted(rows, ByKey(Url))
  {
    hide SurfaceRowOk, SurfaceRow;
    var each := MapEach(SurfaceRow, cs);
    SortKeepsMembers(each, ByKey(Url));
    ByKeyIsPreorder(Url);
    SortSorts(each, ByKey(Url));
    SortPermutes(each, ByKey(Url));
    forall r | r in rows ensures SurfaceRowOk(r) && SurfaceRow(r) == r { SurfaceMember(cs, r); }
    UrlsSurvive(cs);
    DistinctRearranged(each, rows, Url);
    assert forall i, j :: 0 <= i < j < |rows| ==> Url(rows[i]) != Url(rows[j]);
  }

  lemma UrlsSurvive(cs: seq<ShardCitation>)
    requires DistinctUrls(cs)
    ensures forall i, j :: 0 <= i < j < |cs| ==> Url(MapEach(SurfaceRow, cs)[i]) != Url(MapEach(SurfaceRow, cs)[j])
  {
    assert forall i :: 0 <= i < |cs| ==> Url(MapEach(SurfaceRow, cs)[i]) == cs[i].requestedUrl;
  }

  /** Taking the surface of a surface changes nothing. */
  lemma SurfaceIdempotent(cs: seq<ShardCitation>, rows: seq<ShardCitation>)
    requires SurfaceRows(cs) == Some(rows)
    ensures SurfaceRows(rows) == Some(rows)
  {
    SurfaceMembers(cs, rows);
    assert MapEach(SurfaceRow, rows) == rows;
    SortFixesSorted(rows, ByKey(Url));
  }

  lemma SurfaceOkRearranged(a: seq<ShardCitation>, b: seq<ShardCitation>)
    requires multiset(a) == multiset(b) && SurfaceOk(a)
    ensures SurfaceOk(b)
  {
    forall i | 0 <= i < |b| ensures SurfaceRowOk(b[i]) {
      InMultiset(b, b[i]);
      InMultiset(a, b[i]);
    }
    assert forall i, j :: 0 <= i < j < |a| ==> Url(a[i]) != Url(a[j]);
    DistinctRearranged(a, b, Url);
    assert forall i, j :: 0 <= i < j < |b| ==> Url(b[i]) != Url(b[j]);
  }

  /** The surface depends only on which citations there are, not on their order. */
  lemma SurfaceIgnoresOrder(a: seq<ShardCitation>, b: seq<ShardCitation>)
    requires multiset(a) == multiset(b)
    ensures SurfaceRows(a) == SurfaceRows(b)
  {
    if SurfaceOk(a) { SurfaceOkRearranged(a, b); }
    if SurfaceOk(b) { SurfaceOkRearranged(b, a); }
    if SurfaceOk(a) {
      MapEachPermutes(SurfaceRow, a, b);
      var each := MapEach(SurfaceRow, a);
      forall i, j | 0 <= i < j < |each| ensures Url(each[i]) != Url(each[j]) {
        assert each[i].requestedUrl == a[i].requestedUrl;
      }
      InjectiveKeysAreDistinct(each, Url);
      ByKeyIsPreorder(Url);
      SortIgnoresOrder(each, MapEach(SurfaceRow, b), ByKey(Url));
    }
  }
}
