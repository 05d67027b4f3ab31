/** Replaying an acquisition offline (`frozen_cache_fetcher`): the recorded responses give one
    fetch a URL, and acquiring through them again gives the same citation rows. */
module OfflineReplay {
  import opened Sequences
  import opened Utf8
  import opened Acquisition

  type Table = map<Url, Fetch>

  // ---- The frozen fetcher ----

  /** What the offline fetcher returns for recorded facts: text is taken to be UTF-8. */
  function FrozenFetch(x: Rules, facts: Facts, body: Bytes): Fetch {
    Fetch(facts.status, facts.finalUrl, facts.redirectChain, facts.contentType, body,
          if x.fold(facts.contentType) == "application/pdf" then None else Some("utf-8"), Some(|body|))
  }

  function Frozen(x: Rules, f: Fetch): Fetch { FrozenFetch(x, FactsOf(x, f), f.body) }

  /** `register`: one more response, refused when its URL already has another. */
  function Register(t: Table, url: Url, f: Fetch): Option<Table> {
    if url in t && t[url] != f then None else Some(t[url := f])
  }

  function BodyOf(files: map<string, Bytes>, facts: Facts): Option<Bytes> {
    if facts.bodySha256 in files then Some(files[facts.bodySha256]) else None
  }

  function RegisterFacts(x: Rules, t: Table, url: Url, facts: Facts, files: map<string, Bytes>): Option<Table> {
    match BodyOf(files, facts)
    case None => None
    case Some(body) => Register(t, url, FrozenFetch(x, facts, body))
  }

  function RegisterArtifacts(x: Rules, t: Table, artifacts: seq<Artifact>, files: map<string, Bytes>): Option<Table> {
    if artifacts == [] then Some(t)
    else
      match RegisterArtifacts(x, t, artifacts[..|artifacts| - 1], files)
      case None => None
      case Some(front) =>
        RegisterFacts(x, front, artifacts[|artifacts| - 1].requestedUrl, artifacts[|artifacts| - 1].facts, files)
  }

  function RegisterRow(x: Rules, t: Table, row: Row, s: State): Option<Table> {
    if row.facts == None then None
    else
      match RegisterFacts(x, t, row.evidenceUrl, row.facts.value, s.bodies)
      case None => None
      case Some(u) => RegisterArtifacts(x, u, row.artifacts, s.resolverBodies)
  }

  function RegisterRows(x: Rules, rows: seq<Row>, s: State): Option<Table> {
    if rows == [] then Some(map[])
    else
      match RegisterRows(x, rows[..|rows| - 1], s)
      case None => None
      case Some(t) => RegisterRow(x, t, rows[|rows| - 1], s)
  }

  lemma {:induction false} RegisterFails(x: Rules, rows: seq<Row>, s: State, n: nat)
    requires n <= |rows| && RegisterRows(x, rows[..n], s) == None
    ensures RegisterRows(x, rows, s) == None
    decreases |rows| - n
  {
    if n == |rows| {
      assert rows[..n] == rows;
    } else {
      assert rows[..n + 1][..n] == rows[..n];
      RegisterFails(x, rows, s, n + 1);
    }
  }

  lemma {:induction false} ArtifactsFail(x: Rules, t: Table, artifacts: seq<Artifact>, files: map<string, Bytes>, n: nat)
    requires n <= |artifacts| && RegisterArtifacts(x, t, artifacts[..n], files) == None
    ensures RegisterArtifacts(x, t, artifacts, files) == None
    decreases |artifacts| - n
  {
    if n == |artifacts| {
      assert artifacts[..n] == artifacts;
    } else {
      assert artifacts[..n + 1][..n] == artifacts[..n];
      ArtifactsFail(x, t, artifacts, files, n + 1);
    }
  }

  method RegisterEach(x: Rules, t0: Table, artifacts: seq<Artifact>, files: map<string, Bytes>) returns (r: Option<Table>)
    ensures r == RegisterArtifacts(x, t0, artifacts, files)
  {
    hide RegisterFacts;
    var t, i := t0, 0;
    while i < |artifacts|
      invariant 0 <= i <= |artifacts|
      invariant RegisterArtifacts(x, t0, artifacts[..i], files) == Some(t)
    {
      assert artifacts[..i + 1][..i] == artifacts[..i];
      var next := RegisterFacts(x, t, artifacts[i].requestedUrl, artifacts[i].facts, files);
      if next == None {
        ArtifactsFail(x, t0, artifacts, files, i + 1);
        return None;
      }
      t := next.value;
      i := i + 1;
    }
    assert artifacts[..i] == artifacts;
    return Some(t);
  }

  /** `frozen_cache_fetcher`: the table behind the offline fetcher. */
  method FrozenCacheFetcher(x: Rules, rows: seq<Row>, s: State) returns (r: Option<Table>)
    ensures r == RegisterRows(x, rows, s)
  {
    hide RegisterFacts, RegisterArtifacts;
    var t: Table, i := map[], 0;
    while i < |rows|
      invariant 0 <= i <= |rows|
      invariant RegisterRows(x, rows[..i], s) == Some(t)
    {
      assert rows[..i + 1][..i] == rows[..i];
      if rows[i].facts == None {
        RegisterFails(x, rows, s, i + 1);
        return None;
      }
      var next := RegisterFacts(x, t, rows[i].evidenceUrl, rows[i].facts.value, s.bodies);
      if next != None { next := RegisterEach(x, next.value, rows[i].artifacts, s.resolverBodies); }
      if next == None {
        RegisterFails(x, rows, s, i + 1);
        return None;
      }
      t := next.value;
      i := i + 1;
    }
    assert rows[..i] == rows;
    return Some(t);
  }

  /** The offline fetcher as a server: it forgets which call it is. */
  function Offline(t: Table): Server {
    (n, url) => if url in t then Some(t[url]) else None
  }

  // ---- A row as a function of the responses alone ----

  /** The URLs a row's acquisition looks at. */
  function Needs(m: Mapping): set<Url> {
    {m.evidenceUrl} + if m.resolver == AmdTopic then {MapUrl(m.publication), PagesUrl(m.publication)} else {}
  }

  function ArtifactsOf(x: Rules, m: Mapping, t: Table): seq<Artifact>
    requires Needs(m) <= t.Keys
  {
    if m.resolver == AmdTopic then
      [Artifact("amd_map_metadata", MapUrl(m.publication), FactsOf(x, t[MapUrl(m.publication)])),
       Artifact("amd_pages", PagesUrl(m.publication), FactsOf(x, t[PagesUrl(m.publication)]))]
    else []
  }

  predicate IdentityOk(x: Rules, m: Mapping, t: Table)
    requires Needs(m) <= t.Keys
  {
    var f := t[m.evidenceUrl];
    match m.resolver
    case AmdMap => x.mapOk(m, f.body)
    case AmdTopic => x.mapOk(m, t[MapUrl(m.publication)].body) && x.pagesOk(m, t[PagesUrl(m.publication)].body)
    case PinnedDocument => x.documentOk(m, f.body, f.contentType)
    case GithubLines => DerivedText(x, m, f).Text?
    case OtherResolver => false
  }

  /** The row whose text is stored without trouble. */
  function Finished(x: Rules, m: Mapping, f: Fetch, d: Derived, artifacts: seq<Artifact>): Option<Row> {
    var r := Verified(x, m, f, artifacts).(available := true, failed := false);
    if !m.inspectionRequired then Some(r)
    else if !d.Text? || !x.parserOk(d.derivation) then None
    else
      match TextChunks(x, m, d.derivation.text)
      case None => None
      case Some(chunks) => Some(r.(inspection := Some(d.derivation), chunks := chunks))
  }

  /** The available row that these responses lead to, if they do. */
  function Resolve(x: Rules, m: Mapping, t: Table): Option<Row> {
    if !(Needs(m) <= t.Keys) || DerivedText(x, m, t[m.evidenceUrl]).Unreadable? || !IdentityOk(x, m, t) then None
    else Finished(x, m, t[m.evidenceUrl], DerivedText(x, m, t[m.evidenceUrl]), ArtifactsOf(x, m, t))
  }

  /** A response whose text charset the offline fetcher reproduces. */
  predicate Utf8Text(x: Rules, f: Fetch) { x.isPdf(f.body, f.contentType) || TextCharset(x, f) == "utf-8" }

  /** PDF media types are PDFs, and folding leaves `utf-8` alone. */
  ghost predicate RulesOk(x: Rules) {
    && x.fold("utf-8") == "utf-8"
    && forall body, contentType :: x.fold(contentType) == "application/pdf" ==> x.isPdf(body, contentType)
  }

  lemma FrozenSame(x: Rules, m: Mapping, f: Fetch)
    requires RulesOk(x) && Utf8Text(x, f)
    ensures FactsOf(x, Frozen(x, f)) == FactsOf(x, f)
    ensures TextCharset(x, Frozen(x, f)) == TextCharset(x, f)
    ensures DerivedText(x, m, Frozen(x, f)) == DerivedText(x, m, f)
    ensures forall url :: FetchOk(x, url, f) ==> FetchOk(x, url, Frozen(x, f))
  {
  }

  /** The table holds, for these URLs, the frozen form of the other's responses. */
  predicate Freezes(x: Rules, t: Table, frozen: Table, urls: set<Url>) {
    forall u :: u in urls && u in t ==> u in frozen && frozen[u] == Frozen(x, t[u]) && Utf8Text(x, t[u])
  }

  /** Freezing the responses a row needs does not change the row. */
  lemma ResolveFrozen(x: Rules, m: Mapping, t: Table, frozen: Table)
    requires RulesOk(x) && Resolve(x, m, t).Some? && Freezes(x, t, frozen, Needs(m))
    ensures Resolve(x, m, frozen) == Resolve(x, m, t)
  {
    hide RulesOk, TextCharset, FactsOf, DerivedText;
    forall u | u in Needs(m)
      ensures u in frozen && FactsOf(x, frozen[u]) == FactsOf(x, t[u]) && frozen[u].body == t[u].body
      ensures frozen[u].contentType == t[u].contentType && DerivedText(x, m, frozen[u]) == DerivedText(x, m, t[u])
    {
      FrozenSame(x, m, t[u]);
      FrozenParts(x, t[u]);
    }
    assert m.evidenceUrl in Needs(m);
  }

  lemma FrozenParts(x: Rules, f: Fetch)
    ensures Frozen(x, f).body == f.body && Frozen(x, f).contentType == f.contentType
  {
  }

  /** Growing a table keeps every row it leads to. */
  lemma ResolveGrows(x: Rules, m: Mapping, t: Table, u: Table)
    requires Resolve(x, m, t).Some? && forall k :: k in t ==> k in u && u[k] == t[k]
    ensures Resolve(x, m, u) == Resolve(x, m, t)
  {
    hide FactsOf, DerivedText;
  }

  // ---- What an online acquisition recorded ----

  /** The response behind each URL: an AMD publication's two responses come from their own tables. */
  function Recorded(s: State): Table {
    (map u | u in s.primary :: if u.MapUrl? && u.publication in s.maps then s.maps[u.publication] else s.primary[u])
    + (map p | p in s.maps :: MapUrl(p) := s.maps[p])
    + (map p | p in s.pages :: PagesUrl(p) := s.pages[p])
  }

  /** The mapping's own closure: root rows fetch their map, no other row fetches a map or a pages list. */
  predicate MappingOk(m: Mapping) {
    if m.resolver == AmdMap then m.evidenceUrl == MapUrl(m.publication) else m.evidenceUrl.DirectUrl?
  }

  predicate RootBefore(mappings: seq<Mapping>, i: nat, p: string)
    requires i <= |mappings|
  {
    exists k :: 0 <= k < i && mappings[k].resolver == AmdMap && mappings[k].publication == p
  }

  /** A topic that precedes a root row of its publication is itself preceded by one. */
  predicate RootsFirst(mappings: seq<Mapping>) {
    forall i, j :: 0 <= i < j < |mappings| && mappings[i].resolver == AmdTopic && mappings[j].resolver == AmdMap
                   && mappings[i].publication == mappings[j].publication ==>
      RootBefore(mappings, i, mappings[i].publication)
  }

  /** The memo tables agree with each other, and hold only checked responses. */
  ghost predicate Consistent(x: Rules, s: State, mappings: seq<Mapping>) {
    && (forall u :: u in s.primary ==> FetchOk(x, u, s.primary[u]) && (u.MapUrl? || u.DirectUrl?))
    && (forall p :: p in s.maps ==> FetchOk(x, MapUrl(p), s.maps[p]))
    && (forall p :: p in s.pages ==> FetchOk(x, PagesUrl(p), s.pages[p]))
    && (forall p :: MapUrl(p) in s.primary ==> p in s.maps && s.maps[p] == s.primary[MapUrl(p)])
    && (forall p :: p in s.maps && MapUrl(p) !in s.primary ==>
          exists k :: 0 <= k < |mappings| && mappings[k].resolver == AmdTopic && mappings[k].publication == p)
    && (forall k :: 0 <= k < |mappings| && mappings[k].resolver == AmdMap ==> MapUrl(mappings[k].publication) in s.primary)
  }

  /** Everything recorded stays recorded. */
  predicate Extends(s: State, t: State) {
    && (forall u :: u in Recorded(s) ==> u in Recorded(t) && Recorded(t)[u] == Recorded(s)[u])
    && (forall h :: h in s.bodies ==> h in t.bodies && t.bodies[h] == s.bodies[h])
    && (forall h :: h in s.resolverBodies ==> h in t.resolverBodies && t.resolverBodies[h] == s.resolverBodies[h])
    && (forall h :: h in s.texts ==> h in t.texts && t.texts[h] == s.texts[h])
  }

  /** The body of the response recorded for a URL is stored under its hash. */
  predicate BodyKept(x: Rules, files: map<string, Bytes>, recorded: Table, url: Url) {
    url in recorded && x.sha(recorded[url].body) in files && files[x.sha(recorded[url].body)] == recorded[url].body
  }

  /** The text derived from that response is stored too, when the row needs one. */
  predicate TextKept(x: Rules, m: Mapping, texts: map<string, Bytes>, f: Fetch) {
    var d := DerivedText(x, m, f);
    m.inspectionRequired ==>
      d.Text? && x.sha(d.derivation.text) in texts && texts[x.sha(d.derivation.text)] == d.derivation.text
  }

  /** All bodies a row came from are stored, and its text. */
  predicate Kept(x: Rules, m: Mapping, s: State) {
    && BodyKept(x, s.bodies, Recorded(s), m.evidenceUrl) && TextKept(x, m, s.texts, Recorded(s)[m.evidenceUrl])
    && (m.resolver == AmdTopic ==>
          && BodyKept(x, s.resolverBodies, Recorded(s), MapUrl(m.publication))
          && BodyKept(x, s.resolverBodies, Recorded(s), PagesUrl(m.publication)))
  }

  // ---- One row keeps it ----

  lemma ConsistentLater(x: Rules, s: State, done: seq<Mapping>, m: Mapping)
    requires Consistent(x, s, done) && (m.resolver == AmdMap ==> MapUrl(m.publication) in s.primary)
    ensures Consistent(x, s, done + [m])
  {
    hide FetchOk;
    var all := done + [m];
    forall p | p in s.maps && MapUrl(p) !in s.primary
      ensures exists k :: 0 <= k < |all| && all[k].resolver == AmdTopic && all[k].publication == p
    {
      var k :| 0 <= k < |done| && done[k].resolver == AmdTopic && done[k].publication == p;
      assert all[k] == done[k];
    }
  }

  lemma ExtendsTwice(s: State, t: State, u: State)
    requires Extends(s, t) && Extends(t, u)
    ensures Extends(s, u)
  {
    hide Recorded;
  }

  lemma StoredKeeps(files: map<string, Bytes>, name: string, body: Bytes)
    requires Stored(files, name, body).Some?
    ensures var after := Stored(files, name, body).value;
      && name in after && after[name] == body
      && forall h :: h in files ==> h in after && after[h] == files[h]
  {
  }

  // What each fetching step does to the tables, without looking into the server.

  lemma CallFacts(x: Rules, server: Server, s: State, url: Url)
    ensures Call(x, server, s, url).0 == s.(log := s.log + [url])
    ensures Call(x, server, s, url).1.Some? ==> FetchOk(x, url, Call(x, server, s, url).1.value)
  {
    hide FetchOk;
  }

  lemma PrimaryFacts(x: Rules, server: Server, s: State, m: Mapping)
    requires Primary(x, server, s, m).1.Some?
    ensures var (t, f) := Primary(x, server, s, m);
      if m.evidenceUrl in s.primary then t == s && f.value == s.primary[m.evidenceUrl]
      else FetchOk(x, m.evidenceUrl, f.value) && t == s.(log := s.log + [m.evidenceUrl], primary := s.primary[m.evidenceUrl := f.value])
  {
    hide Call;
    CallFacts(x, server, s, m.evidenceUrl);
  }

  lemma MapFacts(x: Rules, server: Server, s: State, p: string)
    ensures MapFetch(x, server, s, p).0.bodies == s.bodies
    ensures MapFetch(x, server, s, p).1.Some? ==>
      var (t, f) := MapFetch(x, server, s, p);
      if p in s.maps then t == s && f.value == s.maps[p]
      else FetchOk(x, MapUrl(p), f.value) && t == s.(log := s.log + [MapUrl(p)], maps := s.maps[p := f.value])
  {
    hide Call;
    CallFacts(x, server, s, MapUrl(p));
  }

  lemma PagesFacts(x: Rules, server: Server, s: State, p: string)
    ensures PagesFetch(x, server, s, p).0.bodies == s.bodies
    ensures PagesFetch(x, server, s, p).1.Some? ==>
      var (t, f) := PagesFetch(x, server, s, p);
      if p in s.pages then t == s && f.value == s.pages[p]
      else FetchOk(x, PagesUrl(p), f.value) && t == s.(log := s.log + [PagesUrl(p)], pages := s.pages[p := f.value])
  {
    hide Call;
    CallFacts(x, server, s, PagesUrl(p));
  }

  /** `Recorded`, URL by URL. */
  lemma RecordedAt(s: State, u: Url)
    ensures u in Recorded(s) <==>
              u in s.primary || (u.MapUrl? && u.publication in s.maps) || (u.PagesUrl? && u.publication in s.pages)
    ensures u.PagesUrl? && u.publication in s.pages ==> Recorded(s)[u] == s.pages[u.publication]
    ensures u.MapUrl? && u.publication in s.maps ==> Recorded(s)[u] == s.maps[u.publication]
    ensures u.MapUrl? && u.publication !in s.maps && u in s.primary ==> Recorded(s)[u] == s.primary[u]
    ensures u.PagesUrl? && u.publication !in s.pages && u in s.primary ==> Recorded(s)[u] == s.primary[u]
    ensures u.DirectUrl? && u in s.primary ==> Recorded(s)[u] == s.primary[u]
  {
    if u.MapUrl? && u.publication in s.maps { assert u in (map p | p in s.maps :: MapUrl(p) := s.maps[p]); }
    if u.PagesUrl? && u.publication in s.pages { assert u in (map p | p in s.pages :: PagesUrl(p) := s.pages[p]); }
  }

  lemma NewDirect(x: Rules, s: State, done: seq<Mapping>, u: Url, f: Fetch)
    requires Consistent(x, s, done) && u.DirectUrl? && u !in s.primary && FetchOk(x, u, f)
    ensures var t := s.(log := s.log + [u], primary := s.primary[u := f]);
      Consistent(x, t, done) && Extends(s, t) && u in Recorded(t) && Recorded(t)[u] == f
  {
    hide FetchOk, Recorded;
    var t := s.(log := s.log + [u], primary := s.primary[u := f]);
    RecordedAt(t, u);
    forall k | k in Recorded(s) ensures k in Recorded(t) && Recorded(t)[k] == Recorded(s)[k] {
      RecordedAt(s, k);
      RecordedAt(t, k);
    }
  }

  lemma NewMap(x: Rules, s: State, done: seq<Mapping>, m: Mapping, f: Fetch)
    requires Consistent(x, s, done) && m.resolver == AmdTopic && m.publication !in s.maps && FetchOk(x, MapUrl(m.publication), f)
    ensures var t := s.(log := s.log + [MapUrl(m.publication)], maps := s.maps[m.publication := f]);
      Consistent(x, t, done + [m]) && Extends(s, t)
  {
    hide FetchOk, Recorded;
    ConsistentLater(x, s, done, m);
    assert (done + [m])[|done|] == m;
    var t := s.(log := s.log + [MapUrl(m.publication)], maps := s.maps[m.publication := f]);
    forall k | k in Recorded(s) ensures k in Recorded(t) && Recorded(t)[k] == Recorded(s)[k] {
      RecordedAt(s, k);
      RecordedAt(t, k);
    }
  }

  lemma NewPages(x: Rules, s: State, done: seq<Mapping>, p: string, f: Fetch)
    requires Consistent(x, s, done) && p !in s.pages && FetchOk(x, PagesUrl(p), f)
    ensures var t := s.(log := s.log + [PagesUrl(p)], pages := s.pages[p := f]);
      Consistent(x, t, done) && Extends(s, t)
  {
    hide FetchOk, Recorded;
    var t := s.(log := s.log + [PagesUrl(p)], pages := s.pages[p := f]);
    forall k | k in Recorded(s) ensures k in Recorded(t) && Recorded(t)[k] == Recorded(s)[k] {
      RecordedAt(s, k);
      RecordedAt(t, k);
    }
  }

  lemma NewRoot(x: Rules, s: State, done: seq<Mapping>, p: string, f: Fetch, log: seq<Url>)
    requires Consistent(x, s, done) && MapUrl(p) !in s.primary && p !in s.maps && FetchOk(x, MapUrl(p), f)
    ensures var t := s.(log := log, primary := s.primary[MapUrl(p) := f], maps := s.maps[p := f]);
      Consistent(x, t, done) && Extends(s, t)
  {
    hide FetchOk, Extends;
    RootExtends(s, p, f, log);
  }

  lemma RootExtends(s: State, p: string, f: Fetch, log: seq<Url>)
    requires MapUrl(p) !in s.primary && p !in s.maps
    ensures Extends(s, s.(log := log, primary := s.primary[MapUrl(p) := f], maps := s.maps[p := f]))
  {
    hide Recorded;
    var t := s.(log := log, primary := s.primary[MapUrl(p) := f], maps := s.maps[p := f]);
    forall k | k in Recorded(s) ensures k in Recorded(t) && Recorded(t)[k] == Recorded(s)[k] {
      RecordedAt(s, k);
      RecordedAt(t, k);
    }
  }

  lemma ExtendsSelf(s: State)
    ensures Extends(s, s)
  {
  }

  /** The primary response of a row that does not fetch a map. */
  lemma DirectPrimary(x: Rules, server: Server, s: State, done: seq<Mapping>, m: Mapping)
    requires Consistent(x, s, done) && m.evidenceUrl.DirectUrl? && Primary(x, server, s, m).1.Some?
    ensures var (t, f) := Primary(x, server, s, m);
      && Consistent(x, t, done) && Extends(s, t)
      && m.evidenceUrl in Recorded(t) && Recorded(t)[m.evidenceUrl] == f.value
  {
    hide FetchOk, Recorded, Primary, Consistent, Extends;
    PrimaryFacts(x, server, s, m);
    RecordedAt(s, m.evidenceUrl);
    ExtendsSelf(s);
    if m.evidenceUrl !in s.primary { NewDirect(x, s, done, m.evidenceUrl, Primary(x, server, s, m).1.value); }
  }

  /** The primary response of a root row, and its entry in the map table. */
  lemma RootPrimary(x: Rules, server: Server, s: State, done: seq<Mapping>, m: Mapping)
    requires Consistent(x, s, done) && m.resolver == AmdMap && MappingOk(m) && Primary(x, server, s, m).1.Some?
    requires forall k :: 0 <= k < |done| && done[k].resolver == AmdTopic && done[k].publication == m.publication ==>
               MapUrl(m.publication) in s.primary
    ensures var (t, f) := Primary(x, server, s, m);
      var u := t.(maps := t.maps[m.publication := f.value]);
      && Consistent(x, u, done) && Extends(s, u) && MapUrl(m.publication) in u.primary
      && m.evidenceUrl in Recorded(u) && Recorded(u)[m.evidenceUrl] == f.value
  {
    hide FetchOk, Recorded, Primary, Extends;
    var p := m.publication;
    PrimaryFacts(x, server, s, m);
    var (t, f) := Primary(x, server, s, m);
    var u := t.(maps := t.maps[p := f.value]);
    RecordedAt(u, MapUrl(p));
    if MapUrl(p) in s.primary {
      assert u == s;
      ExtendsSelf(s);
    } else {
      assert p !in s.maps;
      NewRoot(x, s, done, p, f.value, t.log);
    }
  }

  lemma TopicMap(x: Rules, server: Server, s: State, done: seq<Mapping>, m: Mapping)
    requires Consistent(x, s, done) && m.resolver == AmdTopic && MapFetch(x, server, s, m.publication).1.Some?
    ensures var (t, f) := MapFetch(x, server, s, m.publication);
      && Consistent(x, t, done + [m]) && Extends(s, t) && m.publication in t.maps && t.maps[m.publication] == f.value
  {
    hide FetchOk, Recorded, MapFetch, Consistent, Extends;
    MapFacts(x, server, s, m.publication);
    ExtendsSelf(s);
    ConsistentLater(x, s, done, m);
    if m.publication !in s.maps { NewMap(x, s, done, m, MapFetch(x, server, s, m.publication).1.value); }
  }

  lemma TopicPages(x: Rules, server: Server, s: State, done: seq<Mapping>, p: string)
    requires Consistent(x, s, done) && PagesFetch(x, server, s, p).1.Some?
    ensures var (t, f) := PagesFetch(x, server, s, p);
      && Consistent(x, t, done) && Extends(s, t) && t.maps == s.maps && p in t.pages && t.pages[p] == f.value
  {
    hide FetchOk, Recorded, PagesFetch, Consistent, Extends;
    PagesFacts(x, server, s, p);
    ExtendsSelf(s);
    if p !in s.pages { NewPages(x, s, done, p, PagesFetch(x, server, s, p).1.value); }
  }

  lemma ArtifactsStored(x: Rules, s: State, done: seq<Mapping>, m: Mapping, mapped: Fetch, paged: Fetch)
    requires Consistent(x, s, done) && StoreArtifacts(x, s, m, mapped, paged).1.Some?
    ensures var (t, artifacts) := StoreArtifacts(x, s, m, mapped, paged);
      && Consistent(x, t, done) && Extends(s, t) && Recorded(t) == Recorded(s) && t.bodies == s.bodies
      && artifacts.value == [Artifact("amd_map_metadata", MapUrl(m.publication), FactsOf(x, mapped)),
                             Artifact("amd_pages", PagesUrl(m.publication), FactsOf(x, paged))]
      && x.sha(mapped.body) in t.resolverBodies && t.resolverBodies[x.sha(mapped.body)] == mapped.body
      && x.sha(paged.body) in t.resolverBodies && t.resolverBodies[x.sha(paged.body)] == paged.body
  {
    hide FetchOk, Stored, FactsOf, Recorded, Extends, Consistent;
    StoredKeeps(s.resolverBodies, x.sha(mapped.body), mapped.body);
    var first := Stored(s.resolverBodies, x.sha(mapped.body), mapped.body).value;
    StoredKeeps(first, x.sha(paged.body), paged.body);
    var second := Stored(first, x.sha(paged.body), paged.body).value;
    ResolverBodiesGrow(x, s, done, second);
  }

  lemma ResolverBodiesGrow(x: Rules, s: State, done: seq<Mapping>, files: map<string, Bytes>)
    requires Consistent(x, s, done) && forall h :: h in s.resolverBodies ==> h in files && files[h] == s.resolverBodies[h]
    ensures var t := s.(resolverBodies := files);
      Consistent(x, t, done) && Extends(s, t) && Recorded(t) == Recorded(s)
  {
    hide FetchOk;
  }

  lemma BodyStored(x: Rules, s: State, done: seq<Mapping>, f: Fetch)
    requires Consistent(x, s, done) && Stored(s.bodies, x.sha(f.body), f.body).Some?
    ensures var t := s.(bodies := Stored(s.bodies, x.sha(f.body), f.body).value);
      && Consistent(x, t, done) && Extends(s, t) && Recorded(t) == Recorded(s)
      && x.sha(f.body) in t.bodies && t.bodies[x.sha(f.body)] == f.body
  {
    hide FetchOk;
    StoredKeeps(s.bodies, x.sha(f.body), f.body);
  }

  /** Storing the text of an available row grows the texts and nothing else that is recorded. */
  lemma FinishKeeps(x: Rules, s: State, done: seq<Mapping>, m: Mapping, f: Fetch, artifacts: seq<Artifact>)
    requires Consistent(x, s, done) && Finish(x, s, m, f, DerivedText(x, m, f), artifacts).1.available
    ensures var (t, row) := Finish(x, s, m, f, DerivedText(x, m, f), artifacts);
      && Consistent(x, t, done) && Extends(s, t) && Recorded(t) == Recorded(s)
      && t.bodies == s.bodies && t.resolverBodies == s.resolverBodies
      && Finished(x, m, f, DerivedText(x, m, f), artifacts) == Some(row) && TextKept(x, m, t.texts, f)
  {
    hide FetchOk, DerivedText, Recorded, Stored, Written, TextChunks, FactsOf;
    var d := DerivedText(x, m, f);
    if m.inspectionRequired {
      StoredKeeps(s.texts, x.sha(d.derivation.text), d.derivation.text);
      var texts := Stored(s.texts, x.sha(d.derivation.text), d.derivation.text).value;
      TextsGrow(x, s, done, texts, Written(s.chunkFiles, TextChunks(x, m, d.derivation.text).value).0);
    } else {
      ExtendsSelf(s);
    }
  }

  lemma TextsGrow(x: Rules, s: State, done: seq<Mapping>, texts: map<string, Bytes>, files: set<string>)
    requires Consistent(x, s, done) && forall h :: h in s.texts ==> h in texts && texts[h] == s.texts[h]
    ensures var t := s.(texts := texts, chunkFiles := files);
      Consistent(x, t, done) && Extends(s, t) && Recorded(t) == Recorded(s)
  {
    hide FetchOk;
  }

  /** What an available row left behind. */
  ghost predicate RowKept(x: Rules, s: State, t: State, done: seq<Mapping>, m: Mapping, row: Row) {
    && Consistent(x, t, done + [m]) && Extends(s, t)
    && Resolve(x, m, Recorded(t)) == Some(row) && Kept(x, m, t)
  }

  lemma RootRow(x: Rules, server: Server, s: State, done: seq<Mapping>, m: Mapping)
    requires Consistent(x, s, done) && m.resolver == AmdMap && MappingOk(m) && Process(x, server, s, m).1.available
    requires forall k :: 0 <= k < |done| && done[k].resolver == AmdTopic && done[k].publication == m.publication ==>
               MapUrl(m.publication) in s.primary
    ensures RowKept(x, s, Process(x, server, s, m).0, done, m, Process(x, server, s, m).1)
  {
    hide FetchOk, Consistent, Extends, Recorded, Primary, DerivedText, Stored, Finish, Finished, TextKept;
    var (t, f) := Primary(x, server, s, m);
    RootPrimary(x, server, s, done, m);
    var u := t.(maps := t.maps[m.publication := f.value]);
    BodyStored(x, u, done, f.value);
    var v := u.(bodies := Stored(u.bodies, x.sha(f.value.body), f.value.body).value);
    ExtendsTwice(s, u, v);
    ConsistentLater(x, v, done, m);
    FinishKeeps(x, v, done + [m], m, f.value, []);
    ExtendsTwice(s, v, Finish(x, v, m, f.value, DerivedText(x, m, f.value), []).0);
  }

  lemma DirectRow(x: Rules, server: Server, s: State, done: seq<Mapping>, m: Mapping)
    requires Consistent(x, s, done) && m.resolver != AmdMap && m.resolver != AmdTopic && MappingOk(m)
    requires Process(x, server, s, m).1.available
    ensures RowKept(x, s, Process(x, server, s, m).0, done, m, Process(x, server, s, m).1)
  {
    hide FetchOk, Consistent, Extends, Recorded, Primary, DerivedText, Stored, Finish, Finished, TextKept;
    var (t, f) := Primary(x, server, s, m);
    DirectPrimary(x, server, s, done, m);
    BodyStored(x, t, done, f.value);
    var v := t.(bodies := Stored(t.bodies, x.sha(f.value.body), f.value.body).value);
    ExtendsTwice(s, t, v);
    ConsistentLater(x, v, done, m);
    FinishKeeps(x, v, done + [m], m, f.value, []);
    ExtendsTwice(s, v, Finish(x, v, m, f.value, DerivedText(x, m, f.value), []).0);
  }

  lemma TopicResponses(x: Rules, server: Server, s: State, done: seq<Mapping>, m: Mapping)
    requires Consistent(x, s, done) && m.resolver == AmdTopic && Topic(x, server, s, m).1.Some?
    ensures var (t, artifacts) := Topic(x, server, s, m);
      && Consistent(x, t, done + [m]) && Extends(s, t) && t.bodies == s.bodies
      && MapUrl(m.publication) in Recorded(t) && PagesUrl(m.publication) in Recorded(t)
      && x.mapOk(m, Recorded(t)[MapUrl(m.publication)].body) && x.pagesOk(m, Recorded(t)[PagesUrl(m.publication)].body)
      && artifacts.value == [Artifact("amd_map_metadata", MapUrl(m.publication), FactsOf(x, Recorded(t)[MapUrl(m.publication)])),
                             Artifact("amd_pages", PagesUrl(m.publication), FactsOf(x, Recorded(t)[PagesUrl(m.publication)]))]
      && BodyKept(x, t.resolverBodies, Recorded(t), MapUrl(m.publication))
      && BodyKept(x, t.resolverBodies, Recorded(t), PagesUrl(m.publication))
  {
    hide FetchOk, Consistent, Recorded, MapFetch, PagesFetch, StoreArtifacts, FactsOf, Extends;
    var (t, mapped) := MapFetch(x, server, s, m.publication);
    TopicMap(x, server, s, done, m);
    MapFacts(x, server, s, m.publication);
    var (u, paged) := PagesFetch(x, server, t, m.publication);
    TopicPages(x, server, t, done + [m], m.publication);
    PagesFacts(x, server, t, m.publication);
    RecordedAt(u, MapUrl(m.publication));
    RecordedAt(u, PagesUrl(m.publication));
    ArtifactsStored(x, u, done + [m], m, mapped.value, paged.value);
    var v := StoreArtifacts(x, u, m, mapped.value, paged.value).0;
    ExtendsTwice(s, t, u);
    ExtendsTwice(s, u, v);
  }

  lemma TopicRow(x: Rules, server: Server, s: State, done: seq<Mapping>, m: Mapping)
    requires Consistent(x, s, done) && m.resolver == AmdTopic && MappingOk(m) && Process(x, server, s, m).1.available
    ensures RowKept(x, s, Process(x, server, s, m).0, done, m, Process(x, server, s, m).1)
  {
    hide FetchOk, Consistent, Extends, Recorded, Primary, DerivedText, Stored, Topic, Finish, Finished, TextKept;
    var (t, f) := Primary(x, server, s, m);
    DirectPrimary(x, server, s, done, m);
    BodyStored(x, t, done, f.value);
    var u := t.(bodies := Stored(t.bodies, x.sha(f.value.body), f.value.body).value);
    TopicResponses(x, server, u, done, m);
    var (v, artifacts) := Topic(x, server, u, m);
    ExtendsTwice(s, t, u);
    ExtendsTwice(s, u, v);
    StillRecorded(u, v, m.evidenceUrl);
    FinishKeeps(x, v, done + [m], m, f.value, artifacts.value);
    ExtendsTwice(s, v, Finish(x, v, m, f.value, DerivedText(x, m, f.value), artifacts.value).0);
  }

  lemma StillRecorded(s: State, t: State, u: Url)
    requires Extends(s, t) && u in Recorded(s)
    ensures u in Recorded(t) && Recorded(t)[u] == Recorded(s)[u]
    ensures forall h :: h in s.bodies ==> h in t.bodies && t.bodies[h] == s.bodies[h]
  {
    hide Recorded;
  }

  // ---- The whole acquisition ----

  predicate AllAvailable(rows: seq<Row>) {
    forall i :: 0 <= i < |rows| ==> rows[i].available
  }

  predicate MappingsOk(mappings: seq<Mapping>) {
    (forall i :: 0 <= i < |mappings| ==> MappingOk(mappings[i])) && RootsFirst(mappings)
  }

  /** Every row is what the recorded responses lead to, and its bodies are stored. */
  predicate RowsResolve(x: Rules, s: State, mappings: seq<Mapping>, rows: seq<Row>) {
    && |rows| == |mappings|
    && forall i :: 0 <= i < |mappings| ==> Resolve(x, mappings[i], Recorded(s)) == Some(rows[i]) && Kept(x, mappings[i], s)
  }

  lemma RowStaysResolved(x: Rules, s: State, t: State, m: Mapping, row: Row)
    requires Extends(s, t) && Resolve(x, m, Recorded(s)) == Some(row) && Kept(x, m, s)
    ensures Resolve(x, m, Recorded(t)) == Some(row) && Kept(x, m, t)
  {
    hide Resolve, Recorded;
    ResolveGrows(x, m, Recorded(s), Recorded(t));
  }

  lemma ProcessResolves(x: Rules, server: Server, s: State, done: seq<Mapping>, m: Mapping)
    requires Consistent(x, s, done) && MappingsOk(done + [m]) && Process(x, server, s, m).1.available
    ensures RowKept(x, s, Process(x, server, s, m).0, done, m, Process(x, server, s, m).1)
  {
    hide Process, RowKept;
    var all := done + [m];
    assert all[|done|] == m;
    forall k | 0 <= k < |done| && done[k].resolver == AmdTopic && m.resolver == AmdMap && done[k].publication == m.publication
      ensures MapUrl(m.publication) in s.primary
    {
      assert all[k] == done[k] && RootBefore(all, k, m.publication);
      var r :| 0 <= r < k && all[r].resolver == AmdMap && all[r].publication == m.publication;
      assert all[r] == done[r];
    }
    if m.resolver == AmdMap {
      RootRow(x, server, s, done, m);
    } else if m.resolver == AmdTopic {
      TopicRow(x, server, s, done, m);
    } else {
      DirectRow(x, server, s, done, m);
    }
  }

  lemma AcquireSnoc(x: Rules, server: Server, mappings: seq<Mapping>)
    requires mappings != []
    ensures var n := |mappings| - 1;
      var (s, rows) := Acquire(x, server, mappings[..n]);
      var (t, row) := Process(x, server, s, mappings[n]);
      Acquire(x, server, mappings) == (t, rows + [row]) && |rows| == n
  {
    hide Process;
    AcquireLength(x, server, mappings[..|mappings| - 1]);
  }

  lemma {:induction false} AcquireLength(x: Rules, server: Server, mappings: seq<Mapping>)
    ensures |Acquire(x, server, mappings).1| == |mappings|
  {
    hide Process;
    if mappings != [] { AcquireLength(x, server, mappings[..|mappings| - 1]); }
  }

  lemma MappingsPrefix(mappings: seq<Mapping>)
    requires mappings != [] && MappingsOk(mappings)
    ensures MappingsOk(mappings[..|mappings| - 1])
  {
    var front := mappings[..|mappings| - 1];
    forall i, j | 0 <= i < j < |front| && front[i].resolver == AmdTopic && front[j].resolver == AmdMap
                  && front[i].publication == front[j].publication
      ensures RootBefore(front, i, front[i].publication)
    {
      assert front[i] == mappings[i] && front[j] == mappings[j] && RootBefore(mappings, i, front[i].publication);
      var k :| 0 <= k < i && mappings[k].resolver == AmdMap && mappings[k].publication == front[i].publication;
      assert front[k] == mappings[k];
    }
  }

  /** An available acquisition is explained, row by row, by one response a URL. */
  lemma {:induction false} AcquisitionResolves(x: Rules, server: Server, mappings: seq<Mapping>)
    requires MappingsOk(mappings) && AllAvailable(Acquire(x, server, mappings).1)
    ensures Consistent(x, Acquire(x, server, mappings).0, mappings)
    ensures RowsResolve(x, Acquire(x, server, mappings).0, mappings, Acquire(x, server, mappings).1)
  {
    hide Process, Consistent, Resolve, Recorded, Kept, Extends;
    if mappings == [] {
      EmptyConsistent(x);
    } else {
      var n := |mappings| - 1;
      var (s, rows) := Acquire(x, server, mappings[..n]);
      var (t, row) := Process(x, server, s, mappings[n]);
      AcquireSnoc(x, server, mappings);
      forall i | 0 <= i < |rows| ensures rows[i].available { assert (rows + [row])[i] == rows[i]; }
      assert (rows + [row])[n] == row;
      MappingsPrefix(mappings);
      AcquisitionResolves(x, server, mappings[..n]);
      assert mappings[..n] + [mappings[n]] == mappings;
      ProcessResolves(x, server, s, mappings[..n], mappings[n]);
      forall i | 0 <= i < n ensures Resolve(x, mappings[i], Recorded(t)) == Some(rows[i]) && Kept(x, mappings[i], t) {
        RowStaysResolved(x, s, t, mappings[i], rows[i]);
      }
    }
  }

  lemma EmptyConsistent(x: Rules)
    ensures Consistent(x, EMPTY, [])
  {
  }

  // ---- Registering never conflicts ----

  /** A table of frozen responses for some of the recorded URLs. */
  predicate FrozenFrom(x: Rules, t: Table, recorded: Table, urls: set<Url>) {
    t.Keys == urls && urls <= recorded.Keys && forall u :: u in t ==> t[u] == Frozen(x, recorded[u])
  }

  lemma RegisterOne(x: Rules, t: Table, recorded: Table, urls: set<Url>, u: Url, files: map<string, Bytes>)
    requires FrozenFrom(x, t, recorded, urls) && BodyKept(x, files, recorded, u)
    ensures RegisterFacts(x, t, u, FactsOf(x, recorded[u]), files) == Some(t[u := Frozen(x, recorded[u])])
    ensures FrozenFrom(x, t[u := Frozen(x, recorded[u])], recorded, urls + {u})
  {
  }

  lemma RowRegisters(x: Rules, t: Table, s: State, done: seq<Mapping>, urls: set<Url>, m: Mapping, row: Row)
    requires Consistent(x, s, done) && FrozenFrom(x, t, Recorded(s), urls)
    requires Resolve(x, m, Recorded(s)) == Some(row) && Kept(x, m, s)
    ensures RegisterRow(x, t, row, s).Some?
    ensures FrozenFrom(x, RegisterRow(x, t, row, s).value, Recorded(s), urls + Needs(m))
  {
    hide FactsOf, RegisterFacts, Recorded, DerivedText, FrozenFrom, Frozen;
    var recorded := Recorded(s);
    ResolvedFacts(x, m, recorded, row);
    RegisterOne(x, t, recorded, urls, m.evidenceUrl, s.bodies);
    var u := t[m.evidenceUrl := Frozen(x, recorded[m.evidenceUrl])];
    if m.resolver == AmdTopic {
      var a, b := MapUrl(m.publication), PagesUrl(m.publication);
      assert row.artifacts[0].facts == FactsOf(x, recorded[a]) && row.artifacts[1].facts == FactsOf(x, recorded[b]);
      RegisterOne(x, u, recorded, urls + {m.evidenceUrl}, a, s.resolverBodies);
      var v := u[a := Frozen(x, recorded[a])];
      RegisterOne(x, v, recorded, urls + {m.evidenceUrl} + {a}, b, s.resolverBodies);
      TwoArtifacts(x, u, row.artifacts, s.resolverBodies);
      assert urls + {m.evidenceUrl} + {a} + {b} == urls + Needs(m);
    } else {
      assert urls + {m.evidenceUrl} == urls + Needs(m);
    }
  }

  lemma ResolvedFacts(x: Rules, m: Mapping, t: Table, row: Row)
    requires Resolve(x, m, t) == Some(row)
    ensures Needs(m) <= t.Keys && row.evidenceUrl == m.evidenceUrl
    ensures row.facts == Some(FactsOf(x, t[m.evidenceUrl])) && row.artifacts == ArtifactsOf(x, m, t)
  {
    hide FactsOf, DerivedText;
  }

  lemma TwoArtifacts(x: Rules, t: Table, artifacts: seq<Artifact>, files: map<string, Bytes>)
    requires |artifacts| == 2
    ensures RegisterArtifacts(x, t, artifacts, files) ==
              match RegisterFacts(x, t, artifacts[0].requestedUrl, artifacts[0].facts, files)
              case None => None
              case Some(u) => RegisterFacts(x, u, artifacts[1].requestedUrl, artifacts[1].facts, files)
  {
    hide RegisterFacts;
    var one := artifacts[..1];
    assert one[..0] == [] && one[0] == artifacts[0];
    assert RegisterArtifacts(x, t, one[..0], files) == Some(t);
    assert RegisterArtifacts(x, t, one, files) == RegisterFacts(x, t, artifacts[0].requestedUrl, artifacts[0].facts, files);
  }

  function NeededBy(mappings: seq<Mapping>): set<Url> {
    set m, u | m in mappings && u in Needs(m) :: u
  }

  lemma NeededSnoc(mappings: seq<Mapping>, m: Mapping)
    ensures NeededBy(mappings + [m]) == NeededBy(mappings) + Needs(m)
  {
  }

  lemma {:induction false} RowsRegister(x: Rules, s: State, mappings: seq<Mapping>, rows: seq<Row>, n: nat)
    requires Consistent(x, s, mappings) && RowsResolve(x, s, mappings, rows) && n <= |rows|
    ensures RegisterRows(x, rows[..n], s).Some?
    ensures FrozenFrom(x, RegisterRows(x, rows[..n], s).value, Recorded(s), NeededBy(mappings[..n]))
  {
    hide Consistent, Resolve, Recorded, Kept, RegisterRow, FrozenFrom, Needs;
    if n == 0 {
      NothingFrozen(x, s);
      assert mappings[..0] == [] && rows[..0] == [];
    } else {
      RowsRegister(x, s, mappings, rows, n - 1);
      assert rows[..n][..n - 1] == rows[..n - 1];
      assert mappings[..n] == mappings[..n - 1] + [mappings[n - 1]];
      NeededSnoc(mappings[..n - 1], mappings[n - 1]);
      RowRegisters(x, RegisterRows(x, rows[..n - 1], s).value, s, mappings, NeededBy(mappings[..n - 1]), mappings[n - 1], rows[n - 1]);
    }
  }

  lemma NothingFrozen(x: Rules, s: State)
    ensures FrozenFrom(x, map[], Recorded(s), NeededBy([]))
  {
  }

  // ---- Chunk files are written once ----

  /** The chunk files that exist once these rows are written. */
  function FilesAfter(rows: seq<Row>): set<string> {
    if rows == [] then {} else Written(FilesAfter(rows[..|rows| - 1]), rows[|rows| - 1].chunks).0
  }

  /** No row meets a chunk file that exists already. */
  predicate WritesApart(rows: seq<Row>) {
    forall n :: 0 <= n < |rows| ==> Written(FilesAfter(rows[..n]), rows[n].chunks).1
  }

  lemma ProcessWrites(x: Rules, server: Server, s: State, m: Mapping)
    requires Process(x, server, s, m).1.available
    ensures Written(s.chunkFiles, Process(x, server, s, m).1.chunks) == (Process(x, server, s, m).0.chunkFiles, true)
  {
    hide DerivedText, Stored, FactsOf, Identify, Finish, Primary, Written;
    PrimaryWrites(x, server, s, m);
    var (t, fetched) := Primary(x, server, s, m);
    var f := fetched.value;
    var u := t.(bodies := Stored(t.bodies, x.sha(f.body), f.body).value);
    IdentifyWrites(x, server, u, m, f, DerivedText(x, m, f));
    var (v, artifacts) := Identify(x, server, u, m, f, DerivedText(x, m, f));
    FinishWrites(x, v, m, f, DerivedText(x, m, f), artifacts.value);
  }

  lemma IdentifyWrites(x: Rules, server: Server, s: State, m: Mapping, f: Fetch, d: Derived)
    ensures Identify(x, server, s, m, f, d).0.chunkFiles == s.chunkFiles
  {
    hide Topic;
    TopicWrites(x, server, s, m);
  }

  lemma FinishWrites(x: Rules, s: State, m: Mapping, f: Fetch, d: Derived, artifacts: seq<Artifact>)
    requires Finish(x, s, m, f, d, artifacts).1.available
    ensures Written(s.chunkFiles, Finish(x, s, m, f, d, artifacts).1.chunks) == (Finish(x, s, m, f, d, artifacts).0.chunkFiles, true)
  {
    hide Written, Stored, FactsOf, TextChunks;
    NothingWritten(s.chunkFiles);
  }

  lemma NothingWritten(files: set<string>)
    ensures Written(files, []) == (files, true)
  {
  }

  lemma PrimaryWrites(x: Rules, server: Server, s: State, m: Mapping)
    ensures Primary(x, server, s, m).0.chunkFiles == s.chunkFiles
  {
    hide FetchOk;
  }

  lemma TopicWrites(x: Rules, server: Server, s: State, m: Mapping)
    ensures Topic(x, server, s, m).0.chunkFiles == s.chunkFiles
  {
    hide FetchOk, StoreArtifacts, MapFetch, PagesFetch;
    MapWrites(x, server, s, m.publication);
    var t := MapFetch(x, server, s, m.publication).0;
    PagesWrite(x, server, t, m.publication);
    forall u, mapped, paged ensures StoreArtifacts(x, u, m, mapped, paged).0.chunkFiles == u.chunkFiles {
      ArtifactsWrite(x, u, m, mapped, paged);
    }
  }

  lemma MapWrites(x: Rules, server: Server, s: State, p: string)
    ensures MapFetch(x, server, s, p).0.chunkFiles == s.chunkFiles
  {
    hide FetchOk;
  }

  lemma PagesWrite(x: Rules, server: Server, s: State, p: string)
    ensures PagesFetch(x, server, s, p).0.chunkFiles == s.chunkFiles
  {
    hide FetchOk;
  }

  lemma ArtifactsWrite(x: Rules, s: State, m: Mapping, mapped: Fetch, paged: Fetch)
    ensures StoreArtifacts(x, s, m, mapped, paged).0.chunkFiles == s.chunkFiles
  {
    hide Stored, FactsOf;
  }

  lemma NoFiles()
    ensures FilesAfter([]) == {} && WritesApart([])
  {
  }

  lemma WritesApartFront(rows: seq<Row>)
    requires rows != [] && WritesApart(rows)
    ensures var n := |rows| - 1;
      && WritesApart(rows[..n]) && Written(FilesAfter(rows[..n]), rows[n].chunks).1
      && FilesAfter(rows) == Written(FilesAfter(rows[..n]), rows[n].chunks).0
  {
    hide Written;
    forall i | 0 <= i < |rows| - 1 ensures rows[..|rows| - 1][..i] == rows[..i] { }
  }

  lemma WritesApartSnoc(rows: seq<Row>, row: Row)
    requires WritesApart(rows) && Written(FilesAfter(rows), row.chunks).1
    ensures WritesApart(rows + [row]) && FilesAfter(rows + [row]) == Written(FilesAfter(rows), row.chunks).0
  {
    hide Written;
    var all := rows + [row];
    assert all[..|rows|] == rows;
    forall i | 0 <= i < |all| ensures Written(FilesAfter(all[..i]), all[i].chunks).1 {
      if i < |rows| { assert all[..i] == rows[..i]; }
    }
  }

  /** An acquisition with every row available wrote every chunk file once. */
  lemma {:induction false} AvailableWrites(x: Rules, server: Server, mappings: seq<Mapping>)
    requires AllAvailable(Acquire(x, server, mappings).1)
    ensures Acquire(x, server, mappings).0.chunkFiles == FilesAfter(Acquire(x, server, mappings).1)
    ensures WritesApart(Acquire(x, server, mappings).1)
  {
    hide Process, Written, FilesAfter, WritesApart;
    if mappings == [] {
      NoFiles();
    } else {
      var n := |mappings| - 1;
      var (s, rows) := Acquire(x, server, mappings[..n]);
      var (t, row) := Process(x, server, s, mappings[n]);
      AcquireSnoc(x, server, mappings);
      forall i | 0 <= i < n ensures rows[i].available { assert (rows + [row])[i] == rows[i]; }
      assert (rows + [row])[n] == row;
      AvailableWrites(x, server, mappings[..n]);
      ProcessWrites(x, server, s, mappings[n]);
      WritesApartSnoc(rows, row);
    }
  }

  // ---- Acquiring through the offline fetcher ----

  predicate Within(files: map<string, Bytes>, home: map<string, Bytes>) {
    forall h :: h in files ==> h in home && files[h] == home[h]
  }

  /** The offline memo tables hold what the table says, and the files what the cache holds. */
  predicate FromTable(x: Rules, s: State, t: Table, cache: State) {
    && s.failures == {}
    && (forall u :: u in s.primary ==> u in t && s.primary[u] == t[u])
    && (forall p :: p in s.maps ==> MapUrl(p) in t && s.maps[p] == t[MapUrl(p)])
    && (forall p :: p in s.pages ==> PagesUrl(p) in t && s.pages[p] == t[PagesUrl(p)])
    && Within(s.bodies, cache.bodies) && Within(s.resolverBodies, cache.resolverBodies)
    && Within(s.texts, cache.texts)
  }

  /** The cache holds the bodies of the table's responses a row looks at. */
  predicate Backed(x: Rules, t: Table, m: Mapping, cache: State) {
    && BodyKept(x, cache.bodies, t, m.evidenceUrl) && TextKept(x, m, cache.texts, t[m.evidenceUrl])
    && (m.resolver == AmdTopic ==>
          && BodyKept(x, cache.resolverBodies, t, MapUrl(m.publication))
          && BodyKept(x, cache.resolverBodies, t, PagesUrl(m.publication)))
  }

  lemma StoredWithin(files: map<string, Bytes>, home: map<string, Bytes>, name: string, body: Bytes)
    requires Within(files, home) && name in home && home[name] == body
    ensures Stored(files, name, body).Some? && Within(Stored(files, name, body).value, home)
  {
  }

  predicate Checkable(x: Rules, t: Table) {
    forall u :: u in t ==> FetchOk(x, u, t[u])
  }

  lemma OfflineCall(x: Rules, s: State, t: Table, u: Url)
    requires Checkable(x, t) && u in t
    ensures Call(x, Offline(t), s, u) == (s.(log := s.log + [u]), Some(t[u]))
  {
  }

  lemma OfflinePrimary(x: Rules, s: State, t: Table, cache: State, m: Mapping)
    requires Checkable(x, t) && FromTable(x, s, t, cache) && m.evidenceUrl in t
    ensures Primary(x, Offline(t), s, m).1 == Some(t[m.evidenceUrl]) && FromTable(x, Primary(x, Offline(t), s, m).0, t, cache)
  {
    hide Call, FetchOk;
    OfflineCall(x, s, t, m.evidenceUrl);
  }

  lemma OfflineMap(x: Rules, s: State, t: Table, cache: State, p: string)
    requires Checkable(x, t) && FromTable(x, s, t, cache) && MapUrl(p) in t
    ensures MapFetch(x, Offline(t), s, p).1 == Some(t[MapUrl(p)]) && FromTable(x, MapFetch(x, Offline(t), s, p).0, t, cache)
  {
    hide Call, FetchOk;
    OfflineCall(x, s, t, MapUrl(p));
  }

  lemma OfflinePages(x: Rules, s: State, t: Table, cache: State, p: string)
    requires Checkable(x, t) && FromTable(x, s, t, cache) && PagesUrl(p) in t
    ensures PagesFetch(x, Offline(t), s, p).1 == Some(t[PagesUrl(p)]) && FromTable(x, PagesFetch(x, Offline(t), s, p).0, t, cache)
  {
    hide Call, FetchOk;
    OfflineCall(x, s, t, PagesUrl(p));
  }

  lemma OfflineArtifacts(x: Rules, s: State, t: Table, cache: State, m: Mapping, mapped: Fetch, paged: Fetch)
    requires FromTable(x, s, t, cache)
    requires x.sha(mapped.body) in cache.resolverBodies && cache.resolverBodies[x.sha(mapped.body)] == mapped.body
    requires x.sha(paged.body) in cache.resolverBodies && cache.resolverBodies[x.sha(paged.body)] == paged.body
    ensures var (u, artifacts) := StoreArtifacts(x, s, m, mapped, paged);
      && FromTable(x, u, t, cache)
      && artifacts == Some([Artifact("amd_map_metadata", MapUrl(m.publication), FactsOf(x, mapped)),
                            Artifact("amd_pages", PagesUrl(m.publication), FactsOf(x, paged))])
  {
    hide FactsOf, Stored, Within;
    StoredWithin(s.resolverBodies, cache.resolverBodies, x.sha(mapped.body), mapped.body);
    var first := Stored(s.resolverBodies, x.sha(mapped.body), mapped.body).value;
    StoredWithin(first, cache.resolverBodies, x.sha(paged.body), paged.body);
  }

  lemma OfflineTopic(x: Rules, s: State, t: Table, cache: State, m: Mapping)
    requires Checkable(x, t) && FromTable(x, s, t, cache) && Backed(x, t, m, cache) && m.resolver == AmdTopic && Needs(m) <= t.Keys && IdentityOk(x, m, t)
    ensures Topic(x, Offline(t), s, m).1 == Some(ArtifactsOf(x, m, t)) && FromTable(x, Topic(x, Offline(t), s, m).0, t, cache)
  {
    hide MapFetch, PagesFetch, FactsOf, StoreArtifacts, FromTable, Checkable, Offline;
    OfflineMap(x, s, t, cache, m.publication);
    var u := MapFetch(x, Offline(t), s, m.publication).0;
    OfflinePages(x, u, t, cache, m.publication);
    var v := PagesFetch(x, Offline(t), u, m.publication).0;
    OfflineArtifacts(x, v, t, cache, m, t[MapUrl(m.publication)], t[PagesUrl(m.publication)]);
  }

  /** Acquired offline, a row is exactly what the table leads to. */
  lemma OfflineRow(x: Rules, s: State, t: Table, cache: State, m: Mapping)
    requires Checkable(x, t) && FromTable(x, s, t, cache) && Backed(x, t, m, cache) && MappingOk(m) && Resolve(x, m, t).Some?
    requires Written(s.chunkFiles, Resolve(x, m, t).value.chunks).1
    ensures Process(x, Offline(t), s, m).1 == Resolve(x, m, t).value && FromTable(x, Process(x, Offline(t), s, m).0, t, cache)
  {
    hide Checkable, DerivedText, FactsOf, Stored, Primary, Topic, Finish, FromTable, Written, TextKept;
    OfflinePrimary(x, s, t, cache, m);
    PrimaryWrites(x, Offline(t), s, m);
    var u := Primary(x, Offline(t), s, m).0;
    OfflineBody(x, u, t, cache, t[m.evidenceUrl].body);
    var v := u.(bodies := Stored(u.bodies, x.sha(t[m.evidenceUrl].body), t[m.evidenceUrl].body).value);
    if m.resolver == AmdTopic {
      OfflineTopic(x, v, t, cache, m);
      TopicWrites(x, Offline(t), v, m);
    }
    if m.resolver == AmdMap { OfflineRoot(x, v, t, cache, m.publication); }
    var (w, artifacts) := Identify(x, Offline(t), v, m, t[m.evidenceUrl], DerivedText(x, m, t[m.evidenceUrl]));
    OfflineFinish(x, w, t, cache, m, t[m.evidenceUrl], artifacts.value);
  }

  lemma OfflineFinish(x: Rules, s: State, t: Table, cache: State, m: Mapping, f: Fetch, artifacts: seq<Artifact>)
    requires FromTable(x, s, t, cache) && TextKept(x, m, cache.texts, f)
    requires Finished(x, m, f, DerivedText(x, m, f), artifacts).Some?
    requires Written(s.chunkFiles, Finished(x, m, f, DerivedText(x, m, f), artifacts).value.chunks).1
    ensures var (u, row) := Finish(x, s, m, f, DerivedText(x, m, f), artifacts);
      FromTable(x, u, t, cache) && Finished(x, m, f, DerivedText(x, m, f), artifacts) == Some(row)
  {
    hide DerivedText, FactsOf, Stored, Written, TextChunks, Within;
    var d := DerivedText(x, m, f);
    if m.inspectionRequired { StoredWithin(s.texts, cache.texts, x.sha(d.derivation.text), d.derivation.text); }
  }

  lemma OfflineBody(x: Rules, s: State, t: Table, cache: State, body: Bytes)
    requires FromTable(x, s, t, cache) && x.sha(body) in cache.bodies && cache.bodies[x.sha(body)] == body
    ensures Stored(s.bodies, x.sha(body), body).Some? && FromTable(x, s.(bodies := Stored(s.bodies, x.sha(body), body).value), t, cache)
  {
    hide Stored, Within;
    StoredWithin(s.bodies, cache.bodies, x.sha(body), body);
  }

  lemma OfflineRoot(x: Rules, s: State, t: Table, cache: State, p: string)
    requires FromTable(x, s, t, cache) && MapUrl(p) in t
    ensures FromTable(x, s.(maps := s.maps[p := t[MapUrl(p)]]), t, cache)
  {
  }

  lemma {:induction false} OfflineRows(x: Rules, t: Table, cache: State, mappings: seq<Mapping>, rows: seq<Row>)
    requires Checkable(x, t) && |rows| == |mappings| && WritesApart(rows)
    requires forall i :: 0 <= i < |mappings| ==> MappingOk(mappings[i]) && Backed(x, t, mappings[i], cache) && Resolve(x, mappings[i], t) == Some(rows[i])
    ensures Acquire(x, Offline(t), mappings).1 == rows && FromTable(x, Acquire(x, Offline(t), mappings).0, t, cache)
    ensures Acquire(x, Offline(t), mappings).0.chunkFiles == FilesAfter(rows)
  {
    hide Checkable, Process, Resolve, MappingOk, FromTable, Backed, Written, FilesAfter, WritesApart;
    if mappings == [] {
      NothingAcquired(x, t, cache);
      NoFiles();
    } else {
      var n := |mappings| - 1;
      WritesApartFront(rows);
      OfflineRows(x, t, cache, mappings[..n], rows[..n]);
      AcquireSnoc(x, Offline(t), mappings);
      OfflineRow(x, Acquire(x, Offline(t), mappings[..n]).0, t, cache, mappings[n]);
      ResolvedAvailable(x, mappings[n], t);
      ProcessWrites(x, Offline(t), Acquire(x, Offline(t), mappings[..n]).0, mappings[n]);
      assert rows == rows[..n] + [rows[n]];
    }
  }

  lemma ResolvedAvailable(x: Rules, m: Mapping, t: Table)
    requires Resolve(x, m, t).Some?
    ensures Resolve(x, m, t).value.available
  {
    hide DerivedText, FactsOf, TextChunks;
  }

  lemma NothingAcquired(x: Rules, t: Table, cache: State)
    ensures FromTable(x, EMPTY, t, cache)
  {
  }

  // ---- The theorem ----

  lemma FrozenIsCheckable(x: Rules, s: State, mappings: seq<Mapping>, t: Table, urls: set<Url>)
    requires RulesOk(x) && Consistent(x, s, mappings) && FrozenFrom(x, t, Recorded(s), urls)
    requires forall u :: u in urls && u in Recorded(s) ==> Utf8Text(x, Recorded(s)[u])
    ensures Checkable(x, t)
  {
    hide FetchOk, Recorded, Frozen, RulesOk, Utf8Text;
    forall u | u in t ensures FetchOk(x, u, t[u]) {
      RecordedAt(s, u);
      RecordedOk(x, s, mappings, u);
      FrozenOk(x, u, Recorded(s)[u]);
    }
  }

  lemma FrozenIsBacked(x: Rules, s: State, t: Table, m: Mapping)
    requires RulesOk(x) && Kept(x, m, s) && Freezes(x, Recorded(s), t, Needs(m))
    ensures Backed(x, t, m, s)
  {
    hide Recorded, RulesOk, DerivedText, TextCharset;
    assert m.evidenceUrl in Needs(m);
    FrozenSame(x, m, Recorded(s)[m.evidenceUrl]);
  }

  lemma FrozenOk(x: Rules, u: Url, f: Fetch)
    requires RulesOk(x) && Utf8Text(x, f) && FetchOk(x, u, f)
    ensures FetchOk(x, u, Frozen(x, f))
  {
    hide TextCharset;
  }

  lemma RecordedOk(x: Rules, s: State, mappings: seq<Mapping>, u: Url)
    requires Consistent(x, s, mappings) && u in Recorded(s)
    ensures FetchOk(x, u, Recorded(s)[u])
  {
    hide FetchOk, Recorded;
    RecordedAt(s, u);
  }

  /** Where every row is available, texts are UTF-8 and each AMD root precedes its topics, every URL has one
      recorded response, so the offline fetcher is built without conflict, and acquiring through it
      gives the same citation rows. */
  lemma OfflineReplayAgrees(x: Rules, server: Server, mappings: seq<Mapping>)
    requires RulesOk(x) && MappingsOk(mappings) && AllAvailable(Acquire(x, server, mappings).1)
    requires forall u :: u in Recorded(Acquire(x, server, mappings).0) ==> Utf8Text(x, Recorded(Acquire(x, server, mappings).0)[u])
    ensures var (s, rows) := Acquire(x, server, mappings);
      && RegisterRows(x, rows, s).Some?
      && Acquire(x, Offline(RegisterRows(x, rows, s).value), mappings).1 == rows
  {
    hide RulesOk, Consistent, Resolve, Recorded, Kept, Acquire, RegisterRows, Frozen, Utf8Text, MappingOk, Needs;
    var (s, rows) := Acquire(x, server, mappings);
    AcquisitionResolves(x, server, mappings);
    RowsRegister(x, s, mappings, rows, |rows|);
    assert rows[..|rows|] == rows && mappings[..|rows|] == mappings;
    var t := RegisterRows(x, rows, s).value;
    FrozenIsCheckable(x, s, mappings, t, NeededBy(mappings));
    forall i | 0 <= i < |mappings|
      ensures MappingOk(mappings[i]) && Backed(x, t, mappings[i], s) && Resolve(x, mappings[i], t) == Some(rows[i])
    {
      forall u | u in Needs(mappings[i]) && u in Recorded(s) ensures u in t && t[u] == Frozen(x, Recorded(s)[u]) {
        assert u in NeededBy(mappings);
      }
      ResolveFrozen(x, mappings[i], Recorded(s), t);
      FrozenIsBacked(x, s, t, mappings[i]);
    }
    AvailableWrites(x, server, mappings);
    OfflineRows(x, t, s, mappings, rows);
  }
}
