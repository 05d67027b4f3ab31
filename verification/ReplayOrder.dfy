/** When offline replay works for every server: exactly for the evidence rows in which a topic that precedes
    a root of its publication is itself preceded by one. */
module ReplayOrder {
  import opened Sequences
  import opened Utf8
  import opened Chunker
  import opened CacheModel
  import opened ChunkInventory
  import opened Acquisition
  import opened OfflineReplay

  // ---- Registered responses stay registered ----

  /** The table answers this URL with these facts. */
  predicate Answers(t: Table, url: Url, facts: Facts) {
    url in t && t[url].contentType == facts.contentType && t[url].finalUrl == facts.finalUrl && t[url].status == facts.status
  }

  predicate RowAnswered(t: Table, row: Row) {
    && (row.facts.Some? ==> Answers(t, row.evidenceUrl, row.facts.value))
    && forall i :: 0 <= i < |row.artifacts| ==> Answers(t, row.artifacts[i].requestedUrl, row.artifacts[i].facts)
  }

  predicate Grows(t: Table, u: Table) { forall k :: k in t ==> k in u && u[k] == t[k] }

  lemma {:induction false} ArtifactsAnswered(x: Rules, t: Table, artifacts: seq<Artifact>, files: map<string, Bytes>)
    requires RegisterArtifacts(x, t, artifacts, files).Some?
    ensures var u := RegisterArtifacts(x, t, artifacts, files).value;
      && Grows(t, u)
      && forall i :: 0 <= i < |artifacts| ==> Answers(u, artifacts[i].requestedUrl, artifacts[i].facts)
  {
    if artifacts != [] {
      var n := |artifacts| - 1;
      ArtifactsAnswered(x, t, artifacts[..n], files);
      var front, u := RegisterArtifacts(x, t, artifacts[..n], files).value, RegisterArtifacts(x, t, artifacts, files).value;
      assert Grows(front, u) && Answers(u, artifacts[n].requestedUrl, artifacts[n].facts);
      forall i | 0 <= i < |artifacts| ensures Answers(u, artifacts[i].requestedUrl, artifacts[i].facts) {
        if i < n { assert artifacts[..n][i] == artifacts[i] && Answers(front, artifacts[i].requestedUrl, artifacts[i].facts); }
      }
    }
  }

  lemma RowIsAnswered(x: Rules, t: Table, row: Row, s: State)
    requires RegisterRow(x, t, row, s).Some?
    ensures Grows(t, RegisterRow(x, t, row, s).value) && RowAnswered(RegisterRow(x, t, row, s).value, row)
  {
    var u := RegisterFacts(x, t, row.evidenceUrl, row.facts.value, s.bodies).value;
    assert Grows(t, u) && Answers(u, row.evidenceUrl, row.facts.value);
    ArtifactsAnswered(x, u, row.artifacts, s.resolverBodies);
  }

  /** A table that registers all rows answers every one of them, so two rows that differ on a URL are refused. */
  lemma {:induction false} RowsAnswered(x: Rules, rows: seq<Row>, s: State)
    requires RegisterRows(x, rows, s).Some?
    ensures forall i :: 0 <= i < |rows| ==> RowAnswered(RegisterRows(x, rows, s).value, rows[i])
  {
    hide RegisterRow;
    if rows != [] {
      var n := |rows| - 1;
      RowsAnswered(x, rows[..n], s);
      var front := RegisterRows(x, rows[..n], s).value;
      RowIsAnswered(x, front, rows[n], s);
      forall i | 0 <= i < |rows| ensures RowAnswered(RegisterRows(x, rows, s).value, rows[i]) {
        if i < n { assert rows[..n][i] == rows[i] && RowAnswered(front, rows[i]); }
      }
    }
  }

  // ---- A server whose media type counts its calls ----

  function Spelled(b: Bytes): string { seq(|b|, i requires 0 <= i < |b| => b[i] as char) }

  lemma SpelledApart(a: Bytes, b: Bytes)
    requires Spelled(a) == Spelled(b)
    ensures a == b
  {
    assert |a| == |b|;
    forall i | 0 <= i < |a| ensures a[i] == b[i] { assert Spelled(a)[i] == Spelled(b)[i]; }
  }

  const BODY: Bytes := [66]
  const TEXT: Bytes := [84]

  /** Rules that accept everything they can, and derive the same text from every response. */
  function Lenient(): Rules {
    Rules(1, Spelled, s => s, u => true, (b, t) => true, (b, t) => t == "application/pdf",
          (m, b, t, c) => Text(Derivation(TEXT, "")), d => true, (m, b) => true, (m, b) => true, (m, b, t) => true)
  }

  function Response(u: Url, n: nat): Fetch { Fetch(200, u, [u], seq(n, i => 'x'), BODY, Some("utf-8"), Some(1)) }

  function Drifting(): Server { (n: nat, u: Url) => Some(Response(u, n)) }

  /** The response of some call before call `calls`. */
  predicate Stamped(f: Fetch, u: Url, calls: nat) { |f.contentType| < calls && f == Response(u, |f.contentType|) }

  predicate Only(files: map<string, Bytes>, body: Bytes) { forall h :: h in files ==> files[h] == body }

  /** The memo tables hold responses of earlier calls, each for its URL. */
  predicate Tables(s: State) {
    && s.failures == {} && Only(s.bodies, BODY) && Only(s.resolverBodies, BODY) && Only(s.texts, TEXT)
    && (forall u :: u in s.primary ==> Stamped(s.primary[u], u, |s.log|))
    && (forall p :: p in s.maps ==> Stamped(s.maps[p], MapUrl(p), |s.log|))
    && (forall p :: p in s.pages ==> Stamped(s.pages[p], PagesUrl(p), |s.log|))
  }

  lemma LenientOk()
    ensures RulesOk(Lenient()) && forall f :: Utf8Text(Lenient(), f) <==>
              f.contentType == "application/pdf" || f.charset == None || f.charset.value == "" || f.charset.value == "utf-8"
  {
  }

  lemma StoredOnly(files: map<string, Bytes>, body: Bytes, name: string)
    requires Only(files, body)
    ensures Stored(files, name, body).Some? && Only(Stored(files, name, body).value, body)
  {
  }

  lemma Drift(s: State, u: Url)
    ensures Call(Lenient(), Drifting(), s, u) == (s.(log := s.log + [u]), Some(Response(u, |s.log|)))
    ensures Stamped(Response(u, |s.log|), u, |s.log| + 1)
  {
  }

  lemma DriftPrimary(s: State, m: Mapping)
    requires Tables(s)
    ensures var (t, f) := Primary(Lenient(), Drifting(), s, m);
      && Tables(t) && f.Some? && Stamped(f.value, m.evidenceUrl, |t.log|)
      && |t.log| >= |s.log| && t.chunkFiles == s.chunkFiles && t.primary.Keys == s.primary.Keys + {m.evidenceUrl}
      && (m.evidenceUrl !in s.primary ==> |f.value.contentType| == |s.log|)
  {
    hide Call, Response, Lenient, Drifting, Only;
    Drift(s, m.evidenceUrl);
    assert |Response(m.evidenceUrl, |s.log|).contentType| == |s.log| by { ResponseType(m.evidenceUrl, |s.log|); }
  }

  lemma ResponseType(u: Url, n: nat)
    ensures |Response(u, n).contentType| == n && Response(u, n).body == BODY
  {
  }

  lemma DriftMap(s: State, p: string)
    requires Tables(s)
    ensures var (t, f) := MapFetch(Lenient(), Drifting(), s, p);
      && Tables(t) && f.Some? && Stamped(f.value, MapUrl(p), |t.log|)
      && |t.log| >= |s.log| && t.chunkFiles == s.chunkFiles && t.primary == s.primary
  {
    hide Call, Response, Lenient, Drifting, Only;
    Drift(s, MapUrl(p));
  }

  lemma DriftPages(s: State, p: string)
    requires Tables(s)
    ensures var (t, f) := PagesFetch(Lenient(), Drifting(), s, p);
      && Tables(t) && f.Some? && Stamped(f.value, PagesUrl(p), |t.log|)
      && |t.log| >= |s.log| && t.chunkFiles == s.chunkFiles && t.primary == s.primary
  {
    hide Call, Response, Lenient, Drifting, Only;
    Drift(s, PagesUrl(p));
  }

  lemma DriftArtifacts(s: State, m: Mapping, mapped: Fetch, paged: Fetch)
    requires Tables(s) && mapped.body == BODY == paged.body
    ensures var (t, artifacts) := StoreArtifacts(Lenient(), s, m, mapped, paged);
      && Tables(t) && t == s.(resolverBodies := t.resolverBodies)
      && artifacts.Some? && artifacts.value != [] && artifacts.value[0].requestedUrl == MapUrl(m.publication)
      && artifacts.value[0].facts.contentType == mapped.contentType
  {
    hide Stored, Only, Stamped;
    StoredOnly(s.resolverBodies, BODY, Spelled(BODY));
    StoredOnly(Stored(s.resolverBodies, Spelled(BODY), BODY).value, BODY, Spelled(BODY));
  }

  lemma DriftTopic(s: State, m: Mapping)
    requires Tables(s)
    ensures var (t, artifacts) := Topic(Lenient(), Drifting(), s, m);
      && Tables(t) && |t.log| >= |s.log| && t.chunkFiles == s.chunkFiles && t.primary == s.primary
      && artifacts.Some? && artifacts.value != [] && artifacts.value[0].requestedUrl == MapUrl(m.publication)
      && |artifacts.value[0].facts.contentType| < |t.log|
  {
    hide MapFetch, PagesFetch, StoreArtifacts, Tables, Drifting, Response;
    DriftMap(s, m.publication);
    var (t, mapped) := MapFetch(Lenient(), Drifting(), s, m.publication);
    DriftPages(t, m.publication);
    var (u, paged) := PagesFetch(Lenient(), Drifting(), t, m.publication);
    ResponseType(MapUrl(m.publication), |mapped.value.contentType|);
    ResponseType(PagesUrl(m.publication), |paged.value.contentType|);
    DriftArtifacts(u, m, mapped.value, paged.value);
  }

  // ---- Its text chunks ----

  /** The one chunk file of a citation text. */
  function TextPath(url: string): string { ChunkPath("citation", Spelled(Encode(url)), 0, Spelled(TEXT)) }

  lemma OneChunk(m: Mapping)
    ensures var rows := TextChunks(Lenient(), m, TEXT);
      rows.Some? && |rows.value| == 1 && rows.value[0].path == TextPath(m.url)
  {
    hide Encode, Spelled, ChunkPath;
    assert ChunksFrom(TEXT, 1, MAX_REVIEW_CHUNK_BYTES) == Chunks([]);
    assert Cut(TEXT, 0, MAX_REVIEW_CHUNK_BYTES) == 1 && TEXT[0..1] == TEXT && WellFormed(TEXT);
    assert ChunksOf(TEXT, MAX_REVIEW_CHUNK_BYTES) == Chunks([Chunk(0, 1, TEXT)] + []);
  }

  lemma TextPathsApart(a: string, b: string)
    requires TextPath(a) == TextPath(b)
    ensures a == b
  {
    hide Encode, Spelled, LeafName;
    var x, y, leaf := Spelled(Encode(a)), Spelled(Encode(b)), "/" + LeafName(0, Spelled(TEXT));
    SplitAt(Prefix("citation"), Prefix("citation"), x + leaf, y + leaf);
    assert |x| + |leaf| == |x + leaf| == |y + leaf| == |y| + |leaf|;
    SplitAt(x, y, leaf, leaf);
    SpelledApart(Encode(a), Encode(b));
    DecodeEncode(a);
    DecodeEncode(b);
  }

  lemma WrittenOne(files: set<string>, rows: seq<ChunkRow>)
    requires |rows| == 1 && rows[0].path !in files
    ensures Written(files, rows) == (files + {rows[0].path}, true)
  {
    assert rows[1..] == [];
  }

  lemma DriftFinish(s: State, m: Mapping, f: Fetch, artifacts: seq<Artifact>)
    requires Tables(s) && (m.inspectionRequired ==> TextPath(m.url) !in s.chunkFiles)
    ensures var (t, row) := Finish(Lenient(), s, m, f, DerivedText(Lenient(), m, f), artifacts);
      && Tables(t) && |t.log| == |s.log| && t.primary == s.primary
      && t.chunkFiles == s.chunkFiles + (if m.inspectionRequired then {TextPath(m.url)} else {})
      && row.available && row.evidenceUrl == m.evidenceUrl && row.artifacts == artifacts
      && row.facts.Some? && row.facts.value.contentType == f.contentType
  {
    hide Stored, Only, Stamped, TextPath, TextChunks, Spelled, Written;
    OneChunk(m);
    if m.inspectionRequired { WrittenOne(s.chunkFiles, TextChunks(Lenient(), m, TEXT).value); }
    StoredOnly(s.texts, TEXT, Spelled(TEXT));
  }

  // ---- Its rows ----

  /** A row this server and these rules can make available. */
  predicate Verifiable(m: Mapping) {
    MappingOk(m) && m.resolver != OtherResolver && (m.resolver == GithubLines ==> m.inspectionRequired)
  }

  /** A closed evidence mapping: verifiable rows, one for each citation URL. */
  predicate Closed(mappings: seq<Mapping>) {
    && (forall i :: 0 <= i < |mappings| ==> Verifiable(mappings[i]))
    && forall i, j :: 0 <= i < j < |mappings| ==> mappings[i].url != mappings[j].url
  }

  /** The chunk files and the map URLs fetched directly come from rows already done. */
  predicate Behind(s: State, done: seq<Mapping>) {
    && (forall f :: f in s.chunkFiles ==> exists k :: 0 <= k < |done| && f == TextPath(done[k].url))
    && forall u :: u in s.primary && u.MapUrl? ==> RootBefore(done, |done|, u.publication)
  }

  /** A topic's row names the map response of an earlier call. */
  predicate TopicStamped(m: Mapping, row: Row, calls: nat) {
    m.resolver == AmdTopic ==>
      row.artifacts != [] && row.artifacts[0].requestedUrl == MapUrl(m.publication) && |row.artifacts[0].facts.contentType| < calls
  }

  lemma DriftIdentify(s: State, m: Mapping, f: Fetch)
    requires Tables(s) && Verifiable(m) && Stamped(f, m.evidenceUrl, |s.log|)
    ensures var (t, artifacts) := Identify(Lenient(), Drifting(), s, m, f, DerivedText(Lenient(), m, f));
      && Tables(t) && |t.log| >= |s.log| && t.chunkFiles == s.chunkFiles && t.primary == s.primary && artifacts.Some?
      && (m.resolver == AmdTopic ==>
            && artifacts.value != [] && artifacts.value[0].requestedUrl == MapUrl(m.publication)
            && |artifacts.value[0].facts.contentType| < |t.log|)
  {
    hide Topic, Only, Response, Drifting;
    if m.resolver == AmdTopic { DriftTopic(s, m); }
  }

  /** One row: available, with the stamps of the calls it made. */
  lemma DriftRow(s: State, done: seq<Mapping>, m: Mapping)
    requires Tables(s) && Behind(s, done) && Verifiable(m)
    requires forall k :: 0 <= k < |done| ==> done[k].url != m.url
    ensures var (t, row) := Process(Lenient(), Drifting(), s, m);
      && Tables(t) && Behind(t, done + [m]) && |t.log| >= |s.log|
      && row.available && TopicStamped(m, row, |t.log|) && row.evidenceUrl == m.evidenceUrl && row.facts.Some?
      && (m.evidenceUrl !in s.primary ==> |row.facts.value.contentType| == |s.log|)
  {
    hide Primary, Identify, Finish, Stored, Only, TextPath, Drifting, Behind, Response;
    var (t, f) := Primary(Lenient(), Drifting(), s, m);
    DriftPrimary(s, m);
    ResponseType(m.evidenceUrl, |f.value.contentType|);
    StoredOnly(t.bodies, BODY, Spelled(BODY));
    var u := t.(bodies := Stored(t.bodies, Spelled(BODY), BODY).value);
    DriftIdentify(u, m, f.value);
    var (v, artifacts) := Identify(Lenient(), Drifting(), u, m, f.value, DerivedText(Lenient(), m, f.value));
    FreshText(s, done, m);
    DriftFinish(v, m, f.value, artifacts.value);
    BehindLater(s, Process(Lenient(), Drifting(), s, m).0, done, m);
  }

  lemma FreshText(s: State, done: seq<Mapping>, m: Mapping)
    requires Behind(s, done) && forall k :: 0 <= k < |done| ==> done[k].url != m.url
    ensures TextPath(m.url) !in s.chunkFiles
  {
    hide TextPath;
    if TextPath(m.url) in s.chunkFiles {
      var k :| 0 <= k < |done| && TextPath(m.url) == TextPath(done[k].url);
      TextPathsApart(m.url, done[k].url);
    }
  }

  lemma BehindLater(s: State, t: State, done: seq<Mapping>, m: Mapping)
    requires Behind(s, done) && MappingOk(m) && t.primary.Keys == s.primary.Keys + {m.evidenceUrl}
    requires t.chunkFiles <= s.chunkFiles + {TextPath(m.url)}
    ensures Behind(t, done + [m])
  {
    hide TextPath;
    var all := done + [m];
    assert all[|done|] == m;
    forall f | f in t.chunkFiles ensures exists k :: 0 <= k < |all| && f == TextPath(all[k].url) {
      if f in s.chunkFiles {
        var k :| 0 <= k < |done| && f == TextPath(done[k].url);
        assert all[k] == done[k];
      }
    }
    forall u | u in t.primary && u.MapUrl? ensures RootBefore(all, |all|, u.publication) {
      if u in s.primary {
        var k :| 0 <= k < |done| && done[k].resolver == AmdMap && done[k].publication == u.publication;
        assert all[k] == done[k];
      }
    }
  }

  // ---- Its runs ----

  predicate AllStamped(done: seq<Mapping>, rows: seq<Row>, calls: nat)
    requires |rows| == |done|
  {
    forall k :: 0 <= k < |done| ==> rows[k].available && TopicStamped(done[k], rows[k], calls)
  }

  lemma {:induction false} DriftRun(mappings: seq<Mapping>)
    requires Closed(mappings)
    ensures var (s, rows) := Acquire(Lenient(), Drifting(), mappings);
      Tables(s) && Behind(s, mappings) && |rows| == |mappings| && AllStamped(mappings, rows, |s.log|)
  {
    hide Process, Tables, Behind, Verifiable, Drifting, Lenient;
    if mappings == [] {
      NothingDrifted();
    } else {
      var n := |mappings| - 1;
      DriftRun(mappings[..n]);
      AcquireSnoc(Lenient(), Drifting(), mappings);
      var (s, rows) := Acquire(Lenient(), Drifting(), mappings[..n]);
      var (t, row) := Process(Lenient(), Drifting(), s, mappings[n]);
      DriftRow(s, mappings[..n], mappings[n]);
      assert mappings[..n] + [mappings[n]] == mappings;
      forall k | 0 <= k < |mappings| ensures (rows + [row])[k].available && TopicStamped(mappings[k], (rows + [row])[k], |t.log|) {
        if k < n { assert mappings[..n][k] == mappings[k] && TopicStamped(mappings[k], rows[k], |s.log|); }
      }
    }
  }

  lemma NothingDrifted()
    ensures Tables(EMPTY) && Behind(EMPTY, [])
  {
  }

  /** The rows of a run start with the rows of its shorter runs. */
  lemma {:induction false} RunPrefix(x: Rules, server: Server, mappings: seq<Mapping>, n: nat)
    requires n < |mappings|
    ensures |Acquire(x, server, mappings).1| == |mappings| && |Acquire(x, server, mappings[..n]).1| == n
    ensures Acquire(x, server, mappings).1[..n] == Acquire(x, server, mappings[..n]).1
    ensures Acquire(x, server, mappings).1[n] == Process(x, server, Acquire(x, server, mappings[..n]).0, mappings[n]).1
  {
    hide Process;
    var last := |mappings| - 1;
    AcquireSnoc(x, server, mappings);
    AcquireLength(x, server, mappings);
    if n < last {
      RunPrefix(x, server, mappings[..last], n);
      assert mappings[..last][..n] == mappings[..n];
    }
  }

  /** The first root after a topic that no root precedes. */
  lemma FirstRoot(mappings: seq<Mapping>, i: nat, j: nat) returns (first: nat)
    requires i < j < |mappings| && mappings[j].resolver == AmdMap && !RootBefore(mappings, i, mappings[j].publication)
    requires mappings[i].resolver != AmdMap
    ensures i < first <= j && mappings[first].resolver == AmdMap && mappings[first].publication == mappings[j].publication
    ensures !RootBefore(mappings, first, mappings[j].publication)
  {
    first := i + 1;
    while mappings[first].resolver != AmdMap || mappings[first].publication != mappings[j].publication
      invariant i < first <= j && !RootBefore(mappings, first, mappings[j].publication)
      decreases j - first
    {
      first := first + 1;
    }
  }

  lemma ClosedPrefix(mappings: seq<Mapping>, n: nat)
    requires Closed(mappings) && n <= |mappings|
    ensures Closed(mappings[..n])
  {
    hide Verifiable;
  }

  predicate AllUtf8(x: Rules, s: State) { forall u :: u in Recorded(s) ==> Utf8Text(x, Recorded(s)[u]) }

  lemma TablesAreUtf8(s: State)
    requires Tables(s)
    ensures AllUtf8(Lenient(), s)
  {
    hide Recorded, Only;
    forall u | u in Recorded(s) ensures Utf8Text(Lenient(), Recorded(s)[u]) { RecordedAt(s, u); }
  }

  /** A topic names the map response of its own time, the first root after it another one. */
  lemma StampsDiffer(mappings: seq<Mapping>, i: nat, n: nat)
    requires Closed(mappings) && i < n < |mappings| && mappings[i].resolver == AmdTopic && mappings[n].resolver == AmdMap
    requires mappings[i].publication == mappings[n].publication && !RootBefore(mappings, n, mappings[n].publication)
    ensures var rows := Acquire(Lenient(), Drifting(), mappings).1;
      && |rows| == |mappings| && rows[i].artifacts != [] && rows[i].artifacts[0].requestedUrl == rows[n].evidenceUrl
      && rows[n].facts.Some? && rows[i].artifacts[0].facts.contentType != rows[n].facts.value.contentType
  {
    hide Process, Acquire, Tables, Drifting, Lenient, Closed, RootBefore;
    var front, p := mappings[..n], mappings[n].publication;
    var s, rows := Acquire(Lenient(), Drifting(), front).0, Acquire(Lenient(), Drifting(), mappings).1;
    RunPrefix(Lenient(), Drifting(), mappings, n);
    ClosedPrefix(mappings, n);
    DriftRun(front);
    assert rows[..n][i] == rows[i] && front[i] == mappings[i] && TopicStamped(front[i], rows[i], |s.log|);
    RootInPrefix(mappings, n, p);
    ClosedRow(mappings, n);
    DriftRow(s, front, mappings[n]);
  }

  lemma RootInPrefix(mappings: seq<Mapping>, n: nat, p: string)
    requires n <= |mappings|
    ensures RootBefore(mappings[..n], n, p) <==> RootBefore(mappings, n, p)
  {
    if k :| 0 <= k < n && mappings[k].resolver == AmdMap && mappings[k].publication == p { assert mappings[..n][k] == mappings[k]; }
  }

  lemma ClosedRow(mappings: seq<Mapping>, n: nat)
    requires Closed(mappings) && n < |mappings|
    ensures Verifiable(mappings[n]) && MappingOk(mappings[n])
    ensures forall k :: 0 <= k < n ==> mappings[..n][k].url != mappings[n].url
  {
  }

  /** Rows that give one URL two media types are refused. */
  lemma TwoAnswersRefused(x: Rules, rows: seq<Row>, s: State, i: nat, n: nat)
    requires i < |rows| && n < |rows| && rows[i].artifacts != [] && rows[n].facts.Some?
    requires rows[i].artifacts[0].requestedUrl == rows[n].evidenceUrl
    requires rows[i].artifacts[0].facts.contentType != rows[n].facts.value.contentType
    ensures RegisterRows(x, rows, s) == None
  {
    hide RegisterRows;
    if RegisterRows(x, rows, s).Some? {
      RowsAnswered(x, rows, s);
    }
  }

  /** For every closed evidence mapping in the wrong order there are rules and a server for which every row
      is available in UTF-8 and the offline fetcher is refused: one URL has two responses. */
  lemma TopicBeforeRootConflicts(mappings: seq<Mapping>)
    requires Closed(mappings) && !RootsFirst(mappings)
    ensures var (s, rows) := Acquire(Lenient(), Drifting(), mappings);
      AllAvailable(rows) && AllUtf8(Lenient(), s) && RegisterRows(Lenient(), rows, s) == None
  {
    hide Process, Acquire, Verifiable, Tables, RegisterRows, RootBefore, Behind, TopicStamped, Drifting, Lenient;
    var (s, rows) := Acquire(Lenient(), Drifting(), mappings);
    var i, j :| 0 <= i < j < |mappings| && mappings[i].resolver == AmdTopic && mappings[j].resolver == AmdMap
                && mappings[i].publication == mappings[j].publication && !RootBefore(mappings, i, mappings[i].publication);
    var n := FirstRoot(mappings, i, j);
    DriftRun(mappings);
    TablesAreUtf8(s);
    StampsDiffer(mappings, i, n);
    TwoAnswersRefused(Lenient(), rows, s, i, n);
  }

  // ---- The exact condition ----

  /** Acquired online with every row available in UTF-8, the rows can be acquired again offline. */
  ghost predicate Replays(x: Rules, server: Server, mappings: seq<Mapping>) {
    var (s, rows) := Acquire(x, server, mappings);
    RulesOk(x) && AllAvailable(rows) && AllUtf8(x, s) ==>
      RegisterRows(x, rows, s).Some? && Acquire(x, Offline(RegisterRows(x, rows, s).value), mappings).1 == rows
  }

  /** A closed evidence mapping replays offline under all rules and servers exactly when it is in order. */
  lemma ReplaysExactlyInOrder(mappings: seq<Mapping>)
    requires Closed(mappings)
    ensures RootsFirst(mappings) <==> forall x, server :: Replays(x, server, mappings)
  {
    hide Acquire, RegisterRows, Lenient, Drifting, RootsFirst, RulesOk;
    if RootsFirst(mappings) {
      ClosedOk(mappings);
      forall x: Rules, server: Server ensures Replays(x, server, mappings) {
        var (s, rows) := Acquire(x, server, mappings);
        if RulesOk(x) && AllAvailable(rows) && AllUtf8(x, s) { OfflineReplayAgrees(x, server, mappings); }
      }
    } else {
      TopicBeforeRootConflicts(mappings);
      LenientOk();
      assert !Replays(Lenient(), Drifting(), mappings);
    }
  }

  lemma ClosedOk(mappings: seq<Mapping>)
    requires Closed(mappings) && RootsFirst(mappings)
    ensures MappingsOk(mappings)
  {
  }
}
