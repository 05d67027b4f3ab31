/** Acquiring the citations of a review cache (`create_review_cache`): one pass over the evidence
    rows, with memo tables so that a response is fetched once. */
module Acquisition {
  import opened Sequences
  import opened Utf8
  import opened CacheModel
  import opened ChunkInventory

  const MAX_REDIRECTS := 5

  /** The URLs that are fetched. The two AMD forms are built from a publication ID. */
  datatype Url = MapUrl(publication: string) | PagesUrl(publication: string) | DirectUrl(text: string)

  datatype Fetch = Fetch(
    status: int, finalUrl: Url, redirectChain: seq<Url>, contentType: string, body: Bytes,
    charset: Option<string>, contentLength: Option<int>)

  datatype Resolver = AmdMap | AmdTopic | PinnedDocument | GithubLines | OtherResolver

  /** One row of the citation evidence mapping. */
  datatype Mapping = Mapping(
    url: string, evidenceUrl: Url, resolver: Resolver, publication: string, referenceIds: seq<string>, inspectionRequired: bool)

  datatype Derivation = Derivation(text: Bytes, parser: string)

  /** What text derivation does: raise, find no text, or produce it. */
  datatype Derived = Unreadable | NoText | Text(derivation: Derivation)

  /** Response metadata as a cache row records it. */
  datatype Facts = Facts(status: int, finalUrl: Url, redirectChain: seq<Url>, contentType: string, bodySha256: string, bodySize: nat)

  datatype Artifact = Artifact(kind: string, requestedUrl: Url, facts: Facts)

  datatype Row = Row(
    url: string, evidenceUrl: Url, resolver: Resolver, referenceIds: seq<string>, inspectionRequired: bool,
    identityVerified: bool, available: bool, facts: Option<Facts>, inspection: Option<Derivation>,
    chunks: seq<ChunkRow>, artifacts: seq<Artifact>, failed: bool)

  /** The checks and parsers the loop calls. Text depends on the body, its type and the charset used for text;
      the identity checks on the mapping and the body. */
  datatype Rules = Rules(
    maxBytes: nat, sha: Bytes -> string, fold: string -> string, https: Url -> bool,
    pdfComplete: (Bytes, string) -> bool, isPdf: (Bytes, string) -> bool,
    derive: (Mapping, Bytes, string, string) -> Derived, parserOk: Derivation -> bool,
    mapOk: (Mapping, Bytes) -> bool, pagesOk: (Mapping, Bytes) -> bool, documentOk: (Mapping, Bytes, string) -> bool)

  /** A server: what its `n`-th call returns for a URL; None when it raises. */
  type Server = (nat, Url) -> Option<Fetch>

  /** What the pass holds: its memo tables, the files it has written, and the URLs it has called for, in order. */
  datatype State = State(
    primary: map<Url, Fetch>, failures: set<Url>, maps: map<string, Fetch>, pages: map<string, Fetch>,
    bodies: map<string, Bytes>, resolverBodies: map<string, Bytes>, texts: map<string, Bytes>, chunkFiles: set<string>, log: seq<Url>)

  const EMPTY := State(map[], {}, map[], map[], map[], map[], map[], {}, [])

  // ---- Fetching ----

  /** `_checked_fetch` */
  predicate FetchOk(x: Rules, url: Url, f: Fetch) {
    && f.body != [] && |f.body| <= x.maxBytes && f.status == 200
    && (f.contentLength.Some? ==> f.contentLength.value == |f.body|)
    && x.pdfComplete(f.body, f.contentType)
    && f.redirectChain != [] && |f.redirectChain| <= MAX_REDIRECTS + 1 && (forall i :: 0 <= i < |f.redirectChain| ==> f.redirectChain[i] == url)
    && f.finalUrl == url && x.https(url)
  }

  function Call(x: Rules, server: Server, s: State, url: Url): (State, Option<Fetch>) {
    var t := s.(log := s.log + [url]);
    match server(|s.log|, url)
    case None => (t, None)
    case Some(f) => (t, if FetchOk(x, url, f) then Some(f) else None)
  }

  /** The charset that text derivation decodes with; PDF bodies are not decoded. */
  function TextCharset(x: Rules, f: Fetch): string {
    if x.isPdf(f.body, f.contentType) then ""
    else if f.charset == None || f.charset.value == "" then "utf-8"
    else x.fold(f.charset.value)
  }

  function FactsOf(x: Rules, f: Fetch): Facts {
    Facts(f.status, f.finalUrl, f.redirectChain, f.contentType, x.sha(f.body), |f.body|)
  }

  /** A content-addressed file: written once, and refused when the name already holds other bytes. */
  function Stored(files: map<string, Bytes>, name: string, body: Bytes): Option<map<string, Bytes>> {
    if name !in files then Some(files[name := body]) else if files[name] == body then Some(files) else None
  }

  // ---- One row ----

  function Blank(m: Mapping): Row {
    Row(m.url, m.evidenceUrl, m.resolver, m.referenceIds, m.inspectionRequired, false, false, None, None, [], [], true)
  }

  function Primary(x: Rules, server: Server, s: State, m: Mapping): (State, Option<Fetch>) {
    if m.evidenceUrl in s.failures then (s, None)
    else if m.evidenceUrl in s.primary then (s, Some(s.primary[m.evidenceUrl]))
    else
      match Call(x, server, s, m.evidenceUrl)
      case (t, None) => (t.(failures := t.failures + {m.evidenceUrl}), None)
      case (t, Some(f)) => (t.(primary := t.primary[m.evidenceUrl := f]), Some(f))
  }

  function DerivedText(x: Rules, m: Mapping, f: Fetch): Derived {
    if m.inspectionRequired then x.derive(m, f.body, f.contentType, TextCharset(x, f)) else NoText
  }

  function MapFetch(x: Rules, server: Server, s: State, p: string): (State, Option<Fetch>) {
    if p in s.maps then (s, Some(s.maps[p]))
    else
      match Call(x, server, s, MapUrl(p))
      case (t, None) => (t, None)
      case (t, Some(f)) => (t.(maps := t.maps[p := f]), Some(f))
  }

  function PagesFetch(x: Rules, server: Server, s: State, p: string): (State, Option<Fetch>) {
    if p in s.pages then (s, Some(s.pages[p]))
    else
      match Call(x, server, s, PagesUrl(p))
      case (t, None) => (t, None)
      case (t, Some(f)) => (t.(pages := t.pages[p := f]), Some(f))
  }

  function StoreArtifacts(x: Rules, s: State, m: Mapping, mapped: Fetch, paged: Fetch): (State, Option<seq<Artifact>>) {
    match Stored(s.resolverBodies, x.sha(mapped.body), mapped.body)
    case None => (s, None)
    case Some(first) =>
      match Stored(first, x.sha(paged.body), paged.body)
      case None => (s.(resolverBodies := first), None)
      case Some(second) =>
        (s.(resolverBodies := second),
         Some([Artifact("amd_map_metadata", MapUrl(m.publication), FactsOf(x, mapped)),
               Artifact("amd_pages", PagesUrl(m.publication), FactsOf(x, paged))]))
  }

  function Topic(x: Rules, server: Server, s: State, m: Mapping): (State, Option<seq<Artifact>>) {
    match MapFetch(x, server, s, m.publication)
    case (t, None) => (t, None)
    case (t, Some(mapped)) =>
      match PagesFetch(x, server, t, m.publication)
      case (u, None) => (u, None)
      case (u, Some(paged)) =>
        if !x.mapOk(m, mapped.body) || !x.pagesOk(m, paged.body) then (u, None) else StoreArtifacts(x, u, m, mapped, paged)
  }

  /** Verifying the identity of a response; None when that fails. */
  function Identify(x: Rules, server: Server, s: State, m: Mapping, f: Fetch, d: Derived): (State, Option<seq<Artifact>>) {
    match m.resolver
    case AmdMap =>
      if x.mapOk(m, f.body) then (s.(maps := s.maps[m.publication := f]), Some([])) else (s, None)
    case AmdTopic => Topic(x, server, s, m)
    case PinnedDocument => (s, if x.documentOk(m, f.body, f.contentType) then Some([]) else None)
    case GithubLines => (s, if d.Text? then Some([]) else None)
    case OtherResolver => (s, None)
  }

  /** The chunk rows of a citation text; None when it is not UTF-8. */
  function TextChunks(x: Rules, m: Mapping, text: Bytes): Option<seq<ChunkRow>> {
    ChunkRowsFor("citation", m.url, x.sha(text), text, x.sha)
  }

  /** Chunk files are created exclusively: the first name that exists stops the writing. */
  function Written(files: set<string>, rows: seq<ChunkRow>): (set<string>, bool)
    decreases |rows|
  {
    if rows == [] then (files, true)
    else if rows[0].path in files then (files, false)
    else Written(files + {rows[0].path}, rows[1..])
  }

  /** The text file, then its chunks. */
  function StoreText(x: Rules, s: State, m: Mapping, text: Bytes): (State, Option<seq<ChunkRow>>) {
    match Stored(s.texts, x.sha(text), text)
    case None => (s, None)
    case Some(texts) =>
      match TextChunks(x, m, text)
      case None => (s.(texts := texts), None)
      case Some(rows) =>
        var (files, done) := Written(s.chunkFiles, rows);
        (s.(texts := texts, chunkFiles := files), if done then Some(rows) else None)
  }

  /** The row once its identity is verified and before its text is looked at. */
  function Verified(x: Rules, m: Mapping, f: Fetch, artifacts: seq<Artifact>): Row {
    Blank(m).(facts := Some(FactsOf(x, f)), artifacts := artifacts, identityVerified := true)
  }

  /** The row once its text is stored too, when it needs one. */
  function Finish(x: Rules, s: State, m: Mapping, f: Fetch, d: Derived, artifacts: seq<Artifact>): (State, Row) {
    var r := Verified(x, m, f, artifacts);
    if !m.inspectionRequired then (s, r.(available := true, failed := false))
    else if !d.Text? || !x.parserOk(d.derivation) then (s, r)
    else
      match StoreText(x, s, m, d.derivation.text)
      case (t, None) => (t, r)
      case (t, Some(chunks)) => (t, r.(available := true, failed := false, inspection := Some(d.derivation), chunks := chunks))
  }

  /** One evidence row: the state it leaves and the cache row it adds. */
  function Process(x: Rules, server: Server, s: State, m: Mapping): (State, Row) {
    match Primary(x, server, s, m)
    case (t, None) => (t, Blank(m))
    case (t, Some(f)) =>
      match Stored(t.bodies, x.sha(f.body), f.body)
      case None => (t, Blank(m))
      case Some(bodies) =>
        var u := t.(bodies := bodies);
        var d := DerivedText(x, m, f);
        if d.Unreadable? then (u, Blank(m).(facts := Some(FactsOf(x, f))))
        else
          match Identify(x, server, u, m, f, d)
          case (v, None) => (v, Blank(m).(facts := Some(FactsOf(x, f))))
          case (v, Some(artifacts)) => Finish(x, v, m, f, d, artifacts)
  }

  function Acquire(x: Rules, server: Server, mappings: seq<Mapping>): (State, seq<Row>) {
    if mappings == [] then (EMPTY, [])
    else
      var (s, rows) := Acquire(x, server, mappings[..|mappings| - 1]);
      var (t, row) := Process(x, server, s, mappings[|mappings| - 1]);
      (t, rows + [row])
  }

  // ---- The loop, with the memo tables as it keeps them ----

  method ProcessRow(x: Rules, server: Server, s: State, m: Mapping) returns (t: State, row: Row)
    ensures (t, row) == Process(x, server, s, m)
  {
    hide FetchOk, TextCharset;
    t, row := s, Blank(m);
    if m.evidenceUrl in t.failures { return; }
    var f: Fetch;
    if m.evidenceUrl in t.primary {
      f := t.primary[m.evidenceUrl];
    } else {
      var called := Call(x, server, t, m.evidenceUrl);
      t := called.0;
      if called.1 == None {
        t := t.(failures := t.failures + {m.evidenceUrl});
        return;
      }
      f := called.1.value;
      t := t.(primary := t.primary[m.evidenceUrl := f]);
    }
    var bodies := Stored(t.bodies, x.sha(f.body), f.body);
    if bodies == None { return; }
    t := t.(bodies := bodies.value);
    row := row.(facts := Some(FactsOf(x, f)));
    var d := DerivedText(x, m, f);
    if d.Unreadable? { return; }
    var identified := Identify(x, server, t, m, f, d);
    t := identified.0;
    if identified.1 == None { return; }
    row := row.(artifacts := identified.1.value, identityVerified := true);
    if !m.inspectionRequired {
      row := row.(available := true, failed := false);
    } else if d.Text? && x.parserOk(d.derivation) {
      var stored := StoreText(x, t, m, d.derivation.text);
      t := stored.0;
      if stored.1 == None { return; }
      row := row.(available := true, failed := false, inspection := Some(d.derivation), chunks := stored.1.value);
    }
  }

  method AcquireCitations(x: Rules, server: Server, mappings: seq<Mapping>) returns (s: State, rows: seq<Row>)
    ensures (s, rows) == Acquire(x, server, mappings)
  {
    hide Process;
    s, rows := EMPTY, [];
    var i := 0;
    while i < |mappings|
      invariant 0 <= i <= |mappings|
      invariant (s, rows) == Acquire(x, server, mappings[..i])
    {
      var row;
      assert mappings[..i + 1][..i] == mappings[..i];
      s, row := ProcessRow(x, server, s, mappings[i]);
      rows := rows + [row];
      i := i + 1;
    }
    assert mappings[..i] == mappings;
  }
}
