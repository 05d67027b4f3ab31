/** What one pass over the evidence rows calls and concludes, in terms of the calls it made and the answers it got. */
module AcquisitionLaws {
  import opened Sequences
  import opened Utf8
  import opened CacheModel
  import opened ChunkInventory
  import opened Acquisition
  import opened OfflineReplay

  // ---- Answers ----

  /** A complete and unredirected response within the size limit. */
  predicate Accepted(x: Rules, url: Url, f: Fetch) {
    && f.status == 200 && 0 < |f.body| <= x.maxBytes
    && (f.contentLength == None || f.contentLength == Some(|f.body|)) && x.pdfComplete(f.body, f.contentType)
    && 1 <= |f.redirectChain| <= 6 && (forall u :: u in f.redirectChain ==> u == url)
    && f.finalUrl == url && x.https(url)
  }

  /** Some call for the URL got this response, and it was accepted. */
  predicate Got(x: Rules, server: Server, log: seq<Url>, url: Url, f: Fetch) {
    exists k :: 0 <= k < |log| && log[k] == url && server(k, url) == Some(f) && Accepted(x, url, f)
  }

  /** Some call for the URL failed, or got a response that was not accepted. */
  predicate Refused(x: Rules, server: Server, log: seq<Url>, url: Url) {
    exists k :: 0 <= k < |log| && log[k] == url && (server(k, url) == None || !Accepted(x, url, server(k, url).value))
  }

  lemma AcceptedIs(x: Rules, url: Url, f: Fetch)
    ensures FetchOk(x, url, f) <==> Accepted(x, url, f)
  {
    if FetchOk(x, url, f) {
      forall u | u in f.redirectChain ensures u == url { var i :| 0 <= i < |f.redirectChain| && f.redirectChain[i] == u; }
    }
    if Accepted(x, url, f) {
      forall i | 0 <= i < |f.redirectChain| ensures f.redirectChain[i] == url { assert f.redirectChain[i] in f.redirectChain; }
    }
  }

  // ---- The memo tables ----

  predicate Later(s: State, t: State) { |s.log| <= |t.log| && t.log[..|s.log|] == s.log }

  lemma GotLater(x: Rules, server: Server, a: seq<Url>, b: seq<Url>, url: Url)
    requires |a| <= |b| && b[..|a|] == a
    ensures forall f :: Got(x, server, a, url, f) ==> Got(x, server, b, url, f)
    ensures Refused(x, server, a, url) ==> Refused(x, server, b, url)
  {
    hide Accepted;
    forall f | Got(x, server, a, url, f) ensures Got(x, server, b, url, f) {
      var k :| 0 <= k < |a| && a[k] == url && server(k, url) == Some(f) && Accepted(x, url, f);
      assert b[k] == b[..|a|][k];
    }
    if Refused(x, server, a, url) {
      var k :| 0 <= k < |a| && a[k] == url && (server(k, url) == None || !Accepted(x, url, server(k, url).value));
      assert b[k] == b[..|a|][k];
    }
  }

  lemma LaterTwice(s: State, t: State, u: State)
    requires Later(s, t) && Later(t, u)
    ensures Later(s, u)
  {
    assert u.log[..|s.log|] == u.log[..|t.log|][..|s.log|];
  }

  /** What one call adds. */
  lemma Called(x: Rules, server: Server, s: State, url: Url)
    ensures var (t, f) := Call(x, server, s, url);
      && t == s.(log := s.log + [url]) && Later(s, t)
      && (if f.Some? then Got(x, server, t.log, url, f.value) else Refused(x, server, t.log, url))
  {
    hide FetchOk, Accepted;
    var k := |s.log|;
    var log := s.log + [url];
    assert log[k] == url && log[..k] == s.log;
    if server(k, url).Some? { AcceptedIs(x, url, server(k, url).value); }
  }

  /** The tables hold answers to calls of the log. */
  predicate GroundedTables(x: Rules, server: Server, s: State) {
    && (forall u :: u in s.primary ==> Got(x, server, s.log, u, s.primary[u]))
    && (forall u :: u in s.failures ==> Refused(x, server, s.log, u) && u !in s.primary)
    && (forall p :: p in s.maps ==> Got(x, server, s.log, MapUrl(p), s.maps[p]))
    && (forall p :: p in s.pages ==> Got(x, server, s.log, PagesUrl(p), s.pages[p]))
  }

  /** A direct URL is called at most once, and then remembered. */
  ghost predicate DirectOnce(s: State) {
    && (forall t :: DirectUrl(t) in s.log <==> DirectUrl(t) in s.primary || DirectUrl(t) in s.failures)
    && forall i, j :: 0 <= i < j < |s.log| && s.log[i].DirectUrl? ==> s.log[i] != s.log[j]
  }

  ghost predicate Grounded(x: Rules, server: Server, s: State) { GroundedTables(x, server, s) && DirectOnce(s) }

  lemma TablesLater(x: Rules, server: Server, s: State, url: Url)
    requires GroundedTables(x, server, s)
    ensures GroundedTables(x, server, s.(log := s.log + [url]))
  {
    hide Got, Refused;
    var log := s.log + [url];
    assert log[..|s.log|] == s.log;
    forall u | u in s.primary ensures Got(x, server, log, u, s.primary[u]) { GotLater(x, server, s.log, log, u); }
    forall u | u in s.failures ensures Refused(x, server, log, u) { GotLater(x, server, s.log, log, u); }
    forall p | p in s.maps ensures Got(x, server, log, MapUrl(p), s.maps[p]) { GotLater(x, server, s.log, log, MapUrl(p)); }
    forall p | p in s.pages ensures Got(x, server, log, PagesUrl(p), s.pages[p]) { GotLater(x, server, s.log, log, PagesUrl(p)); }
  }

  lemma OtherCalled(s: State, url: Url)
    requires DirectOnce(s) && !url.DirectUrl?
    ensures DirectOnce(s.(log := s.log + [url]))
  {
    var log := s.log + [url];
    forall i, j | 0 <= i < j < |log| && log[i].DirectUrl? ensures log[i] != log[j] { if j < |s.log| { assert s.log[i] != s.log[j]; } }
    forall t ensures DirectUrl(t) in log <==> DirectUrl(t) in s.log { }
  }

  lemma PrimaryCalled(s: State, url: Url, t: State)
    requires DirectOnce(s) && url !in s.primary && url !in s.failures
    requires t.log == s.log + [url]
    requires t.primary.Keys + t.failures == s.primary.Keys + s.failures + {url}
    ensures DirectOnce(t)
  {
    forall i, j | 0 <= i < j < |t.log| && t.log[i].DirectUrl? ensures t.log[i] != t.log[j] {
      if j < |s.log| {
        assert s.log[i] != s.log[j];
      } else {
        assert t.log[i] in s.log;
        var text := t.log[i].text;
        assert DirectUrl(text) in s.primary || DirectUrl(text) in s.failures;
      }
    }
    forall u ensures DirectUrl(u) in t.log <==> DirectUrl(u) in t.primary || DirectUrl(u) in t.failures {
      assert DirectUrl(u) in t.log <==> DirectUrl(u) in s.log || DirectUrl(u) == url;
      assert DirectUrl(u) in t.primary.Keys + t.failures <==> DirectUrl(u) in t.primary || DirectUrl(u) in t.failures;
    }
  }

  predicate SameFiles(s: State, t: State) {
    t.bodies == s.bodies && t.resolverBodies == s.resolverBodies && t.texts == s.texts && t.chunkFiles == s.chunkFiles
  }

  lemma PrimaryRecorded(x: Rules, server: Server, s: State, u: Url, f: Fetch)
    requires GroundedTables(x, server, s) && Got(x, server, s.log, u, f) && u !in s.failures
    ensures GroundedTables(x, server, s.(primary := s.primary[u := f]))
  {
    hide Got, Refused;
  }

  lemma FailureRecorded(x: Rules, server: Server, s: State, u: Url)
    requires GroundedTables(x, server, s) && Refused(x, server, s.log, u) && u !in s.primary
    ensures GroundedTables(x, server, s.(failures := s.failures + {u}))
  {
    hide Got, Refused;
  }

  /** The first look at a URL: one call, remembered either way. */
  lemma FirstLook(x: Rules, server: Server, s: State, m: Mapping)
    requires Grounded(x, server, s) && m.evidenceUrl !in s.primary && m.evidenceUrl !in s.failures
    ensures Grounded(x, server, Primary(x, server, s, m).0)
    ensures var (t, f) := Primary(x, server, s, m);
      if f.Some? then t == s.(log := s.log + [m.evidenceUrl], primary := s.primary[m.evidenceUrl := f.value])
      else t == s.(log := s.log + [m.evidenceUrl], failures := s.failures + {m.evidenceUrl})
  {
    hide Got, Refused, Call, DirectOnce, GroundedTables;
    var u := m.evidenceUrl;
    var (called, f) := Call(x, server, s, u);
    Called(x, server, s, u);
    TablesLater(x, server, s, u);
    if f.Some? { PrimaryRecorded(x, server, called, u, f.value); } else { FailureRecorded(x, server, called, u); }
    PrimaryCalled(s, u, Primary(x, server, s, m).0);
  }

  lemma PrimaryGrounded(x: Rules, server: Server, s: State, m: Mapping)
    requires Grounded(x, server, s)
    ensures var (t, f) := Primary(x, server, s, m);
      && Grounded(x, server, t) && Later(s, t) && SameFiles(s, t)
      && (m.evidenceUrl in t.primary || m.evidenceUrl in t.failures)
      && f == (if m.evidenceUrl in t.primary then Some(t.primary[m.evidenceUrl]) else None)
      && (forall u :: u in s.primary ==> u in t.primary && t.primary[u] == s.primary[u]) && s.failures <= t.failures
  {
    hide Got, Refused, Call, DirectOnce;
    if m.evidenceUrl !in s.failures && m.evidenceUrl !in s.primary {
      FirstLook(x, server, s, m);
    }
  }

  lemma MapGrounded(x: Rules, server: Server, s: State, p: string)
    requires Grounded(x, server, s)
    ensures var (t, f) := MapFetch(x, server, s, p);
      && Grounded(x, server, t) && Later(s, t) && SameFiles(s, t) && t.primary == s.primary && t.failures == s.failures
      && (if f.Some? then Got(x, server, t.log, MapUrl(p), f.value) else Refused(x, server, t.log, MapUrl(p)))
  {
    hide Got, Refused, Call, DirectOnce;
    if p !in s.maps {
      Called(x, server, s, MapUrl(p));
      TablesLater(x, server, s, MapUrl(p));
      OtherCalled(s, MapUrl(p));
      SameDirect(s.(log := s.log + [MapUrl(p)]), MapFetch(x, server, s, p).0);
    }
  }

  lemma PagesGrounded(x: Rules, server: Server, s: State, p: string)
    requires Grounded(x, server, s)
    ensures var (t, f) := PagesFetch(x, server, s, p);
      && Grounded(x, server, t) && Later(s, t) && SameFiles(s, t) && t.primary == s.primary && t.failures == s.failures
      && (if f.Some? then Got(x, server, t.log, PagesUrl(p), f.value) else Refused(x, server, t.log, PagesUrl(p)))
  {
    hide Got, Refused, Call, DirectOnce;
    if p !in s.pages {
      Called(x, server, s, PagesUrl(p));
      TablesLater(x, server, s, PagesUrl(p));
      OtherCalled(s, PagesUrl(p));
      SameDirect(s.(log := s.log + [PagesUrl(p)]), PagesFetch(x, server, s, p).0);
    }
  }

  lemma SameDirect(s: State, t: State)
    requires DirectOnce(s) && t.log == s.log && t.primary == s.primary && t.failures == s.failures
    ensures DirectOnce(t)
  {
  }

  // ---- What a row says ----

  function Recorded(x: Rules, f: Fetch): Facts {
    Facts(f.status, f.finalUrl, f.redirectChain, f.contentType, x.sha(f.body), |f.body|)
  }

  /** The text of a response, when the row needs one: PDF bodies are not decoded, others by their charset or as UTF-8. */
  function Reading(x: Rules, m: Mapping, f: Fetch): Derived {
    if !m.inspectionRequired then NoText
    else
      x.derive(m, f.body, f.contentType,
               if x.isPdf(f.body, f.contentType) then ""
               else if f.charset.Some? && f.charset.value != "" then x.fold(f.charset.value)
               else "utf-8")
  }

  /** The resolver's own check holds, on the response or on the map and pages of the publication. */
  ghost predicate Identifies(x: Rules, server: Server, log: seq<Url>, m: Mapping, f: Fetch, artifacts: seq<Artifact>) {
    match m.resolver
    case AmdMap => x.mapOk(m, f.body) && artifacts == []
    case AmdTopic => exists a, b ::
      && Got(x, server, log, MapUrl(m.publication), a) && Got(x, server, log, PagesUrl(m.publication), b)
      && x.mapOk(m, a.body) && x.pagesOk(m, b.body)
      && artifacts == [Artifact("amd_map_metadata", MapUrl(m.publication), Recorded(x, a)),
                       Artifact("amd_pages", PagesUrl(m.publication), Recorded(x, b))]
    case PinnedDocument => x.documentOk(m, f.body, f.contentType) && artifacts == []
    case GithubLines => Reading(x, m, f).Text? && artifacts == []
    case OtherResolver => false
  }

  /** The inspected text is the one derived from the response, in chunks. */
  predicate Inspected(x: Rules, m: Mapping, f: Fetch, row: Row) {
    if !m.inspectionRequired then row.inspection == None && row.chunks == []
    else
      && Reading(x, m, f).Text? && x.parserOk(Reading(x, m, f).derivation) && row.inspection == Some(Reading(x, m, f).derivation)
      && var text := Reading(x, m, f).derivation.text;
         ChunkRowsFor("citation", m.url, x.sha(text), text, x.sha) == Some(row.chunks)
  }

  /** Everything a row claims of one accepted response. */
  ghost predicate Claims(x: Rules, server: Server, log: seq<Url>, m: Mapping, f: Fetch, row: Row) {
    && Got(x, server, log, m.evidenceUrl, f) && row.facts == Some(Recorded(x, f))
    && (if row.identityVerified then Identifies(x, server, log, m, f, row.artifacts) else row.artifacts == [] && !row.available)
    && (if row.available then Inspected(x, m, f, row) else row.inspection == None && row.chunks == [])
  }

  /** A row repeats its mapping, and claims nothing that no accepted response supports. */
  ghost predicate RowTrue(x: Rules, server: Server, log: seq<Url>, m: Mapping, row: Row) {
    && row.url == m.url && row.evidenceUrl == m.evidenceUrl && row.resolver == m.resolver
    && row.referenceIds == m.referenceIds && row.inspectionRequired == m.inspectionRequired && row.failed == !row.available
    && if row.facts == None
       then !row.identityVerified && !row.available && row.artifacts == [] && row.inspection == None && row.chunks == []
       else exists f :: Claims(x, server, log, m, f, row)
  }

  // ---- Why a row is not available ----

  /** The name of these bytes already holds others. */
  predicate Clash(files: map<string, Bytes>, x: Rules, body: Bytes) { x.sha(body) in files && files[x.sha(body)] != body }

  ghost predicate Unidentified(x: Rules, server: Server, s: State, log: seq<Url>, m: Mapping, f: Fetch) {
    match m.resolver
    case AmdMap => !x.mapOk(m, f.body)
    case AmdTopic =>
      || Refused(x, server, log, MapUrl(m.publication)) || Refused(x, server, log, PagesUrl(m.publication))
      || (exists a :: Got(x, server, log, MapUrl(m.publication), a) && (!x.mapOk(m, a.body) || Clash(s.resolverBodies, x, a.body)))
      || (exists b :: Got(x, server, log, PagesUrl(m.publication), b) && (!x.pagesOk(m, b.body) || Clash(s.resolverBodies, x, b.body)))
      || (exists a, b :: Got(x, server, log, MapUrl(m.publication), a) && Got(x, server, log, PagesUrl(m.publication), b)
                         && x.sha(a.body) == x.sha(b.body) && a.body != b.body)
    case PinnedDocument => !x.documentOk(m, f.body, f.contentType)
    case GithubLines => !Reading(x, m, f).Text?
    case OtherResolver => true
  }

  /** A chunk file of the text exists already. */
  predicate Taken(files: set<string>, rows: seq<ChunkRow>) {
    exists k :: 0 <= k < |rows| && (rows[k].path in files || exists j :: 0 <= j < k && rows[j].path == rows[k].path)
  }

  /** There is no text to store, or it cannot be stored. */
  predicate Textless(x: Rules, s: State, m: Mapping, f: Fetch) {
    var d := Reading(x, m, f);
    || !d.Text? || !x.parserOk(d.derivation) || Clash(s.texts, x, d.derivation.text)
    || match ChunkRowsFor("citation", m.url, x.sha(d.derivation.text), d.derivation.text, x.sha)
       case None => true
       case Some(rows) => Taken(s.chunkFiles, rows)
  }

  ghost predicate Spoiled(x: Rules, server: Server, s: State, log: seq<Url>, m: Mapping, f: Fetch) {
    || Clash(s.bodies, x, f.body) || Reading(x, m, f).Unreadable? || Unidentified(x, server, s, log, m, f)
    || (m.inspectionRequired && Textless(x, s, m, f))
  }

  /** The URL was refused, or its accepted response could not be used. */
  ghost predicate Unusable(x: Rules, server: Server, s: State, log: seq<Url>, m: Mapping) {
    Refused(x, server, log, m.evidenceUrl) || exists f :: Got(x, server, log, m.evidenceUrl, f) && Spoiled(x, server, s, log, m, f)
  }

  // ---- One row ----

  lemma StoredExactly(x: Rules, files: map<string, Bytes>, body: Bytes)
    ensures Stored(files, x.sha(body), body).Some? <==> !Clash(files, x, body)
  {
  }

  lemma ReadingIs(x: Rules, m: Mapping, f: Fetch)
    ensures DerivedText(x, m, f) == Reading(x, m, f) && FactsOf(x, f) == Recorded(x, f)
  {
  }

  lemma ArtifactsExactly(x: Rules, s: State, m: Mapping, mapped: Fetch, paged: Fetch)
    ensures var (t, artifacts) := StoreArtifacts(x, s, m, mapped, paged);
      && t == s.(resolverBodies := t.resolverBodies)
      && (if artifacts.Some?
          then artifacts.value == [Artifact("amd_map_metadata", MapUrl(m.publication), Recorded(x, mapped)),
                                   Artifact("amd_pages", PagesUrl(m.publication), Recorded(x, paged))]
          else || Clash(s.resolverBodies, x, mapped.body) || Clash(s.resolverBodies, x, paged.body)
               || (x.sha(mapped.body) == x.sha(paged.body) && mapped.body != paged.body))
  {
  }

  lemma TopicExactly(x: Rules, server: Server, s: State, m: Mapping, f: Fetch)
    requires Grounded(x, server, s) && m.resolver == AmdTopic
    ensures var (t, artifacts) := Topic(x, server, s, m);
      && Grounded(x, server, t) && Later(s, t) && t.primary == s.primary && t.failures == s.failures
      && t.bodies == s.bodies && t.texts == s.texts && t.chunkFiles == s.chunkFiles
      && (if artifacts.Some? then Identifies(x, server, t.log, m, f, artifacts.value) else Unidentified(x, server, s, t.log, m, f))
  {
    hide Got, Refused, MapFetch, PagesFetch, StoreArtifacts, GroundedTables, DirectOnce, Clash, Reading, Recorded;
    var p := m.publication;
    MapGrounded(x, server, s, p);
    var (t, mapped) := MapFetch(x, server, s, p);
    if mapped.Some? {
      PagesGrounded(x, server, t, p);
      var (u, paged) := PagesFetch(x, server, t, p);
      GotLater(x, server, t.log, u.log, MapUrl(p));
      LaterTwice(s, t, u);
      if paged.Some? && x.mapOk(m, mapped.value.body) && x.pagesOk(m, paged.value.body) {
        ArtifactsExactly(x, u, m, mapped.value, paged.value);
        var v := StoreArtifacts(x, u, m, mapped.value, paged.value).0;
        GroundedSame(x, server, u, v);
      }
    }
  }

  /** Files do not matter to the tables. */
  lemma GroundedSame(x: Rules, server: Server, s: State, t: State)
    requires Grounded(x, server, s)
    requires t.log == s.log && t.primary == s.primary && t.failures == s.failures && t.maps == s.maps && t.pages == s.pages
    ensures Grounded(x, server, t) && Later(s, t)
  {
    hide Got, Refused;
  }

  lemma MapRecorded(x: Rules, server: Server, s: State, p: string, f: Fetch)
    requires Grounded(x, server, s) && Got(x, server, s.log, MapUrl(p), f)
    ensures Grounded(x, server, s.(maps := s.maps[p := f]))
  {
    hide Got, Refused;
  }

  /** The identity step: no answer is taken back, and it says whether and why. */
  lemma IdentifiedExactly(x: Rules, server: Server, s: State, m: Mapping, f: Fetch)
    requires Grounded(x, server, s) && Got(x, server, s.log, m.evidenceUrl, f) && MappingOk(m)
    ensures var (t, artifacts) := Identify(x, server, s, m, f, Reading(x, m, f));
      && Grounded(x, server, t) && Later(s, t) && t.primary == s.primary && t.failures == s.failures
      && t.bodies == s.bodies && t.texts == s.texts && t.chunkFiles == s.chunkFiles
      && (if artifacts.Some? then Identifies(x, server, t.log, m, f, artifacts.value) else Unidentified(x, server, s, t.log, m, f))
  {
    hide Got, Refused, Topic, GroundedTables, DirectOnce, Clash, Reading, Recorded;
    if m.resolver == AmdTopic {
      TopicExactly(x, server, s, m, f);
    } else if m.resolver == AmdMap {
      MapRecorded(x, server, s, m.publication, f);
    }
  }

  lemma {:induction false} WrittenExactly(files: set<string>, rows: seq<ChunkRow>)
    ensures Written(files, rows).1 || Taken(files, rows)
    decreases |rows|
  {
    if rows != [] && rows[0].path !in files {
      var rest, more := rows[1..], files + {rows[0].path};
      WrittenExactly(more, rest);
      if Taken(more, rest) {
        var k :| 0 <= k < |rest| && (rest[k].path in more || exists j :: 0 <= j < k && rest[j].path == rest[k].path);
        assert rows[k + 1] == rest[k];
        if j :| 0 <= j < k && rest[j].path == rest[k].path { assert rows[j + 1] == rest[j]; }
      }
    }
  }

  lemma FinishedExactly(x: Rules, s: State, m: Mapping, f: Fetch, artifacts: seq<Artifact>)
    ensures var (t, row) := Finish(x, s, m, f, Reading(x, m, f), artifacts);
      && t == s.(texts := t.texts, chunkFiles := t.chunkFiles)
      && row == Verified(x, m, f, artifacts).(available := row.available, failed := !row.available, inspection := row.inspection, chunks := row.chunks)
      && (if row.available then Inspected(x, m, f, row)
          else row.inspection == None && row.chunks == [] && m.inspectionRequired && Textless(x, s, m, f))
  {
    hide Reading, ChunkRowsFor, Written, Taken, FactsOf;
    var d := Reading(x, m, f);
    if m.inspectionRequired && d.Text? && x.parserOk(d.derivation) {
      var text := d.derivation.text;
      StoredExactly(x, s.texts, text);
      if ChunkRowsFor("citation", m.url, x.sha(text), text, x.sha).Some? {
        WrittenExactly(s.chunkFiles, ChunkRowsFor("citation", m.url, x.sha(text), text, x.sha).value);
      }
    }
  }

  /** One row: its claims hold of the calls made, and when it is not available there is a reason. */
  lemma RowExactly(x: Rules, server: Server, s: State, m: Mapping)
    requires Grounded(x, server, s) && MappingOk(m)
    ensures var (t, row) := Process(x, server, s, m);
      && Grounded(x, server, t) && Later(s, t)
      && (m.evidenceUrl in t.primary || m.evidenceUrl in t.failures)
      && (forall u :: u in s.primary ==> u in t.primary && t.primary[u] == s.primary[u]) && s.failures <= t.failures
      && RowTrue(x, server, t.log, m, row) && (row.facts.Some? ==> m.evidenceUrl in t.primary)
      && (!row.available ==> Unusable(x, server, s, t.log, m))
  {
    hide Got, Refused, Primary, Identify, Finish, DirectOnce, GroundedTables, Reading, Stored, Clash, FactsOf, DerivedText, Recorded, RowTrue, Unusable;
    PrimaryGrounded(x, server, s, m);
    var (t, response) := Primary(x, server, s, m);
    NothingClaimed(x, server, t.log, m);
    if response == None {
      RefusedUnusable(x, server, s, t, m);
    } else {
      var f := response.value;
      PrimaryGot(x, server, t, m.evidenceUrl);
      StoredExactly(x, t.bodies, f.body);
      ReadingIs(x, m, f);
      var bodies := Stored(t.bodies, x.sha(f.body), f.body);
      if bodies == None {
        ClashUnusable(x, server, s, t.log, m, f);
      } else {
        var u := t.(bodies := bodies.value);
        GroundedSame(x, server, t, u);
        LaterTwice(s, t, u);
        if Reading(x, m, f).Unreadable? {
          BlankClaims(x, server, t.log, m, f);
          UnreadableUnusable(x, server, s, t.log, m, f);
        } else {
          ResponseUsed(x, server, s, u, m, f);
        }
      }
    }
  }

  lemma NothingClaimed(x: Rules, server: Server, log: seq<Url>, m: Mapping)
    ensures RowTrue(x, server, log, m, Blank(m))
  {
  }

  lemma PrimaryGot(x: Rules, server: Server, s: State, u: Url)
    requires Grounded(x, server, s) && u in s.primary
    ensures Got(x, server, s.log, u, s.primary[u])
  {
    hide Got, Refused;
  }

  lemma RefusedUnusable(x: Rules, server: Server, s: State, t: State, m: Mapping)
    requires Grounded(x, server, t) && m.evidenceUrl in t.failures
    ensures Unusable(x, server, s, t.log, m)
  {
    hide Got, Refused, Spoiled;
  }

  lemma ClashUnusable(x: Rules, server: Server, s: State, log: seq<Url>, m: Mapping, f: Fetch)
    requires Got(x, server, log, m.evidenceUrl, f) && Clash(s.bodies, x, f.body)
    ensures Unusable(x, server, s, log, m)
  {
    hide Got, Clash, Reading, Unidentified, Textless;
    SpoiledUnusable(x, server, s, log, m, f);
  }

  lemma UnreadableUnusable(x: Rules, server: Server, s: State, log: seq<Url>, m: Mapping, f: Fetch)
    requires Got(x, server, log, m.evidenceUrl, f) && Reading(x, m, f).Unreadable?
    ensures Unusable(x, server, s, log, m)
  {
    hide Got, Clash, Reading, Unidentified, Textless;
    SpoiledUnusable(x, server, s, log, m, f);
  }

  /** The row of a stored and readable response. */
  lemma ResponseUsed(x: Rules, server: Server, s: State, u: State, m: Mapping, f: Fetch)
    requires Grounded(x, server, u) && MappingOk(m) && Later(s, u)
    requires m.evidenceUrl in u.primary && f == u.primary[m.evidenceUrl] && !Reading(x, m, f).Unreadable?
    requires s.resolverBodies == u.resolverBodies && s.texts == u.texts && s.chunkFiles == u.chunkFiles
    ensures var (t, row) := Used(x, server, u, m, f);
      && Grounded(x, server, t) && Later(s, t) && t.primary == u.primary && t.failures == u.failures && row.facts.Some?
      && RowTrue(x, server, t.log, m, row) && (!row.available ==> Unusable(x, server, s, t.log, m))
  {
    hide Refused, Got, Identify, Finish, DirectOnce, Reading, Inspected, Identifies, Recorded, Unidentified, Textless, RowTrue, Unusable;
    IdentifiedExactly(x, server, u, m, f);
    var (v, artifacts) := Identify(x, server, u, m, f, Reading(x, m, f));
    LaterTwice(s, u, v);
    GotLater(x, server, u.log, v.log, m.evidenceUrl);
    if artifacts.Some? {
      FinishedExactly(x, v, m, f, artifacts.value);
      var (t, row) := Finish(x, v, m, f, Reading(x, m, f), artifacts.value);
      GroundedSame(x, server, v, t);
      FinishedClaims(x, server, v.log, m, f, artifacts.value, row);
      TextlessSame(x, s, v, m, f);
      if !row.available { SpoiledUnusable(x, server, s, v.log, m, f); }
    } else {
      BlankClaims(x, server, v.log, m, f);
      UnidentifiedSame(x, server, s, u, v.log, m, f);
      SpoiledUnusable(x, server, s, v.log, m, f);
    }
  }

  /** What `Process` makes of a stored and readable response. */
  function Used(x: Rules, server: Server, u: State, m: Mapping, f: Fetch): (State, Row) {
    match Identify(x, server, u, m, f, Reading(x, m, f))
    case (v, None) => (v, Blank(m).(facts := Some(Recorded(x, f))))
    case (v, Some(artifacts)) => Finish(x, v, m, f, Reading(x, m, f), artifacts)
  }

  lemma BlankClaims(x: Rules, server: Server, log: seq<Url>, m: Mapping, f: Fetch)
    requires Got(x, server, log, m.evidenceUrl, f)
    ensures RowTrue(x, server, log, m, Blank(m).(facts := Some(Recorded(x, f))))
  {
    hide Got, Identifies, Inspected, Recorded;
    assert Claims(x, server, log, m, f, Blank(m).(facts := Some(Recorded(x, f))));
  }

  lemma FinishedClaims(x: Rules, server: Server, log: seq<Url>, m: Mapping, f: Fetch, artifacts: seq<Artifact>, row: Row)
    requires Got(x, server, log, m.evidenceUrl, f) && Identifies(x, server, log, m, f, artifacts)
    requires row == Verified(x, m, f, artifacts).(available := row.available, failed := !row.available, inspection := row.inspection, chunks := row.chunks)
    requires if row.available then Inspected(x, m, f, row) else row.inspection == None && row.chunks == []
    ensures row.facts.Some? && RowTrue(x, server, log, m, row)
  {
    hide Got, Identifies, Inspected, Recorded, FactsOf;
    ReadingIs(x, m, f);
    assert Claims(x, server, log, m, f, row);
  }

  lemma SpoiledUnusable(x: Rules, server: Server, s: State, log: seq<Url>, m: Mapping, f: Fetch)
    requires Got(x, server, log, m.evidenceUrl, f) && Spoiled(x, server, s, log, m, f)
    ensures Unusable(x, server, s, log, m)
  {
    hide Got, Spoiled;
  }

  lemma UnidentifiedSame(x: Rules, server: Server, s: State, u: State, log: seq<Url>, m: Mapping, f: Fetch)
    requires s.resolverBodies == u.resolverBodies
    ensures Unidentified(x, server, u, log, m, f) <==> Unidentified(x, server, s, log, m, f)
  {
    hide Got, Refused, Reading;
  }

  lemma TextlessSame(x: Rules, s: State, v: State, m: Mapping, f: Fetch)
    requires s.texts == v.texts && s.chunkFiles == v.chunkFiles
    ensures Textless(x, v, m, f) <==> Textless(x, s, m, f)
  {
    hide Reading, ChunkRowsFor, Taken;
  }

  // ---- The pass ----

  /** The claims of every row hold of the calls of the pass; a row that is not available has a reason. */
  ghost predicate PassTrue(x: Rules, server: Server, mappings: seq<Mapping>, s: State, rows: seq<Row>) {
    && |rows| == |mappings|
    && (forall i :: 0 <= i < |mappings| ==> RowTrue(x, server, s.log, mappings[i], rows[i]))
    && (forall i :: 0 <= i < |mappings| ==> mappings[i].evidenceUrl in s.primary || mappings[i].evidenceUrl in s.failures)
    && forall i :: 0 <= i < |mappings| && rows[i].facts.Some? ==> mappings[i].evidenceUrl in s.primary
  }

  lemma ClaimsLater(x: Rules, server: Server, a: seq<Url>, b: seq<Url>, m: Mapping, row: Row)
    requires |a| <= |b| && b[..|a|] == a && RowTrue(x, server, a, m, row)
    ensures RowTrue(x, server, b, m, row)
  {
    hide Got, Inspected, Reading, Recorded;
    GotLater(x, server, a, b, m.evidenceUrl);
    GotLater(x, server, a, b, MapUrl(m.publication));
    GotLater(x, server, a, b, PagesUrl(m.publication));
    if row.facts.Some? {
      var f :| Claims(x, server, a, m, f, row);
      assert Claims(x, server, b, m, f, row);
    }
  }

  lemma {:induction false} PassIsTrue(x: Rules, server: Server, mappings: seq<Mapping>)
    requires forall i :: 0 <= i < |mappings| ==> MappingOk(mappings[i])
    ensures Grounded(x, server, Acquire(x, server, mappings).0)
    ensures PassTrue(x, server, mappings, Acquire(x, server, mappings).0, Acquire(x, server, mappings).1)
  {
    hide Process, RowTrue, Grounded, Unusable, MappingOk;
    if mappings == [] {
      NothingCalled(x, server);
    } else {
      var n := |mappings| - 1;
      var (s, rows) := Acquire(x, server, mappings[..n]);
      PassIsTrue(x, server, mappings[..n]);
      RowExactly(x, server, s, mappings[n]);
      var (t, row) := Process(x, server, s, mappings[n]);
      forall i | 0 <= i < n ensures RowTrue(x, server, t.log, mappings[i], (rows + [row])[i]) {
        assert mappings[..n][i] == mappings[i];
        ClaimsLater(x, server, s.log, t.log, mappings[i], rows[i]);
      }
      forall i | 0 <= i < n
        ensures mappings[i].evidenceUrl in t.primary || mappings[i].evidenceUrl in t.failures
        ensures (rows + [row])[i].facts.Some? ==> mappings[i].evidenceUrl in t.primary
      {
        assert mappings[..n][i] == mappings[i];
      }
    }
  }

  lemma NothingCalled(x: Rules, server: Server)
    ensures Grounded(x, server, EMPTY)
  {
  }

  /** A row asks only for its own URLs. */
  lemma ProcessAsks(x: Rules, server: Server, s: State, m: Mapping)
    ensures forall u :: u in Process(x, server, s, m).0.log ==> u in s.log || u in Needs(m)
  {
    hide FetchOk, Stored, FactsOf, DerivedText, Finish, StoreArtifacts, Identify, Topic, MapFetch, PagesFetch;
    var t := Primary(x, server, s, m).0;
    assert forall u :: u in t.log ==> u in s.log || u in Needs(m);
    forall v, f, artifacts ensures Finish(x, v, m, f, DerivedText(x, m, f), artifacts).0.log == v.log { FinishAsks(x, v, m, f, artifacts); }
    forall v, f ensures forall u :: u in Identify(x, server, v, m, f, DerivedText(x, m, f)).0.log ==> u in v.log || u in Needs(m) {
      IdentifyAsks(x, server, v, m, f);
    }
  }

  lemma FinishAsks(x: Rules, s: State, m: Mapping, f: Fetch, artifacts: seq<Artifact>)
    ensures Finish(x, s, m, f, DerivedText(x, m, f), artifacts).0.log == s.log
  {
    hide DerivedText, FactsOf, Stored, Written, TextChunks;
  }

  lemma IdentifyAsks(x: Rules, server: Server, s: State, m: Mapping, f: Fetch)
    ensures forall u :: u in Identify(x, server, s, m, f, DerivedText(x, m, f)).0.log ==> u in s.log || u in Needs(m)
  {
    hide Topic, FactsOf, DerivedText;
    if m.resolver == AmdTopic { TopicAsks(x, server, s, m); }
  }

  lemma MapAsks(x: Rules, server: Server, s: State, p: string)
    ensures MapFetch(x, server, s, p).0.log in [s.log, s.log + [MapUrl(p)]]
  {
    hide FetchOk;
  }

  lemma PagesAsks(x: Rules, server: Server, s: State, p: string)
    ensures PagesFetch(x, server, s, p).0.log in [s.log, s.log + [PagesUrl(p)]]
  {
    hide FetchOk;
  }

  lemma TopicAsks(x: Rules, server: Server, s: State, m: Mapping)
    requires m.resolver == AmdTopic
    ensures forall u :: u in Topic(x, server, s, m).0.log ==> u in s.log || u in Needs(m)
  {
    hide MapFetch, PagesFetch, StoreArtifacts, Recorded, Clash;
    var (t, mapped) := MapFetch(x, server, s, m.publication);
    MapAsks(x, server, s, m.publication);
    var (v, paged) := PagesFetch(x, server, t, m.publication);
    PagesAsks(x, server, t, m.publication);
    if mapped.Some? && paged.Some? { ArtifactsExactly(x, v, m, mapped.value, paged.value); }
  }

  /** Only evidence URLs, and the map and pages of topics, are ever called for. */
  lemma {:induction false} OnlyNeeded(x: Rules, server: Server, mappings: seq<Mapping>)
    ensures forall u :: u in Acquire(x, server, mappings).0.log ==> exists k :: 0 <= k < |mappings| && u in Needs(mappings[k])
  {
    hide Process, Needs;
    if mappings != [] {
      var n := |mappings| - 1;
      OnlyNeeded(x, server, mappings[..n]);
      AcquireSnoc(x, server, mappings);
      ProcessAsks(x, server, Acquire(x, server, mappings[..n]).0, mappings[n]);
      forall u | u in Acquire(x, server, mappings[..n]).0.log ensures exists k :: 0 <= k < |mappings| && u in Needs(mappings[k]) {
        var k :| 0 <= k < n && u in Needs(mappings[..n][k]);
        assert u in Needs(mappings[k]);
      }
    }
  }

  /** A direct URL is called at most once in a pass, and exactly when it is an evidence URL. */
  lemma PrimaryCalledOnce(x: Rules, server: Server, mappings: seq<Mapping>, text: string)
    requires forall i :: 0 <= i < |mappings| ==> MappingOk(mappings[i])
    ensures var log := Acquire(x, server, mappings).0.log;
      forall i, j :: 0 <= i < |log| && 0 <= j < |log| && log[i] == log[j] == DirectUrl(text) ==> i == j
    ensures DirectUrl(text) in Acquire(x, server, mappings).0.log <==> exists k :: 0 <= k < |mappings| && mappings[k].evidenceUrl == DirectUrl(text)
  {
    hide GroundedTables, RowTrue, MappingOk, Acquire;
    PassIsTrue(x, server, mappings);
    OnlyNeeded(x, server, mappings);
  }

  /** Rows that share a refused evidence URL are all unavailable, with no facts, no text and no artifacts. */
  lemma SharedFailure(x: Rules, server: Server, mappings: seq<Mapping>, text: string, k: nat, i: nat)
    requires forall j :: 0 <= j < |mappings| ==> MappingOk(mappings[j])
    requires var log := Acquire(x, server, mappings).0.log;
      k < |log| && log[k] == DirectUrl(text) && (server(k, log[k]) == None || !Accepted(x, log[k], server(k, log[k]).value))
    requires i < |mappings| && mappings[i].evidenceUrl == DirectUrl(text)
    ensures i < |Acquire(x, server, mappings).1|
    ensures var row := Acquire(x, server, mappings).1[i];
      !row.available && !row.identityVerified && row.facts == None && row.inspection == None && row.chunks == [] && row.artifacts == []
  {
    hide GroundedTables, MappingOk, Identifies, Inspected, Accepted, Acquire;
    PassIsTrue(x, server, mappings);
    PrimaryCalledOnce(x, server, mappings, text);
    var (s, rows) := Acquire(x, server, mappings);
    if rows[i].facts.Some? {
      var f :| Claims(x, server, s.log, mappings[i], f, rows[i]);
      var j :| 0 <= j < |s.log| && s.log[j] == DirectUrl(text) && server(j, DirectUrl(text)) == Some(f) && Accepted(x, DirectUrl(text), f);
      assert false;
    }
  }

  /** The row of a mapping is available unless its URL was refused, or its response could not be stored, read, identified or, when
      text is needed, turned into new chunks. */
  lemma AvailableUnlessUnusable(x: Rules, server: Server, mappings: seq<Mapping>, i: nat)
    requires forall j :: 0 <= j < |mappings| ==> MappingOk(mappings[j])
    requires i < |mappings|
    ensures i < |Acquire(x, server, mappings).1|
    ensures var before, after := Acquire(x, server, mappings[..i]).0, Acquire(x, server, mappings[..i + 1]).0;
      !Acquire(x, server, mappings).1[i].available ==> Unusable(x, server, before, after.log, mappings[i])
  {
    hide Process, Unusable, Grounded, PassTrue, MappingOk;
    forall j | 0 <= j < i ensures MappingOk(mappings[..i][j]) { assert mappings[..i][j] == mappings[j]; }
    PassIsTrue(x, server, mappings[..i]);
    RowExactly(x, server, Acquire(x, server, mappings[..i]).0, mappings[i]);
    AcquireSnoc(x, server, mappings[..i + 1]);
    assert mappings[..i + 1][..i] == mappings[..i] && mappings[..i + 1][i] == mappings[i];
    RowAt(x, server, mappings, i);
  }

  lemma {:induction false} RowAt(x: Rules, server: Server, mappings: seq<Mapping>, i: nat)
    requires i < |mappings|
    ensures |Acquire(x, server, mappings).1| == |mappings|
    ensures Acquire(x, server, mappings).1[i] == Process(x, server, Acquire(x, server, mappings[..i]).0, mappings[i]).1
  {
    hide Process;
    AcquireLength(x, server, mappings);
    AcquireSnoc(x, server, mappings);
    var n := |mappings| - 1;
    AcquireLength(x, server, mappings[..n]);
    if i < n {
      RowAt(x, server, mappings[..n], i);
      assert mappings[..n][..i] == mappings[..i];
    }
  }
}
