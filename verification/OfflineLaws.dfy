/** The offline fetcher against the rows it was built from: when it exists, and what it answers to each URL. */
module OfflineLaws {
  import opened Sequences
  import opened Utf8
  import opened Acquisition
  import opened OfflineReplay

  /** The response that recorded facts stand for: the stored body, as UTF-8 unless it is a PDF. */
  predicate Answer(x: Rules, facts: Facts, files: map<string, Bytes>, f: Fetch) {
    && facts.bodySha256 in files && f.body == files[facts.bodySha256]
    && f.status == facts.status && f.finalUrl == facts.finalUrl && f.redirectChain == facts.redirectChain
    && f.contentType == facts.contentType && f.contentLength == Some(|f.body|)
    && f.charset == if x.fold(facts.contentType) == "application/pdf" then None else Some("utf-8")
  }

  predicate ArtifactsSay(x: Rules, artifacts: seq<Artifact>, files: map<string, Bytes>, url: Url, f: Fetch) {
    exists k :: 0 <= k < |artifacts| && artifacts[k].requestedUrl == url && Answer(x, artifacts[k].facts, files, f)
  }

  /** The row records this response to this URL, as its evidence or for its resolver. */
  predicate RowSays(x: Rules, row: Row, s: State, url: Url, f: Fetch) {
    || (row.facts.Some? && row.evidenceUrl == url && Answer(x, row.facts.value, s.bodies, f))
    || ArtifactsSay(x, row.artifacts, s.resolverBodies, url, f)
  }

  predicate RowsSay(x: Rules, rows: seq<Row>, s: State, url: Url, f: Fetch) {
    exists i :: 0 <= i < |rows| && RowSays(x, rows[i], s, url, f)
  }

  predicate ArtifactsHeld(artifacts: seq<Artifact>, files: map<string, Bytes>) {
    forall k :: 0 <= k < |artifacts| ==> artifacts[k].facts.bodySha256 in files
  }

  /** The row has a response, and the bodies of all its responses are stored. */
  predicate RowHeld(row: Row, s: State) {
    row.facts.Some? && row.facts.value.bodySha256 in s.bodies && ArtifactsHeld(row.artifacts, s.resolverBodies)
  }

  predicate In(t: Table, url: Url, f: Fetch) { url in t && t[url] == f }

  /** The table has the response, or `says` adds it. */
  predicate Has(t: Table, says: (Url, Fetch) -> bool, url: Url, f: Fetch) { In(t, url, f) || says(url, f) }

  /** Adding the responses `says` to `t`: possible when the bodies are held and no URL gets two, and then it adds just those. */
  ghost predicate Adds(t: Table, r: Option<Table>, held: bool, says: (Url, Fetch) -> bool) {
    && (r.Some? <==> held && forall url, f, g :: Has(t, says, url, f) && Has(t, says, url, g) ==> f == g)
    && (r.Some? ==> forall url, f :: In(r.value, url, f) <==> Has(t, says, url, f))
  }

  /** Adding in two steps. */
  lemma AddsBoth(t: Table, u: Option<Table>, r: Option<Table>, held: bool, also: bool, says: (Url, Fetch) -> bool, more: (Url, Fetch) -> bool,
                 both: (Url, Fetch) -> bool)
    requires Adds(t, u, held, says) && (u == None ==> r == None) && (u.Some? ==> Adds(u.value, r, also, more))
    requires forall url, f :: both(url, f) <==> says(url, f) || more(url, f)
    ensures Adds(t, r, held && also, both)
  {
    forall url, f ensures Has(t, both, url, f) <==> Has(t, says, url, f) || more(url, f) { }
    if u.Some? {
      forall url, f ensures Has(u.value, more, url, f) <==> Has(t, both, url, f) { }
    }
  }

  lemma AddsSame(t: Table, r: Option<Table>, held: bool, same: bool, says: (Url, Fetch) -> bool, other: (Url, Fetch) -> bool)
    requires Adds(t, r, held, says) && (held <==> same) && forall url, f :: says(url, f) <==> other(url, f)
    ensures Adds(t, r, same, other)
  {
    forall url, f ensures Has(t, says, url, f) <==> Has(t, other, url, f) { }
  }

  lemma FactsAdd(x: Rules, t: Table, url: Url, facts: Facts, files: map<string, Bytes>)
    ensures Adds(t, RegisterFacts(x, t, url, facts, files), facts.bodySha256 in files, (u: Url, f: Fetch) => u == url && Answer(x, facts, files, f))
  {
    forall f ensures Answer(x, facts, files, f) <==> facts.bodySha256 in files && f == FrozenFetch(x, facts, files[facts.bodySha256]) { }
    if facts.bodySha256 in files {
      OneAdds(t, url, FrozenFetch(x, facts, files[facts.bodySha256]), (u: Url, f: Fetch) => u == url && Answer(x, facts, files, f));
    }
  }

  lemma OneAdds(t: Table, url: Url, f: Fetch, says: (Url, Fetch) -> bool)
    requires forall u, g :: says(u, g) <==> u == url && g == f
    ensures Adds(t, Register(t, url, f), true, says)
  {
    assert Has(t, says, url, f);
    if url in t && t[url] != f {
      assert Has(t, says, url, t[url]);
    }
  }

  lemma {:induction false} ArtifactsAdd(x: Rules, t: Table, artifacts: seq<Artifact>, files: map<string, Bytes>)
    ensures Adds(t, RegisterArtifacts(x, t, artifacts, files), ArtifactsHeld(artifacts, files), (u: Url, f: Fetch) => ArtifactsSay(x, artifacts, files, u, f))
  {
    hide Answer, RegisterFacts, Adds;
    if artifacts == [] {
      NothingAdded(t, (u: Url, f: Fetch) => ArtifactsSay(x, artifacts, files, u, f));
      assert ArtifactsHeld(artifacts, files);
    } else {
      var front, last := artifacts[..|artifacts| - 1], artifacts[|artifacts| - 1];
      ArtifactsAdd(x, t, front, files);
      var u := RegisterArtifacts(x, t, front, files);
      if u.Some? { FactsAdd(x, u.value, last.requestedUrl, last.facts, files); }
      var both := (u: Url, f: Fetch) => ArtifactsSay(x, artifacts, files, u, f);
      forall url, f ensures both(url, f) <==> ArtifactsSay(x, front, files, url, f) || (url == last.requestedUrl && Answer(x, last.facts, files, f)) {
        ArtifactsSnoc(x, artifacts, files, url, f);
      }
      AddsBoth(t, u, RegisterArtifacts(x, t, artifacts, files), ArtifactsHeld(front, files), last.facts.bodySha256 in files,
               (u: Url, f: Fetch) => ArtifactsSay(x, front, files, u, f), (u: Url, f: Fetch) => u == last.requestedUrl && Answer(x, last.facts, files, f), both);
      AddsSame(t, RegisterArtifacts(x, t, artifacts, files), ArtifactsHeld(front, files) && last.facts.bodySha256 in files, ArtifactsHeld(artifacts, files), both, both);
    }
  }

  lemma NothingAdded(t: Table, says: (Url, Fetch) -> bool)
    requires forall url, f :: !says(url, f)
    ensures Adds(t, Some(t), true, says)
  {
  }

  lemma ArtifactsSnoc(x: Rules, artifacts: seq<Artifact>, files: map<string, Bytes>, url: Url, f: Fetch)
    requires artifacts != []
    ensures var front, last := artifacts[..|artifacts| - 1], artifacts[|artifacts| - 1];
      ArtifactsSay(x, artifacts, files, url, f) <==> ArtifactsSay(x, front, files, url, f) || (url == last.requestedUrl && Answer(x, last.facts, files, f))
  {
    hide Answer;
    var front := artifacts[..|artifacts| - 1];
    if k :| 0 <= k < |front| && front[k].requestedUrl == url && Answer(x, front[k].facts, files, f) {
      assert artifacts[k] == front[k];
    }
    if k :| 0 <= k < |artifacts| && artifacts[k].requestedUrl == url && Answer(x, artifacts[k].facts, files, f) {
      if k < |front| { assert artifacts[k] == front[k]; }
    }
  }

  lemma RowAdds(x: Rules, t: Table, row: Row, s: State)
    ensures Adds(t, RegisterRow(x, t, row, s), RowHeld(row, s), (u: Url, f: Fetch) => RowSays(x, row, s, u, f))
  {
    hide Answer, RegisterFacts, RegisterArtifacts, ArtifactsHeld, ArtifactsSay;
    var says := (u: Url, f: Fetch) => RowSays(x, row, s, u, f);
    if row.facts.Some? {
      hide Adds;
      var facts := row.facts.value;
      FactsAdd(x, t, row.evidenceUrl, facts, s.bodies);
      var u := RegisterFacts(x, t, row.evidenceUrl, facts, s.bodies);
      if u.Some? { ArtifactsAdd(x, u.value, row.artifacts, s.resolverBodies); }
      AddsBoth(t, u, RegisterRow(x, t, row, s), facts.bodySha256 in s.bodies, ArtifactsHeld(row.artifacts, s.resolverBodies),
               (u: Url, f: Fetch) => u == row.evidenceUrl && Answer(x, facts, s.bodies, f),
               (u: Url, f: Fetch) => ArtifactsSay(x, row.artifacts, s.resolverBodies, u, f), says);
      AddsSame(t, RegisterRow(x, t, row, s), facts.bodySha256 in s.bodies && ArtifactsHeld(row.artifacts, s.resolverBodies), RowHeld(row, s), says, says);
    }
  }

  lemma {:induction false} RowsAdd(x: Rules, rows: seq<Row>, s: State)
    ensures Adds(map[], RegisterRows(x, rows, s), forall i :: 0 <= i < |rows| ==> RowHeld(rows[i], s), (u: Url, f: Fetch) => RowsSay(x, rows, s, u, f))
  {
    hide RowSays, RegisterRow, Adds, RowHeld;
    if rows == [] {
      NothingAdded(map[], (u: Url, f: Fetch) => RowsSay(x, rows, s, u, f));
    } else {
      var front, last := rows[..|rows| - 1], rows[|rows| - 1];
      RowsAdd(x, front, s);
      var u := RegisterRows(x, front, s);
      if u.Some? { RowAdds(x, u.value, last, s); }
      var both := (u: Url, f: Fetch) => RowsSay(x, rows, s, u, f);
      forall url, f ensures both(url, f) <==> RowsSay(x, front, s, url, f) || RowSays(x, last, s, url, f) {
        RowsSnoc(x, rows, s, url, f);
      }
      AddsBoth(map[], u, RegisterRows(x, rows, s), forall i :: 0 <= i < |front| ==> RowHeld(front[i], s), RowHeld(last, s),
               (u: Url, f: Fetch) => RowsSay(x, front, s, u, f), (u: Url, f: Fetch) => RowSays(x, last, s, u, f), both);
      AddsSame(map[], RegisterRows(x, rows, s), (forall i :: 0 <= i < |front| ==> RowHeld(front[i], s)) && RowHeld(last, s),
               forall i :: 0 <= i < |rows| ==> RowHeld(rows[i], s), both, both);
    }
  }

  lemma RowsSnoc(x: Rules, rows: seq<Row>, s: State, url: Url, f: Fetch)
    requires rows != []
    ensures RowsSay(x, rows, s, url, f) <==> RowsSay(x, rows[..|rows| - 1], s, url, f) || RowSays(x, rows[|rows| - 1], s, url, f)
  {
    hide RowSays;
    var front := rows[..|rows| - 1];
    if i :| 0 <= i < |front| && RowSays(x, front[i], s, url, f) { assert rows[i] == front[i]; }
    if i :| 0 <= i < |rows| && RowSays(x, rows[i], s, url, f) {
      if i < |front| { assert rows[i] == front[i]; }
    }
  }

  /** The offline fetcher exists exactly when every row has a response, all bodies are stored, and no URL has two responses; it
      then answers a URL with the one recorded for it, and no other URL, however often it is asked. */
  lemma FetcherExactly(x: Rules, rows: seq<Row>, s: State)
    ensures RegisterRows(x, rows, s).Some? <==>
      && (forall i :: 0 <= i < |rows| ==> RowHeld(rows[i], s))
      && forall url, f, g :: RowsSay(x, rows, s, url, f) && RowsSay(x, rows, s, url, g) ==> f == g
    ensures RegisterRows(x, rows, s).Some? ==>
              forall n, url, f :: Offline(RegisterRows(x, rows, s).value)(n, url) == Some(f) <==> RowsSay(x, rows, s, url, f)
  {
    hide RowsSay, RowHeld, RegisterRows;
    RowsAdd(x, rows, s);
    var says := (u: Url, f: Fetch) => RowsSay(x, rows, s, u, f);
    forall url, f ensures Has(map[], says, url, f) <==> RowsSay(x, rows, s, url, f) { }
  }
}
