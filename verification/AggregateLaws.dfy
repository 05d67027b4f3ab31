/** What stands behind an aggregated result: when there is one, which evidence each verified row rests on, and where each
    issue comes from. */
module AggregateLaws {
  import opened Sequences
  import opened Sorting
  import opened CacheModel
  import opened Surface
  import opened Projection
  import opened Allocation
  import opened ShardResult
  import opened Aggregate
  import opened AggregateOrder
  import opened VerdictLaws

  // ---- From a projected citation to the cache ----

  /** The full citation behind a projected one, with the same standing. */
  predicate StandsFor(f: FullCitation, c: ShardCitation) {
    && f.requestedUrl == c.requestedUrl && f.available == c.available && f.identityVerified == c.identityVerified
    && f.inspectionRequired == c.inspectionRequired && (f.chunks == [] <==> c.chunks == [])
  }

  lemma SelectedStands(full: FullManifest, refs: seq<RuleReference>, url: string, id: string)
    requires SelectCitation(full.citations, refs, url).Some?
    ensures var row, f := SurfaceRow(SelectCitation(full.citations, refs, url).value), FindCitation(full.citations, url);
      && f.Some? && StandsFor(f.value, row)
      && (id in row.referenceIds ==> exists r :: r in refs && r.referenceId == id && r.citationUrl == url)
  {
    hide Sort, AllIn;
    var f := FindCitation(full.citations, url).value;
    var row := SelectCitation(full.citations, refs, url).value;
    if id in SurfaceRow(row).referenceIds {
      SortKeepsMembers(row.referenceIds, ByKey(Self));
      SortKeepsMembers(AssignedIds(refs, url), ByKey(Self));
      AssignedIdIs(refs, url, id);
    }
  }

  lemma AssignedIdIs(refs: seq<RuleReference>, url: string, id: string)
    requires id in AssignedIds(refs, url)
    ensures exists r :: r in refs && r.referenceId == id && r.citationUrl == url
  {
    var picked := Filter((r: RuleReference) => r.citationUrl == url, refs);
    var i :| 0 <= i < |AssignedIds(refs, url)| && AssignedIds(refs, url)[i] == id;
    assert picked[i] in picked && picked[i].referenceId == id;
  }

  /** Each projected citation stands for a cached one, and lists only references of the plan that cite its URL. */
  lemma ProjectedCitation(full: FullManifest, plan: ShardPlan, budget: string, digest: seq<ShardCitation> -> string, m: ShardManifest, c: ShardCitation, id: string)
    requires Project(full, plan, budget, digest) == Some(m) && c in m.citations && id in c.referenceIds
    ensures FindCitation(full.citations, c.requestedUrl).Some? && StandsFor(FindCitation(full.citations, c.requestedUrl).value, c)
    ensures exists r :: r in plan.ruleReferences && r.referenceId == id && r.citationUrl == c.requestedUrl
  {
    hide SelectCitation, SurfaceRow, StandsFor, ProjectFile, SurfaceDigest, AssignedUrls, PlanOk, FullTablesOk, Sort, SurfaceOk;
    var urls := AssignedUrls(plan.ruleReferences);
    var selected := Collect(url => SelectCitation(full.citations, plan.ruleReferences, url), urls).value;
    SortKeepsMembers(MapEach(SurfaceRow, selected), ByKey(Url));
    var k :| 0 <= k < |selected| && MapEach(SurfaceRow, selected)[k] == c;
    assert SelectCitation(full.citations, plan.ruleReferences, urls[k]) == Some(selected[k]);
    SelectedStands(full, plan.ruleReferences, urls[k], id);
    StandsUrl(FindCitation(full.citations, urls[k]).value, c);
  }

  lemma StandsUrl(f: FullCitation, c: ShardCitation)
    requires StandsFor(f, c)
    ensures f.requestedUrl == c.requestedUrl
  {
  }

  lemma ProjectedReferences(full: FullManifest, plan: ShardPlan, budget: string, digest: seq<ShardCitation> -> string, m: ShardManifest)
    requires Project(full, plan, budget, digest) == Some(m)
    ensures DistinctReferences(m.ruleReferences) && forall r :: r in m.ruleReferences <==> r in plan.ruleReferences
    ensures m.assertionIds == SortStrings(plan.assertionIds)
  {
    hide SurfaceRows, SurfaceDigest, Collect, AssignedUrls, Sort, FullTablesOk;
    SortPermutes(plan.ruleReferences, ByKey(ReferenceId));
    SortKeepsMembers(plan.ruleReferences, ByKey(ReferenceId));
    forall i, j | 0 <= i < j < |plan.ruleReferences| ensures ReferenceId(plan.ruleReferences[i]) != ReferenceId(plan.ruleReferences[j]) { }
    DistinctRearranged(plan.ruleReferences, m.ruleReferences, ReferenceId);
    forall i, j | 0 <= i < j < |m.ruleReferences| ensures m.ruleReferences[i].referenceId != m.ruleReferences[j].referenceId {
      assert ReferenceId(m.ruleReferences[i]) != ReferenceId(m.ruleReferences[j]);
    }
  }

  // ---- Rows of rules ----

  /** The cache holds the inspected evidence of a reference. */
  predicate Backed(full: FullManifest, r: Reference) {
    match FindCitation(full.citations, r.url)
    case None => false
    case Some(c) => c.available && c.identityVerified && c.inspectionRequired && c.chunks != []
  }

  /** A row of a rule carries the rule's own surface, and is verified only with every finding and on evidence. */
  predicate RuleRowSound(full: FullManifest, r: Reference, x: CitationResult) {
    && x.referenceId == r.id && x.surface == r.surface
    && (x.verdict == "verified" ==> Found(x) && Backed(full, r))
    && (x.verdict != "verified" ==> x.verdict in ["unavailable", "rejected"] && x.issues != [])
  }

  lemma AnsweredRow(m: ShardManifest, v: ShardVerdict, x: CitationResult)
    requires VerdictOk(v, m) && DistinctReferences(m.ruleReferences) && x in v.citations
    ensures Answers(x, m)
  {
    hide VerdictOk, Answers, JudgesAll, Raised, Clear, DistinctReferences, CitedOnce;
    VerdictExactly(v, m);
    var i :| 0 <= i < |v.citations| && v.citations[i] == x;
  }

  /** The reference of the audit behind a reference of a shard. */
  lemma SharedReference(u: Suite, rows: seq<Reference>, shard: string, p: RuleReference, r: Reference)
    requires NoDuplicates(MapEach(RowId, rows)) && p in SharedOut(rows, u.specs, shard) && r in rows && p.referenceId == r.id
    ensures p == Normalised(r)
  {
    hide Owned, SharedOut, MapEach;
    SharedMembers(rows, u.specs, shard, p);
    var q :| q in rows && Owned(q, u.specs, shard) && p == Normalised(q);
    OneRowAnId(rows, q, r);
  }

  /** A row of a checked verdict, against the audit and the cache. */
  lemma ShardRowSound(u: Suite, full: FullManifest, rows: seq<Reference>, verdicts: seq<ShardVerdict>, shard: string, r: Reference, x: CitationResult)
    requires SuiteOk(u) && NoDuplicates(MapEach(RowId, rows)) && r in rows && x.referenceId == r.id
    requires Checked(u, full, BuildPlan(u, rows), verdicts, shard).Some? && x in Checked(u, full, BuildPlan(u, rows), verdicts, shard).value.citations
    ensures RuleRowSound(full, r, x)
  {
    hide Project, VerdictOk, SharedOut, Found, MapEach, NoDuplicates, Evidenced;
    var plan := BuildPlan(u, rows);
    var m, v := Project(full, plan[shard], u.budget, u.digest).value, VerdictFor(verdicts, shard).value;
    assert plan[shard].ruleReferences == SharedOut(rows, u.specs, shard);
    ProjectedReferences(full, plan[shard], u.budget, u.digest, m);
    AnsweredRow(m, v, x);
    var p :| p in m.ruleReferences && p.referenceId == x.referenceId && p.surfaceSha256 == x.surface;
    SharedReference(u, rows, shard, p, r);
    if x.verdict == "verified" { EvidenceIsBacked(u, full, rows, shard, m, r); }
  }

  lemma EvidenceIsBacked(u: Suite, full: FullManifest, rows: seq<Reference>, shard: string, m: ShardManifest, r: Reference)
    requires SuiteOk(u) && NoDuplicates(MapEach(RowId, rows)) && r in rows && shard in BuildPlan(u, rows)
    requires Project(full, BuildPlan(u, rows)[shard], u.budget, u.digest) == Some(m) && Evidenced(m.citations, r.id)
    ensures Backed(full, r)
  {
    hide Project, SharedOut, MapEach, NoDuplicates;
    var plan := BuildPlan(u, rows)[shard];
    assert plan.ruleReferences == SharedOut(rows, u.specs, shard);
    var c :| c in m.citations && r.id in c.referenceIds && c.available && c.identityVerified && c.inspectionRequired && c.chunks != [];
    ProjectedCitation(full, plan, u.budget, u.digest, m, c, r.id);
    var q :| q in plan.ruleReferences && q.referenceId == r.id && q.citationUrl == c.requestedUrl;
    SharedReference(u, rows, shard, q, r);
  }

  // ---- Rows of documents ----

  /** A document is verified exactly when it was acquired and identified; nothing about it is inspected. */
  predicate DocumentRowSound(full: FullManifest, d: Reference, x: CitationResult) {
    match FindCitation(full.citations, d.url)
    case None => false
    case Some(c) =>
      var verified := c.available && c.identityVerified;
      && x.referenceId == d.id && x.surface == d.surface
      && x.verdict == (if verified then "verified" else if c.available then "rejected" else "unavailable")
      && x.issues == (if verified then [] else if c.available then ["resolver_mismatch"] else ["locator_unavailable"])
      && x.locatorInspected == Some(false) && x.versionMatched == Some(verified)
      && x.sectionMatched == None && x.paraphraseSupported == None && x.applicabilityNotBroader == None
  }

  lemma PairSound(full: FullManifest, documents: seq<Reference>, i: nat)
    requires DocumentRows(full, documents).Some? && i < |DocumentRows(full, documents).value|
    ensures i < |documents| && DocumentRowSound(full, documents[i], DocumentRows(full, documents).value[i].0)
  {
    PairsLength(full, documents);
    PairedRow(full, documents, i);
  }

  lemma DocumentIds(rows: seq<Reference>, d: Reference, r: Reference)
    requires NoDuplicates(MapEach(RowId, rows)) && d in Documents(rows) && r in rows && d.id == r.id
    ensures IsDocument(r) && d == r
  {
    OneRowAnId(rows, d, r);
  }

  lemma RuleIdsChecked(u: Suite, full: FullManifest, rows: seq<Reference>, verdicts: seq<ShardVerdict>, i: nat, x: CitationResult, r: Reference)
    requires SuiteOk(u) && Validated(u, full, BuildPlan(u, rows), verdicts).Some? && i < |u.order|
    requires NoDuplicates(MapEach(RowId, rows)) && r in rows && x.referenceId == r.id
    requires i < |Validated(u, full, BuildPlan(u, rows), verdicts).value| && x in Validated(u, full, BuildPlan(u, rows), verdicts).value[i].citations
    ensures IsRule(r)
  {
    hide Validated, SuiteOk, BuildPlan, NoDuplicates, Owned, MapEach;
    var v := Validated(u, full, BuildPlan(u, rows), verdicts).value[i];
    ValidatedShard(u, full, rows, verdicts, i);
    var k :| 0 <= k < |v.citations| && v.citations[k] == x;
    KeyIs(x);
    assert MapEach(CitationKey, v.citations)[k] == CitationKey(v.citations[k]);
    assert x.referenceId in MapEach(CitationKey, v.citations);
    var q :| q in rows && Owned(q, u.specs, u.order[i]) && q.id == x.referenceId;
    OneRowAnId(rows, q, r);
    OwnedIsRule(q, u.specs, u.order[i]);
  }

  // ---- The result ----

  /** What each row of a result says of its reference. */
  predicate RowSound(full: FullManifest, r: Reference, x: CitationResult) {
    if r.kind == "document" then DocumentRowSound(full, r, x) else RuleRowSound(full, r, x)
  }

  lemma ValidatedRowSound(u: Suite, full: FullManifest, rows: seq<Reference>, verdicts: seq<ShardVerdict>, i: nat, x: CitationResult, r: Reference)
    requires SuiteOk(u) && Validated(u, full, BuildPlan(u, rows), verdicts).Some? && NoDuplicates(MapEach(RowId, rows))
    requires i < |Validated(u, full, BuildPlan(u, rows), verdicts).value| && x in Validated(u, full, BuildPlan(u, rows), verdicts).value[i].citations
    requires r in rows && x.referenceId == r.id
    ensures RowSound(full, r, x)
  {
    hide Checked, SuiteOk, BuildPlan, NoDuplicates, MapEach, RuleRowSound, DocumentRowSound;
    ValidatedLength(u, full, BuildPlan(u, rows), verdicts);
    RuleIdsChecked(u, full, rows, verdicts, i, x, r);
    assert Checked(u, full, BuildPlan(u, rows), verdicts, u.order[i]) == Some(Validated(u, full, BuildPlan(u, rows), verdicts).value[i]);
    ShardRowSound(u, full, rows, verdicts, u.order[i], r, x);
  }

  lemma DocumentedRowSound(full: FullManifest, rows: seq<Reference>, i: nat, r: Reference)
    requires DocumentRows(full, Documents(rows)).Some? && NoDuplicates(MapEach(RowId, rows))
    requires i < |DocumentRows(full, Documents(rows)).value| && r in rows && DocumentRows(full, Documents(rows)).value[i].0.referenceId == r.id
    ensures RowSound(full, r, DocumentRows(full, Documents(rows)).value[i].0)
  {
    hide DocumentRows, Documents, NoDuplicates, MapEach;
    PairSound(full, Documents(rows), i);
    DocumentIds(rows, Documents(rows)[i], r);
  }

  /** Every row of a result is sound for the reference it names. */
  lemma RowsAreSound(u: Suite, full: FullManifest, rows: seq<Reference>, plan: map<string, ShardPlan>, verdicts: seq<ShardVerdict>, snapshot: Snapshot,
                     r: Reference, x: CitationResult)
    requires Aggregated(u, full, rows, plan, verdicts, snapshot).Some?
    requires r in rows && x in Aggregated(u, full, rows, plan, verdicts, snapshot).value.citations && x.referenceId == r.id
    ensures RowSound(full, r, x)
  {
    hide Validated, SuiteOk, BuildPlan, NoDuplicates, MapEach, RowSound, DocumentRows, Documents, RuleRows, Members, AllocationOk, Covers,
      FullTablesOk, UniqueIssues, Sort, AllApproved, AllDocumentsVerified;
    var validated, pairs := Validated(u, full, plan, verdicts).value, DocumentRows(full, Documents(rows)).value;
    RowOrigins(validated, pairs, x);
    if i :| 0 <= i < |validated| && x in validated[i].citations {
      ValidatedRowSound(u, full, rows, verdicts, i, x, r);
    } else {
      var i :| 0 <= i < |pairs| && pairs[i].0 == x;
      DocumentedRowSound(full, rows, i, r);
    }
  }

  lemma RowFor(u: Suite, full: FullManifest, rows: seq<Reference>, plan: map<string, ShardPlan>, verdicts: seq<ShardVerdict>, snapshot: Snapshot,
               r: Reference) returns (k: nat)
    requires Aggregated(u, full, rows, plan, verdicts, snapshot).Some? && r in rows
    ensures var citations := Aggregated(u, full, rows, plan, verdicts, snapshot).value.citations;
      k < |citations| && citations[k].referenceId == r.id
  {
    hide Aggregated, MapEach, Ascending;
    var citations := Aggregated(u, full, rows, plan, verdicts, snapshot).value.citations;
    RowsBijectReferences(u, full, rows, plan, verdicts, snapshot);
    var j :| 0 <= j < |rows| && rows[j] == r;
    assert MapEach(RowId, rows)[j] == RowId(rows[j]);
    assert r.id in Members(MapEach(RowId, rows));
    KeysHave(citations, CitationKey, r.id);
    k :| 0 <= k < |citations| && CitationKey(citations[k]) == r.id;
  }

  /** Approval rests on evidence: the cache holds acquired, identified, inspected text for every rule, and its row has every
      finding, no issue, and the rule's own surface. */
  lemma ApprovalRestsOnEvidence(u: Suite, full: FullManifest, rows: seq<Reference>, plan: map<string, ShardPlan>, verdicts: seq<ShardVerdict>,
                                snapshot: Snapshot, r: Reference)
    requires Aggregated(u, full, rows, plan, verdicts, snapshot).Some? && Aggregated(u, full, rows, plan, verdicts, snapshot).value.approved
    requires r in rows && r.kind == "rule"
    ensures FindCitation(full.citations, r.url).Some?
    ensures var c := FindCitation(full.citations, r.url).value;
      c.available && c.identityVerified && c.inspectionRequired && c.chunks != []
    ensures exists k :: 0 <= k < |Aggregated(u, full, rows, plan, verdicts, snapshot).value.citations| &&
              Aggregated(u, full, rows, plan, verdicts, snapshot).value.citations[k].referenceId == r.id
    ensures forall x :: x in Aggregated(u, full, rows, plan, verdicts, snapshot).value.citations && x.referenceId == r.id ==>
              x.verdict == "verified" && Found(x) && x.surface == r.surface
  {
    hide Aggregated, VerdictFor, AllVerified, Found;
    var citations := Aggregated(u, full, rows, plan, verdicts, snapshot).value.citations;
    ApprovalIsSound(u, full, rows, plan, verdicts, snapshot);
    forall x | x in citations && x.referenceId == r.id
      ensures x.verdict == "verified" && Found(x) && x.surface == r.surface && Backed(full, r)
    {
      RowsAreSound(u, full, rows, plan, verdicts, snapshot, r, x);
      var k :| 0 <= k < |citations| && citations[k] == x;
    }
    var k := RowFor(u, full, rows, plan, verdicts, snapshot, r);
    assert citations[k] in citations;
  }

  // ---- The issues ----

  /** Where an issue of a result comes from: a shard's verdict, or a document that failed. */
  predicate IssueFrom(u: Suite, full: FullManifest, rows: seq<Reference>, verdicts: seq<ShardVerdict>, issue: Issue) {
    || (exists v :: v in verdicts && v.shardId in u.order && issue in v.issues)
    || (exists d :: d in rows && d.kind == "document" && DocumentFailed(full, d, issue))
  }

  /** A document not acquired, or acquired but not identified. */
  predicate DocumentFailed(full: FullManifest, d: Reference, issue: Issue) {
    match FindCitation(full.citations, d.url)
    case None => false
    case Some(c) =>
      || (!c.available && issue == Issue("high", "citation_unavailable"))
      || (c.available && !c.identityVerified && issue == Issue("high", "citation_rejected"))
  }

  lemma VerdictIssuesFrom(u: Suite, full: FullManifest, plan: map<string, ShardPlan>, verdicts: seq<ShardVerdict>, issue: Issue)
    requires Validated(u, full, plan, verdicts).Some? && NoDuplicates(MapEach(ShardOf, verdicts))
    ensures issue in FlatMap(VerdictIssues, Validated(u, full, plan, verdicts).value)
       <==> exists v :: v in verdicts && v.shardId in u.order && issue in v.issues
  {
    hide Project, VerdictOk, NoDuplicates, MapEach;
    var validated := Validated(u, full, plan, verdicts).value;
    FlatMember(VerdictIssues, validated, issue);
    forall i | 0 <= i < |u.order| ensures VerdictFor(verdicts, u.order[i]) == Some(validated[i]) {
      assert Checked(u, full, plan, verdicts, u.order[i]) == Some(validated[i]);
    }
    if i :| 0 <= i < |validated| && issue in validated[i].issues {
      assert validated[i] in verdicts && validated[i].shardId == u.order[i];
    }
    if v :| v in verdicts && v.shardId in u.order && issue in v.issues {
      var i :| 0 <= i < |u.order| && u.order[i] == v.shardId;
      OneVerdict(verdicts, v);
      assert issue in VerdictIssues(validated[i]);
    }
  }

  lemma PairFailed(full: FullManifest, documents: seq<Reference>, i: nat, issue: Issue)
    requires DocumentRows(full, documents).Some? && i < |documents|
    ensures |DocumentRows(full, documents).value| == |documents|
    ensures issue in IssueOf(DocumentRows(full, documents).value[i]) <==> DocumentFailed(full, documents[i], issue)
  {
    PairsLength(full, documents);
    PairedRow(full, documents, i);
  }

  lemma DocumentIssuesFrom(full: FullManifest, rows: seq<Reference>, issue: Issue)
    requires DocumentRows(full, Documents(rows)).Some?
    ensures issue in FlatMap(IssueOf, DocumentRows(full, Documents(rows)).value)
       <==> exists d :: d in rows && d.kind == "document" && DocumentFailed(full, d, issue)
  {
    hide DocumentRows, DocumentFailed, IssueOf;
    var documents, pairs := Documents(rows), DocumentRows(full, Documents(rows)).value;
    FlatMember(IssueOf, pairs, issue);
    PairsLength(full, documents);
    forall i | 0 <= i < |documents| ensures issue in IssueOf(pairs[i]) <==> DocumentFailed(full, documents[i], issue) {
      PairFailed(full, documents, i, issue);
    }
    if i :| 0 <= i < |pairs| && issue in IssueOf(pairs[i]) { assert documents[i] in documents; }
    if d :| d in rows && d.kind == "document" && DocumentFailed(full, d, issue) {
      assert d in documents;
      var i :| 0 <= i < |documents| && documents[i] == d;
    }
  }

  /** The issues of a result are exactly those of the verdicts and of the failing documents, each once, in order. */
  lemma IssuesExactly(u: Suite, full: FullManifest, rows: seq<Reference>, plan: map<string, ShardPlan>, verdicts: seq<ShardVerdict>, snapshot: Snapshot)
    requires Aggregated(u, full, rows, plan, verdicts, snapshot).Some?
    ensures var issues := Aggregated(u, full, rows, plan, verdicts, snapshot).value.issues;
      && (forall issue :: issue in issues <==> IssueFrom(u, full, rows, verdicts, issue))
      && forall i, j :: 0 <= i < j < |issues| ==> IssueBefore(issues[i], issues[j])
  {
    hide Validated, SuiteOk, BuildPlan, NoDuplicates, MapEach, DocumentRows, Documents, RuleRows, Members, AllocationOk, DocumentFailed,
      FullTablesOk, Sort, AllApproved, AllDocumentsVerified, IssueBefore, ReferencesWhole, FlatMap, Distinct, IssueLe;
    var validated, pairs := Validated(u, full, plan, verdicts).value, DocumentRows(full, Documents(rows)).value;
    var raised := FlatMap(VerdictIssues, validated) + FlatMap(IssueOf, pairs);
    UniqueAscend(raised);
    forall issue ensures issue in raised <==> IssueFrom(u, full, rows, verdicts, issue) {
      VerdictIssuesFrom(u, full, plan, verdicts, issue);
      DocumentIssuesFrom(full, rows, issue);
    }
  }

  lemma UniqueAscend(issues: seq<Issue>)
    ensures var r := UniqueIssues(issues);
      && (forall issue :: issue in r <==> issue in issues)
      && forall i, j :: 0 <= i < j < |r| ==> IssueBefore(r[i], r[j])
  {
    hide Sort, IssueLe, DistinctKeys, IssueBefore;
    var d := Distinct(issues);
    var r := Sort(d, IssueLe);
    IssueOrder();
    SortKeepsMembers(d, IssueLe);
    SortPermutes(d, IssueLe);
    SortSorts(d, IssueLe);
    var same := (i: Issue) => i;
    DistinctRearranged(d, r, same);
    forall i, j | 0 <= i < j < |r| ensures IssueBefore(r[i], r[j]) {
      assert IssueLe(r[i], r[j]) && same(r[i]) != same(r[j]);
      StrictlyBefore(r[i], r[j]);
    }
  }

  lemma StrictlyBefore(a: Issue, b: Issue)
    requires IssueLe(a, b) && a != b
    ensures IssueBefore(a, b)
  {
  }

  // ---- When there is a result ----

  /** Each shard of the plan projects, and exactly one verdict answers it, soundly. */
  predicate ShardAnswered(u: Suite, full: FullManifest, plan: map<string, ShardPlan>, verdicts: seq<ShardVerdict>, shard: string) {
    && shard in plan && Project(full, plan[shard], u.budget, u.digest).Some?
    && exists v :: v in verdicts && v.shardId == shard && Sound(v, Project(full, plan[shard], u.budget, u.digest).value)
  }

  predicate ShardsAnswered(u: Suite, full: FullManifest, plan: map<string, ShardPlan>, verdicts: seq<ShardVerdict>) {
    && (forall i, j :: 0 <= i < j < |verdicts| ==> verdicts[i].shardId != verdicts[j].shardId)
    && (forall v :: v in verdicts ==> v.shardId in u.order)
    && forall s :: s in u.order ==> ShardAnswered(u, full, plan, verdicts, s)
  }

  /** The audit has distinct references, rules and documents only, as many of each as the suite has. */
  predicate AuditWhole(u: Suite, rows: seq<Reference>) {
    && (forall i, j :: 0 <= i < j < |rows| ==> rows[i].id != rows[j].id)
    && (forall r :: r in rows ==> r.kind in ["rule", "document"])
    && |Filter((r: Reference) => r.kind == "rule", rows)| == u.ruleCount
    && |Filter((r: Reference) => r.kind == "document", rows)| == u.documentCount
  }

  predicate CacheWhole(full: FullManifest, rows: seq<Reference>) {
    && (forall i, j :: 0 <= i < j < |full.files| ==> full.files[i].path != full.files[j].path)
    && (forall i, j :: 0 <= i < j < |full.citations| ==> full.citations[i].requestedUrl != full.citations[j].requestedUrl)
    && forall d :: d in rows && d.kind == "document" ==> exists c :: c in full.citations && c.requestedUrl == d.url
  }

  lemma CheckedExactly(u: Suite, full: FullManifest, plan: map<string, ShardPlan>, verdicts: seq<ShardVerdict>, shard: string)
    requires NoDuplicates(MapEach(ShardOf, verdicts))
    ensures Checked(u, full, plan, verdicts, shard).Some? <==> ShardAnswered(u, full, plan, verdicts, shard)
  {
    hide Project, VerdictOk, Sound, NoDuplicates, MapEach;
    if shard in plan && Project(full, plan[shard], u.budget, u.digest).Some? {
      var m := Project(full, plan[shard], u.budget, u.digest).value;
      ProjectedReferences(full, plan[shard], u.budget, u.digest, m);
      if Checked(u, full, plan, verdicts, shard).Some? {
        VerdictExactly(VerdictFor(verdicts, shard).value, m);
      }
      if v :| v in verdicts && v.shardId == shard && Sound(v, m) {
        OneVerdict(verdicts, v);
        VerdictExactly(v, m);
      }
    }
  }

  lemma DistinctShards(verdicts: seq<ShardVerdict>)
    ensures NoDuplicates(MapEach(ShardOf, verdicts)) <==> forall i, j :: 0 <= i < j < |verdicts| ==> verdicts[i].shardId != verdicts[j].shardId
  {
    var shards := MapEach(ShardOf, verdicts);
    assert forall i :: 0 <= i < |verdicts| ==> shards[i] == verdicts[i].shardId;
    if NoDuplicates(shards) {
      forall i, j | 0 <= i < j < |verdicts| ensures verdicts[i].shardId != verdicts[j].shardId { assert shards[i] != shards[j]; }
    }
  }

  lemma ShardsAnsweredExactly(u: Suite, full: FullManifest, plan: map<string, ShardPlan>, verdicts: seq<ShardVerdict>)
    ensures Covers(verdicts, u.order) && Validated(u, full, plan, verdicts).Some? <==> ShardsAnswered(u, full, plan, verdicts)
  {
    hide Checked, ShardAnswered, NoDuplicates, MapEach, Members;
    var shards := MapEach(ShardOf, verdicts);
    DistinctShards(verdicts);
    SameMembersExactly(shards, u.order);
    forall s ensures s in shards <==> exists i :: 0 <= i < |verdicts| && verdicts[i].shardId == s { KeysHave(verdicts, ShardOf, s); }
    if NoDuplicates(shards) {
      forall s ensures Checked(u, full, plan, verdicts, s).Some? <==> ShardAnswered(u, full, plan, verdicts, s) { CheckedExactly(u, full, plan, verdicts, s); }
      if forall s :: s in u.order ==> ShardAnswered(u, full, plan, verdicts, s) {
        forall s | s in u.order ensures s in shards { AnsweredHasVerdict(u, full, plan, verdicts, s); }
      }
    }
    EachVerdict(verdicts, u.order);
    EachShard(u, full, plan, verdicts);
  }

  lemma EachVerdict(verdicts: seq<ShardVerdict>, order: seq<string>)
    ensures (forall v :: v in verdicts ==> v.shardId in order) <==> forall i :: 0 <= i < |verdicts| ==> verdicts[i].shardId in order
  {
  }

  lemma EachShard(u: Suite, full: FullManifest, plan: map<string, ShardPlan>, verdicts: seq<ShardVerdict>)
    ensures Validated(u, full, plan, verdicts).Some? <==> forall s :: s in u.order ==> Checked(u, full, plan, verdicts, s).Some?
  {
    hide Checked;
  }

  lemma AnsweredHasVerdict(u: Suite, full: FullManifest, plan: map<string, ShardPlan>, verdicts: seq<ShardVerdict>, shard: string)
    requires ShardAnswered(u, full, plan, verdicts, shard)
    ensures exists i :: 0 <= i < |verdicts| && verdicts[i].shardId == shard
  {
    hide Project, Sound;
    var v :| v in verdicts && v.shardId == shard && Sound(v, Project(full, plan[shard], u.budget, u.digest).value);
    var i :| 0 <= i < |verdicts| && verdicts[i] == v;
  }

  lemma AuditWholeExactly(u: Suite, rows: seq<Reference>)
    ensures ReferencesWhole(rows, u) <==> AuditWhole(u, rows)
  {
    hide Filter;
    var ids := MapEach(RowId, rows);
    assert forall i :: 0 <= i < |rows| ==> ids[i] == rows[i].id;
    if NoDuplicates(ids) {
      forall i, j | 0 <= i < j < |rows| ensures rows[i].id != rows[j].id { assert ids[i] != ids[j]; }
    }
    FilterAgrees(IsRule, (r: Reference) => r.kind == "rule", rows);
    FilterAgrees(IsDocument, (r: Reference) => r.kind == "document", rows);
  }

  lemma {:induction false} FilterAgrees<T(!new)>(p: T -> bool, q: T -> bool, s: seq<T>)
    requires forall x :: p(x) == q(x)
    ensures Filter(p, s) == Filter(q, s)
  {
    if s != [] { FilterAgrees(p, q, s[1..]); }
  }

  lemma CacheWholeExactly(full: FullManifest, rows: seq<Reference>)
    ensures FullTablesOk(full) && DocumentRows(full, Documents(rows)).Some? <==> CacheWhole(full, rows)
  {
    var documents := Documents(rows);
    assert forall d :: d in documents <==> d in rows && d.kind == "document";
    forall d: Reference ensures Documented(full, d).Some? <==> exists c :: c in full.citations && c.requestedUrl == d.url { }
    if DocumentRows(full, documents).Some? {
      forall d | d in rows && d.kind == "document" ensures exists c :: c in full.citations && c.requestedUrl == d.url {
        assert d in documents;
        var i :| 0 <= i < |documents| && documents[i] == d;
        assert Documented(full, documents[i]).Some?;
      }
    }
  }

  /** A result exists exactly when the plan is the audit's own, every shard has one sound verdict, the audit is whole, the cache
      lists every document, and the snapshot follows the protocol; no other guard can refuse. */
  lemma AggregatesExactly(u: Suite, full: FullManifest, rows: seq<Reference>, plan: map<string, ShardPlan>, verdicts: seq<ShardVerdict>, snapshot: Snapshot)
    requires SuiteOk(u)
    ensures Aggregated(u, full, rows, plan, verdicts, snapshot).Some? <==>
      && AllocationOk(rows, u.specs) && plan == BuildPlan(u, rows) && ShardsAnswered(u, full, plan, verdicts)
      && AuditWhole(u, rows) && CacheWhole(full, rows) && snapshot.protocolId == full.protocolId
  {
    hide Aggregated, AllocationOk, BuildPlan, ShardsAnswered, AuditWhole, CacheWhole, Covers, Validated, ReferencesWhole, FullTablesOk,
      DocumentRows, Documents, AllRules, RuleRows, NoDuplicates, MapEach, Members, SuiteOk;
    ClosingGuardsNeverFire(u, full, rows, plan, verdicts, snapshot);
    ShardsAnsweredExactly(u, full, plan, verdicts);
    AuditWholeExactly(u, rows);
    CacheWholeExactly(full, rows);
    if AllocationOk(rows, u.specs) && plan == BuildPlan(u, rows) && Validated(u, full, plan, verdicts).Some? {
      RuleGuardsNeverFire(u, full, rows, verdicts);
    }
  }

  // ---- The plan and the result, field by field ----

  /** The plan has one entry for each shard of the suite: its fixed sources and assertions, and its share of the references. */
  lemma PlanIs(u: Suite, rows: seq<Reference>, shard: string)
    requires SuiteOk(u)
    ensures shard in BuildPlan(u, rows) <==> shard in u.order
    ensures shard in u.order ==>
              var p := BuildPlan(u, rows)[shard];
              && p.shardId == shard && p.sourcePaths == u.sources[shard] && p.assertionIds == u.assertions[shard]
              && p.ruleReferences == SharedOut(rows, u.specs, shard) && p.budgetContract == u.budget
              && p.planSha256 == u.planDigest(map s | s in u.order :: SharedOut(rows, u.specs, s))
  {
    assert Shares(u, rows) == map s | s in u.order :: SharedOut(rows, u.specs, s);
  }

  /** The document was acquired and identified. */
  predicate Acquired(full: FullManifest, d: Reference) {
    exists c :: c in full.citations && c.requestedUrl == d.url && c.available && c.identityVerified
  }

  lemma AcquiredExactly(full: FullManifest, d: Reference)
    requires FullTablesOk(full)
    ensures EvidenceOf(full, d).Some? && DocumentVerified(EvidenceOf(full, d).value) <==> Acquired(full, d)
  {
    if c :| c in full.citations && c.requestedUrl == d.url && c.available && c.identityVerified {
      var f := FindCitation(full.citations, d.url).value;
      var i :| 0 <= i < |full.citations| && full.citations[i] == c;
      var j :| 0 <= j < |full.citations| && full.citations[j] == f;
      var urls := MapEach((c: FullCitation) => c.requestedUrl, full.citations);
      assert urls[i] == urls[j];
    }
  }

  /** The verdicts that are checked are the verdicts given. */
  lemma ValidatedAreGiven(u: Suite, full: FullManifest, plan: map<string, ShardPlan>, verdicts: seq<ShardVerdict>, v: ShardVerdict)
    requires Validated(u, full, plan, verdicts).Some? && Covers(verdicts, u.order)
    ensures (exists i :: 0 <= i < |Validated(u, full, plan, verdicts).value| && Validated(u, full, plan, verdicts).value[i] == v) <==> v in verdicts
  {
    hide Project, VerdictOk, NoDuplicates;
    var validated := Validated(u, full, plan, verdicts).value;
    forall i | 0 <= i < |u.order| ensures VerdictFor(verdicts, u.order[i]) == Some(validated[i]) {
      assert Checked(u, full, plan, verdicts, u.order[i]) == Some(validated[i]);
    }
    if v in verdicts {
      var k :| 0 <= k < |verdicts| && verdicts[k] == v;
      assert MapEach(ShardOf, verdicts)[k] == v.shardId;
      assert v.shardId in Members(MapEach(ShardOf, verdicts));
      assert v.shardId in u.order;
      var i :| 0 <= i < |u.order| && u.order[i] == v.shardId;
      OneVerdict(verdicts, v);
    }
  }

  /** The rows of the result are those of the verdicts, and one for each document. */
  predicate RowsFrom(full: FullManifest, rows: seq<Reference>, verdicts: seq<ShardVerdict>, x: CitationResult) {
    || (exists v :: v in verdicts && x in v.citations)
    || (exists d :: d in rows && d.kind == "document" && DocumentRowSound(full, d, x))
  }

  lemma DocumentRowsFrom(full: FullManifest, rows: seq<Reference>, x: CitationResult)
    requires DocumentRows(full, Documents(rows)).Some?
    ensures (exists i :: 0 <= i < |DocumentRows(full, Documents(rows)).value| && DocumentRows(full, Documents(rows)).value[i].0 == x)
       <==> exists d :: d in rows && d.kind == "document" && DocumentRowSound(full, d, x)
  {
    hide DocumentRows, DocumentRowSound;
    var documents, pairs := Documents(rows), DocumentRows(full, Documents(rows)).value;
    PairsLength(full, documents);
    forall i | 0 <= i < |documents| ensures DocumentRowSound(full, documents[i], pairs[i].0) && documents[i] in rows && documents[i].kind == "document" {
      PairSound(full, documents, i);
      assert documents[i] in documents;
    }
    if d :| d in rows && d.kind == "document" && DocumentRowSound(full, d, x) {
      assert d in documents;
      var i :| 0 <= i < |documents| && documents[i] == d;
      OneDocumentRow(full, d, x, pairs[i].0);
    }
  }

  lemma OneDocumentRow(full: FullManifest, d: Reference, x: CitationResult, y: CitationResult)
    requires DocumentRowSound(full, d, x) && DocumentRowSound(full, d, y)
    ensures x == y
  {
  }

  /** The result repeats the snapshot, approves exactly when every verdict does and every document was acquired and identified,
      and holds exactly the rows of the verdicts and of the documents, by reference ID. */
  lemma ResultExactly(u: Suite, full: FullManifest, rows: seq<Reference>, plan: map<string, ShardPlan>, verdicts: seq<ShardVerdict>, snapshot: Snapshot)
    requires Aggregated(u, full, rows, plan, verdicts, snapshot).Some?
    ensures var r := Aggregated(u, full, rows, plan, verdicts, snapshot).value;
      && r.snapshot == snapshot
      && (r.approved <==> (forall v :: v in verdicts ==> v.approved) && forall d :: d in rows && d.kind == "document" ==> Acquired(full, d))
      && r.summary == (if r.approved then "approved_no_issues" else "rejected_with_controlled_issues")
      && (forall i, j :: 0 <= i < j < |r.citations| ==> StringLt(r.citations[i].referenceId, r.citations[j].referenceId))
      && forall x :: x in r.citations <==> RowsFrom(full, rows, verdicts, x)
  {
    hide Validated, SuiteOk, BuildPlan, NoDuplicates, MapEach, DocumentRows, Documents, RuleRows, Members, AllocationOk, DocumentRowSound, Covers,
      FullTablesOk, Sort, AllApproved, AllDocumentsVerified, ReferencesWhole, UniqueIssues, Acquired, EvidenceOf, DocumentVerified, Ascending;
    var validated, pairs := Validated(u, full, plan, verdicts).value, DocumentRows(full, Documents(rows)).value;
    var r := Aggregated(u, full, rows, plan, verdicts, snapshot).value;
    ResultApproves(u, full, rows, plan, verdicts);
    RowsBijectReferences(u, full, rows, plan, verdicts, snapshot);
    AscendingKeys(r.citations, CitationKey);
    forall x ensures x in r.citations <==> RowsFrom(full, rows, verdicts, x) {
      RowOrigins(validated, pairs, x);
      RuleRowsFrom(u, full, plan, verdicts, x);
      DocumentRowsFrom(full, rows, x);
    }
  }

  lemma RuleRowsFrom(u: Suite, full: FullManifest, plan: map<string, ShardPlan>, verdicts: seq<ShardVerdict>, x: CitationResult)
    requires Validated(u, full, plan, verdicts).Some? && Covers(verdicts, u.order)
    ensures (exists i :: 0 <= i < |Validated(u, full, plan, verdicts).value| && x in Validated(u, full, plan, verdicts).value[i].citations)
       <==> exists v :: v in verdicts && x in v.citations
  {
    hide Validated, Covers;
    var validated := Validated(u, full, plan, verdicts).value;
    forall v ensures (exists i :: 0 <= i < |validated| && validated[i] == v) <==> v in verdicts {
      ValidatedAreGiven(u, full, plan, verdicts, v);
    }
    if v :| v in verdicts && x in v.citations {
      var i :| 0 <= i < |validated| && validated[i] == v;
      assert x in validated[i].citations;
    }
  }

  lemma ResultApproves(u: Suite, full: FullManifest, rows: seq<Reference>, plan: map<string, ShardPlan>, verdicts: seq<ShardVerdict>)
    requires Validated(u, full, plan, verdicts).Some? && Covers(verdicts, u.order) && FullTablesOk(full)
    requires DocumentRows(full, Documents(rows)).Some?
    ensures AllApproved(Validated(u, full, plan, verdicts).value) <==> forall v :: v in verdicts ==> v.approved
    ensures AllDocumentsVerified(DocumentRows(full, Documents(rows)).value) <==>
              forall d :: d in rows && d.kind == "document" ==> Acquired(full, d)
  {
    hide Validated, Covers, DocumentRows, Documents, FullTablesOk, EvidenceOf, DocumentVerified, Acquired, AllDocumentsVerified;
    var validated := Validated(u, full, plan, verdicts).value;
    forall v ensures (exists i :: 0 <= i < |validated| && validated[i] == v) <==> v in verdicts {
      ValidatedAreGiven(u, full, plan, verdicts, v);
    }
    VerifiedDocuments(full, rows);
    forall d ensures EvidenceOf(full, d).Some? && DocumentVerified(EvidenceOf(full, d).value) <==> Acquired(full, d) {
      AcquiredExactly(full, d);
    }
  }
}
