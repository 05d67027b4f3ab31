/** Merging the verdicts of all shards into one result (`aggregate_shard_results`): what approval
    means, why its last guards cannot fire, and why the order of its inputs does not matter. */
module Aggregate {
  import opened Sequences
  import opened Sorting
  import opened CacheModel
  import opened Surface
  import opened Projection
  import opened Allocation
  import opened ShardResult

  /** The fixed tables of a suite, and the digests it binds. */
  datatype Suite = Suite(
    order: seq<string>, specs: SpecTable, sources: map<string, seq<string>>, assertions: map<string, seq<string>>,
    budget: string, ruleCount: nat, documentCount: nat,
    planDigest: map<string, seq<RuleReference>> -> string, digest: seq<ShardCitation> -> string)

  predicate SuiteOk(u: Suite) {
    && TableOk(u.specs, u.order)
    && u.sources.Keys == u.assertions.Keys == Members(u.order)
  }

  /** The snapshot fields the result repeats. */
  datatype Snapshot = Snapshot(protocolId: string, reviewSurface: string, implementationSurface: string, citationAudit: string)

  datatype Result = Result(snapshot: Snapshot, citations: seq<CitationResult>, approved: bool, issues: seq<Issue>, summary: string)

  // ---- The plan ----

  function Shares(u: Suite, rows: seq<Reference>): map<string, seq<RuleReference>> {
    map s | s in u.order :: SharedOut(rows, u.specs, s)
  }

  /** `build_shard_plan`, one entry a shard. */
  function BuildPlan(u: Suite, rows: seq<Reference>): map<string, ShardPlan>
    requires SuiteOk(u)
  {
    map s | s in u.order ::
      ShardPlan(s, u.sources[s], u.assertions[s], Shares(u, rows)[s], u.planDigest(Shares(u, rows)), u.budget)
  }

  // ---- The verdicts ----

  function ShardOf(v: ShardVerdict): string { v.shardId }

  predicate Covers(verdicts: seq<ShardVerdict>, order: seq<string>) {
    NoDuplicates(MapEach(ShardOf, verdicts)) && Members(MapEach(ShardOf, verdicts)) == Members(order)
  }

  function VerdictFor(verdicts: seq<ShardVerdict>, shard: string): (r: Option<ShardVerdict>)
    ensures r.Some? ==> r.value in verdicts && r.value.shardId == shard
    ensures r.None? ==> forall v :: v in verdicts ==> v.shardId != shard
  {
    if verdicts == [] then None
    else if verdicts[0].shardId == shard then Some(verdicts[0])
    else VerdictFor(verdicts[1..], shard)
  }

  function Checked(u: Suite, full: FullManifest, plan: map<string, ShardPlan>, verdicts: seq<ShardVerdict>, shard: string): Option<ShardVerdict> {
    if shard !in plan then None
    else
      match (Project(full, plan[shard], u.budget, u.digest), VerdictFor(verdicts, shard))
      case (Some(m), Some(v)) => if VerdictOk(v, m) then Some(v) else None
      case _ => None
  }

  function Validated(u: Suite, full: FullManifest, plan: map<string, ShardPlan>, verdicts: seq<ShardVerdict>): Option<seq<ShardVerdict>> {
    Collect((s: string) => Checked(u, full, plan, verdicts, s), u.order)
  }

  function VerdictCitations(v: ShardVerdict): seq<CitationResult> { v.citations }

  function VerdictIssues(v: ShardVerdict): seq<Issue> { v.issues }

  function RuleRows(validated: seq<ShardVerdict>): seq<CitationResult> { FlatMap(VerdictCitations, validated) }

  // ---- The references ----

  function RowId(r: Reference): string { r.id }

  predicate IsDocument(r: Reference) { r.kind == "document" }

  function Documents(rows: seq<Reference>): seq<Reference> { Filter(IsDocument, rows) }

  function AllRules(rows: seq<Reference>): seq<Reference> { Filter(IsRule, rows) }

  predicate ReferencesWhole(rows: seq<Reference>, u: Suite) {
    && NoDuplicates(MapEach(RowId, rows))
    && (forall i :: 0 <= i < |rows| ==> IsRule(rows[i]) || IsDocument(rows[i]))
    && |AllRules(rows)| == u.ruleCount && |Documents(rows)| == u.documentCount
  }

  // ---- Documents ----

  predicate DocumentVerified(c: FullCitation) { c.available && c.identityVerified }

  /** `_document_result`, the row. */
  function DocumentRow(r: Reference, c: FullCitation): CitationResult {
    if DocumentVerified(c) then CitationResult(r.id, r.surface, "verified", Some(false), Some(true), None, None, None, [])
    else if !c.available then
      CitationResult(r.id, r.surface, "unavailable", Some(false), Some(false), None, None, None, ["locator_unavailable"])
    else CitationResult(r.id, r.surface, "rejected", Some(false), Some(false), None, None, None, ["resolver_mismatch"])
  }

  /** `_document_result`, the issue it raises. */
  function DocumentIssue(c: FullCitation): seq<Issue> {
    if DocumentVerified(c) then []
    else if !c.available then [Issue("high", "citation_unavailable")]
    else [Issue("high", "citation_rejected")]
  }

  function EvidenceOf(full: FullManifest, r: Reference): Option<FullCitation> { FindCitation(full.citations, r.url) }

  function DocumentRows(full: FullManifest, documents: seq<Reference>): Option<seq<(CitationResult, FullCitation)>> {
    Collect((r: Reference) => Documented(full, r), documents)
  }

  function Documented(full: FullManifest, r: Reference): Option<(CitationResult, FullCitation)> {
    match EvidenceOf(full, r)
    case None => None
    case Some(c) => Some((DocumentRow(r, c), c))
  }

  function RowOf(p: (CitationResult, FullCitation)): CitationResult { p.0 }

  function IssueOf(p: (CitationResult, FullCitation)): seq<Issue> { DocumentIssue(p.1) }

  predicate AllDocumentsVerified(pairs: seq<(CitationResult, FullCitation)>) {
    forall i :: 0 <= i < |pairs| ==> DocumentVerified(pairs[i].1)
  }

  // ---- The result ----

  /** `{(severity, code): row}` read out in key order. */
  function UniqueIssues(issues: seq<Issue>): seq<Issue> { Sort(Distinct(issues), IssueLe) }

  predicate AllApproved(validated: seq<ShardVerdict>) {
    forall i :: 0 <= i < |validated| ==> validated[i].approved
  }

  /** The result before its two closing guards. */
  function Assembled(snapshot: Snapshot, validated: seq<ShardVerdict>, pairs: seq<(CitationResult, FullCitation)>): Result {
    var approved := AllApproved(validated) && AllDocumentsVerified(pairs);
    Result(
      snapshot,
      Sort(RuleRows(validated) + MapEach(RowOf, pairs), ByKey(CitationKey)),
      approved,
      UniqueIssues(FlatMap(VerdictIssues, validated) + FlatMap(IssueOf, pairs)),
      if approved then APPROVED_SUMMARY else REJECTED_SUMMARY)
  }

  /** Everything that can be wrong before the result exists. */
  predicate Admissible(u: Suite, full: FullManifest, rows: seq<Reference>, plan: map<string, ShardPlan>, verdicts: seq<ShardVerdict>, snapshot: Snapshot) {
    && SuiteOk(u) && AllocationOk(rows, u.specs) && plan == BuildPlan(u, rows)
    && Covers(verdicts, u.order)
    && Validated(u, full, plan, verdicts).Some?
    && NoDuplicates(MapEach(CitationKey, RuleRows(Validated(u, full, plan, verdicts).value)))
    && ReferencesWhole(rows, u)
    && Members(MapEach(CitationKey, RuleRows(Validated(u, full, plan, verdicts).value))) == Members(MapEach(RowId, AllRules(rows)))
    && FullTablesOk(full)
    && DocumentRows(full, Documents(rows)).Some?
    && snapshot.protocolId == full.protocolId
  }

  /** The citation inventory is closed, and the issues agree with the verdict. */
  predicate ClosingGuards(r: Result, rows: seq<Reference>) {
    && Members(MapEach(CitationKey, r.citations)) == Members(MapEach(RowId, rows))
    && (r.approved <==> r.issues == [])
  }

  /** `aggregate_shard_results` */
  function Aggregated(u: Suite, full: FullManifest, rows: seq<Reference>, plan: map<string, ShardPlan>, verdicts: seq<ShardVerdict>, snapshot: Snapshot): Option<Result> {
    if !Admissible(u, full, rows, plan, verdicts, snapshot) then None
    else
      var r := Assembled(snapshot, Validated(u, full, plan, verdicts).value, DocumentRows(full, Documents(rows)).value);
      if ClosingGuards(r, rows) then Some(r) else None
  }

  // ---- Dead guards ----

  lemma KeysOfPairs(full: FullManifest, documents: seq<Reference>)
    requires DocumentRows(full, documents).Some?
    ensures MapEach(CitationKey, MapEach(RowOf, DocumentRows(full, documents).value)) == MapEach(RowId, documents)
  {
    var pairs := DocumentRows(full, documents).value;
    forall i | 0 <= i < |documents| ensures pairs[i].0.referenceId == documents[i].id {
      assert Documented(full, documents[i]) == Some(pairs[i]);
    }
  }

  lemma MembersPermute(a: seq<string>, b: seq<string>)
    requires multiset(a) == multiset(b)
    ensures Members(a) == Members(b)
  {
    SameMembers(a, b);
  }

  lemma KeyListed(rows: seq<Reference>, id: string)
    ensures id in Members(MapEach(RowId, rows)) <==> exists r :: r in rows && r.id == id
  {
    if r :| r in rows && r.id == id {
      var i :| 0 <= i < |rows| && rows[i] == r;
      assert MapEach(RowId, rows)[i] == id;
    }
    if id in MapEach(RowId, rows) {
      var i :| 0 <= i < |rows| && MapEach(RowId, rows)[i] == id;
      assert rows[i] in rows;
    }
  }

  lemma RulesAndDocuments(rows: seq<Reference>)
    requires forall i :: 0 <= i < |rows| ==> IsRule(rows[i]) || IsDocument(rows[i])
    ensures Members(MapEach(RowId, AllRules(rows))) + Members(MapEach(RowId, Documents(rows))) == Members(MapEach(RowId, rows))
  {
    hide Members;
    forall id
      ensures id in Members(MapEach(RowId, AllRules(rows))) + Members(MapEach(RowId, Documents(rows)))
         <==> id in Members(MapEach(RowId, rows))
    {
      KeyListed(rows, id);
      KeyListed(AllRules(rows), id);
      KeyListed(Documents(rows), id);
    }
  }

  lemma SortedKeys(all: seq<CitationResult>)
    ensures multiset(MapEach(CitationKey, Sort(all, ByKey(CitationKey)))) == multiset(MapEach(CitationKey, all))
  {
    SortPermutes(all, ByKey(CitationKey));
    MapEachPermutes(CitationKey, Sort(all, ByKey(CitationKey)), all);
  }

  /** The result rows are exactly the audit references. */
  lemma InventoryCloses(u: Suite, full: FullManifest, rows: seq<Reference>, plan: map<string, ShardPlan>, verdicts: seq<ShardVerdict>, snapshot: Snapshot)
    requires Admissible(u, full, rows, plan, verdicts, snapshot)
    ensures var r := Assembled(snapshot, Validated(u, full, plan, verdicts).value, DocumentRows(full, Documents(rows)).value);
      Members(MapEach(CitationKey, r.citations)) == Members(MapEach(RowId, rows))
  {
    hide Members, Validated, DocumentRows, AllRules, Documents, RuleRows, UniqueIssues, FlatMap, AllApproved, AllDocumentsVerified, Sort, Covers, BuildPlan, AllocationOk, SuiteOk;
    var validated, pairs := Validated(u, full, plan, verdicts).value, DocumentRows(full, Documents(rows)).value;
    var ruleRows, docRows := RuleRows(validated), MapEach(RowOf, pairs);
    SortedKeys(ruleRows + docRows);
    MapEachConcat(CitationKey, ruleRows, docRows);
    MembersPermute(MapEach(CitationKey, Sort(ruleRows + docRows, ByKey(CitationKey))), MapEach(CitationKey, ruleRows + docRows));
    MembersConcat(MapEach(CitationKey, ruleRows), MapEach(CitationKey, docRows));
    KeysOfPairs(full, Documents(rows));
    RulesAndDocuments(rows);
  }

  lemma {:induction false} NothingFlat<S, T>(f: S -> seq<T>, s: seq<S>)
    ensures FlatMap(f, s) == [] <==> forall i :: 0 <= i < |s| ==> f(s[i]) == []
  {
    if s != [] { NothingFlat(f, s[1..]); }
  }

  lemma NothingUnique(issues: seq<Issue>)
    ensures UniqueIssues(issues) == [] <==> issues == []
  {
    if issues != [] { assert issues[0] in Distinct(issues); }
  }

  /** A checked verdict is approved exactly when it raises no issue. */
  lemma CheckedVerdict(u: Suite, full: FullManifest, plan: map<string, ShardPlan>, verdicts: seq<ShardVerdict>, i: nat)
    requires Validated(u, full, plan, verdicts).Some? && i < |u.order|
    ensures var v := Validated(u, full, plan, verdicts).value[i];
      && Checked(u, full, plan, verdicts, u.order[i]) == Some(v)
      && u.order[i] in plan && Project(full, plan[u.order[i]], u.budget, u.digest).Some?
      && VerdictOk(v, Project(full, plan[u.order[i]], u.budget, u.digest).value)
      && (v.approved <==> v.issues == [])
      && (v.approved ==> AllVerified(v.assertions) && AllCited(v.citations))
  {
    hide Project, AssertionsOk, CitationsOk, IssuesOk, HeaderOk;
  }

  /** Approval and an empty issue list are the same thing. */
  lemma IssuesDecide(u: Suite, full: FullManifest, rows: seq<Reference>, plan: map<string, ShardPlan>, verdicts: seq<ShardVerdict>, snapshot: Snapshot)
    requires Validated(u, full, plan, verdicts).Some? && DocumentRows(full, Documents(rows)).Some?
    ensures var r := Assembled(snapshot, Validated(u, full, plan, verdicts).value, DocumentRows(full, Documents(rows)).value);
      r.approved <==> r.issues == []
  {
    hide Validated, DocumentRows, Documents, UniqueIssues, FlatMap, Sort, Checked, Project, VerdictOk, RuleRows;
    var validated, pairs := Validated(u, full, plan, verdicts).value, DocumentRows(full, Documents(rows)).value;
    NothingFlat(VerdictIssues, validated);
    NothingFlat(IssueOf, pairs);
    NothingUnique(FlatMap(VerdictIssues, validated) + FlatMap(IssueOf, pairs));
    ValidatedLength(u, full, plan, verdicts);
    forall i | 0 <= i < |validated| ensures validated[i].approved <==> VerdictIssues(validated[i]) == [] {
      CheckedVerdict(u, full, plan, verdicts, i);
    }
    forall i | 0 <= i < |pairs| ensures DocumentVerified(pairs[i].1) <==> IssueOf(pairs[i]) == [] {
    }
  }

  lemma ValidatedLength(u: Suite, full: FullManifest, plan: map<string, ShardPlan>, verdicts: seq<ShardVerdict>)
    requires Validated(u, full, plan, verdicts).Some?
    ensures |Validated(u, full, plan, verdicts).value| == |u.order|
  {
    hide Checked;
  }

  /** The last two guards never fire: aggregation succeeds as soon as its inputs are admissible. */
  lemma ClosingGuardsNeverFire(u: Suite, full: FullManifest, rows: seq<Reference>, plan: map<string, ShardPlan>, verdicts: seq<ShardVerdict>, snapshot: Snapshot)
    ensures Aggregated(u, full, rows, plan, verdicts, snapshot).Some? <==> Admissible(u, full, rows, plan, verdicts, snapshot)
  {
    hide Assembled, Validated, DocumentRows, Members;
    if Admissible(u, full, rows, plan, verdicts, snapshot) {
      InventoryCloses(u, full, rows, plan, verdicts, snapshot);
      IssuesDecide(u, full, rows, plan, verdicts, snapshot);
    }
  }

  // ---- Soundness of approval ----

  /** Every result row came from a checked verdict or a document. */
  lemma RowOrigins(validated: seq<ShardVerdict>, pairs: seq<(CitationResult, FullCitation)>, x: CitationResult)
    ensures x in Sort(RuleRows(validated) + MapEach(RowOf, pairs), ByKey(CitationKey)) <==>
              (exists i :: 0 <= i < |validated| && x in validated[i].citations) || (exists i :: 0 <= i < |pairs| && pairs[i].0 == x)
  {
    var rules, docs := RuleRows(validated), MapEach(RowOf, pairs);
    SortKeepsMembers(rules + docs, ByKey(CitationKey));
    FlatMember(VerdictCitations, validated, x);
    if i :| 0 <= i < |pairs| && pairs[i].0 == x { assert docs[i] == x; }
    if x in docs {
      var i :| 0 <= i < |docs| && docs[i] == x;
      assert pairs[i].0 == x;
    }
  }

  lemma PairedRow(full: FullManifest, documents: seq<Reference>, i: nat)
    requires DocumentRows(full, documents).Some? && i < |documents|
    ensures |DocumentRows(full, documents).value| == |documents|
    ensures EvidenceOf(full, documents[i]) == Some(DocumentRows(full, documents).value[i].1)
    ensures var p := DocumentRows(full, documents).value[i];
      p.0 == DocumentRow(documents[i], p.1) && (p.0.verdict == "verified" <==> DocumentVerified(p.1))
  {
    assert Documented(full, documents[i]) == Some(DocumentRows(full, documents).value[i]);
  }

  lemma ApprovedShards(u: Suite, full: FullManifest, plan: map<string, ShardPlan>, verdicts: seq<ShardVerdict>)
    requires Validated(u, full, plan, verdicts).Some?
    ensures AllApproved(Validated(u, full, plan, verdicts).value) <==>
              forall i :: 0 <= i < |u.order| ==>
                VerdictFor(verdicts, u.order[i]).Some? && VerdictFor(verdicts, u.order[i]).value.approved
  {
    hide Project, VerdictOk;
    var validated := Validated(u, full, plan, verdicts).value;
    forall i | 0 <= i < |u.order| ensures VerdictFor(verdicts, u.order[i]) == Some(validated[i]) {
      assert Checked(u, full, plan, verdicts, u.order[i]) == Some(validated[i]);
    }
  }

  lemma VerifiedDocuments(full: FullManifest, rows: seq<Reference>)
    requires DocumentRows(full, Documents(rows)).Some?
    ensures AllDocumentsVerified(DocumentRows(full, Documents(rows)).value) <==>
              forall d :: d in rows && IsDocument(d) ==> EvidenceOf(full, d).Some? && DocumentVerified(EvidenceOf(full, d).value)
  {
    hide EvidenceOf, DocumentRows, DocumentVerified;
    var documents, pairs := Documents(rows), DocumentRows(full, Documents(rows)).value;
    PairsLength(full, documents);
    forall i | 0 <= i < |documents| ensures EvidenceOf(full, documents[i]) == Some(pairs[i].1) && documents[i] in rows && IsDocument(documents[i]) {
      PairedRow(full, documents, i);
      assert documents[i] in documents;
    }
    forall d | d in rows && IsDocument(d) ensures exists i :: 0 <= i < |documents| && documents[i] == d {
      assert d in documents;
    }
  }

  /** Approval is exactly: every shard approved, and every audited document available with a verified identity. */
  lemma ApprovalExactly(u: Suite, full: FullManifest, rows: seq<Reference>, plan: map<string, ShardPlan>, verdicts: seq<ShardVerdict>, snapshot: Snapshot)
    requires Aggregated(u, full, rows, plan, verdicts, snapshot).Some?
    ensures Aggregated(u, full, rows, plan, verdicts, snapshot).value.approved <==>
              && (forall i :: 0 <= i < |u.order| ==>
                    VerdictFor(verdicts, u.order[i]).Some? && VerdictFor(verdicts, u.order[i]).value.approved)
              && (forall d :: d in rows && IsDocument(d) ==> EvidenceOf(full, d).Some? && DocumentVerified(EvidenceOf(full, d).value))
  {
    hide AllApproved, AllDocumentsVerified, DocumentRows, Documents, EvidenceOf, Validated, ClosingGuards, RuleRows, UniqueIssues, Sort, Members;
    ApprovedShards(u, full, plan, verdicts);
    VerifiedDocuments(full, rows);
  }

  /** An approved result has no issue, every row verified, and every assertion of every shard verified. */
  lemma ApprovalIsSound(u: Suite, full: FullManifest, rows: seq<Reference>, plan: map<string, ShardPlan>, verdicts: seq<ShardVerdict>, snapshot: Snapshot)
    requires Aggregated(u, full, rows, plan, verdicts, snapshot).Some?
    requires Aggregated(u, full, rows, plan, verdicts, snapshot).value.approved
    ensures var r := Aggregated(u, full, rows, plan, verdicts, snapshot).value;
      && r.issues == []
      && (forall i :: 0 <= i < |r.citations| ==> r.citations[i].verdict == "verified")
    ensures forall i :: 0 <= i < |u.order| ==>
              && VerdictFor(verdicts, u.order[i]).Some?
              && AllVerified(VerdictFor(verdicts, u.order[i]).value.assertions)
              && Members(MapEach(AssertionKey, VerdictFor(verdicts, u.order[i]).value.assertions)) == Members(plan[u.order[i]].assertionIds)
  {
    hide Project, VerdictOk, AllocationOk, Covers, NoDuplicates, Members, ReferencesWhole, FullTablesOk, RuleRows, UniqueIssues, Sort, DocumentRows, Documents, BuildPlan, Checked;
    var validated, pairs := Validated(u, full, plan, verdicts).value, DocumentRows(full, Documents(rows)).value;
    var r := Aggregated(u, full, rows, plan, verdicts, snapshot).value;
    forall i | 0 <= i < |u.order|
      ensures VerdictFor(verdicts, u.order[i]) == Some(validated[i])
      ensures AllVerified(validated[i].assertions) && u.order[i] in plan
      ensures Members(MapEach(AssertionKey, validated[i].assertions)) == Members(plan[u.order[i]].assertionIds)
    {
      CheckedVerdict(u, full, plan, verdicts, i);
      CheckedAssertions(u, full, plan, verdicts, u.order[i]);
    }
    forall i | 0 <= i < |r.citations| ensures r.citations[i].verdict == "verified" {
      RowOrigins(validated, pairs, r.citations[i]);
      assert r.citations[i] in r.citations;
      VerifiedOrigin(u, full, rows, plan, verdicts, r.citations[i]);
    }
  }

  lemma CheckedAssertions(u: Suite, full: FullManifest, plan: map<string, ShardPlan>, verdicts: seq<ShardVerdict>, shard: string)
    requires Checked(u, full, plan, verdicts, shard).Some?
    ensures var v := Checked(u, full, plan, verdicts, shard).value;
      && VerdictFor(verdicts, shard) == Some(v)
      && shard in plan && Members(MapEach(AssertionKey, v.assertions)) == Members(plan[shard].assertionIds)
  {
    hide CitationsOk, IssuesOk, HeaderOk, SurfaceRows, SurfaceDigest, Collect, AssignedUrls;
    SortKeepsMembers(plan[shard].assertionIds, ByKey(Self));
  }

  lemma VerifiedOrigin(u: Suite, full: FullManifest, rows: seq<Reference>, plan: map<string, ShardPlan>, verdicts: seq<ShardVerdict>, x: CitationResult)
    requires Validated(u, full, plan, verdicts).Some? && DocumentRows(full, Documents(rows)).Some?
    requires AllApproved(Validated(u, full, plan, verdicts).value) && AllDocumentsVerified(DocumentRows(full, Documents(rows)).value)
    requires || (exists i :: 0 <= i < |Validated(u, full, plan, verdicts).value| && x in Validated(u, full, plan, verdicts).value[i].citations)
             || (exists i :: 0 <= i < |DocumentRows(full, Documents(rows)).value| && DocumentRows(full, Documents(rows)).value[i].0 == x)
    ensures x.verdict == "verified"
  {
    hide Validated, Checked, Project, VerdictOk, DocumentRows, Documents;
    var validated, pairs := Validated(u, full, plan, verdicts).value, DocumentRows(full, Documents(rows)).value;
    ValidatedLength(u, full, plan, verdicts);
    if i :| 0 <= i < |validated| && x in validated[i].citations {
      CheckedVerdict(u, full, plan, verdicts, i);
    } else {
      var i :| 0 <= i < |pairs| && pairs[i].0 == x;
      PairsLength(full, Documents(rows));
      PairedRow(full, Documents(rows), i);
    }
  }

  lemma PairsLength(full: FullManifest, documents: seq<Reference>)
    requires DocumentRows(full, documents).Some?
    ensures |DocumentRows(full, documents).value| == |documents|
  {
  }

  // ---- The loops ----

  lemma VerdictSnoc(verdicts: seq<ShardVerdict>, i: nat)
    requires i < |verdicts|
    ensures MapEach(ShardOf, verdicts[..i + 1]) == MapEach(ShardOf, verdicts[..i]) + [verdicts[i].shardId]
    ensures MapEach(ShardOf, verdicts) == MapEach(ShardOf, verdicts[..i + 1]) + MapEach(ShardOf, verdicts[i + 1..])
  {
    hide MapEach;
    MapEachPrefix(ShardOf, verdicts, i);
    MapEachSplit(ShardOf, verdicts, i + 1);
  }

  /** The verdicts by shard: refused when a shard answers twice. */
  method VerdictTable(verdicts: seq<ShardVerdict>) returns (r: Option<map<string, ShardVerdict>>)
    ensures r.Some? <==> NoDuplicates(MapEach(ShardOf, verdicts))
    ensures r.Some? ==> r.value.Keys == Members(MapEach(ShardOf, verdicts))
    ensures r.Some? ==> forall s :: s in r.value ==> VerdictFor(verdicts, s) == Some(r.value[s])
  {
    hide NoDuplicates, MapEach, VerdictFor;
    var table: map<string, ShardVerdict>, i := map[], 0;
    assert verdicts[..0] == [];
    NoVerdicts();
    while i < |verdicts|
      invariant 0 <= i <= |verdicts|
      invariant NoDuplicates(MapEach(ShardOf, verdicts[..i]))
      invariant table.Keys == Members(MapEach(ShardOf, verdicts[..i]))
      invariant forall s :: s in table ==> table[s] in verdicts && table[s].shardId == s
    {
      var shard := verdicts[i].shardId;
      VerdictSnoc(verdicts, i);
      NoDuplicatesSnoc(MapEach(ShardOf, verdicts[..i]), shard);
      if shard in table {
        if NoDuplicates(MapEach(ShardOf, verdicts)) {
          NoDuplicatesPrefix(MapEach(ShardOf, verdicts[..i + 1]), MapEach(ShardOf, verdicts[i + 1..]));
        }
        return None;
      }
      table := table[shard := verdicts[i]];
      i := i + 1;
    }
    assert verdicts[..i] == verdicts;
    forall s | s in table ensures VerdictFor(verdicts, s) == Some(table[s]) {
      OneVerdict(verdicts, table[s]);
    }
    return Some(table);
  }

  lemma NoVerdicts()
    ensures NoDuplicates(MapEach(ShardOf, [])) && Members(MapEach(ShardOf, [])) == {}
  {
  }

  lemma OneVerdict(verdicts: seq<ShardVerdict>, v: ShardVerdict)
    requires NoDuplicates(MapEach(ShardOf, verdicts)) && v in verdicts
    ensures VerdictFor(verdicts, v.shardId) == Some(v)
  {
    hide MapEach, VerdictFor;
    var found := VerdictFor(verdicts, v.shardId).value;
    var shards := MapEach(ShardOf, verdicts);
    var i :| 0 <= i < |verdicts| && verdicts[i] == v;
    var j :| 0 <= j < |verdicts| && verdicts[j] == found;
    assert shards[i] == ShardOf(v) && shards[j] == ShardOf(found);
  }

  /** Projects and checks the shards in their fixed order, keeping every rule row once. */
  method CheckShards(u: Suite, full: FullManifest, plan: map<string, ShardPlan>, verdicts: seq<ShardVerdict>, table: map<string, ShardVerdict>)
    returns (r: Option<seq<ShardVerdict>>)
    requires SuiteOk(u) && plan.Keys == Members(u.order) == table.Keys
    requires forall s :: s in table ==> VerdictFor(verdicts, s) == Some(table[s])
    ensures r.Some? <==>
      && Validated(u, full, plan, verdicts).Some?
      && NoDuplicates(MapEach(CitationKey, RuleRows(Validated(u, full, plan, verdicts).value)))
    ensures r.Some? ==> r == Validated(u, full, plan, verdicts)
  {
    hide NoDuplicates, VerdictOk, RuleRows, VerdictFor, Checked, Project, MapEach, SuiteOk;
    var validated: seq<ShardVerdict>, i := [], 0;
    NoRuleRows();
    while i < |u.order|
      invariant 0 <= i <= |u.order| && |validated| == i
      invariant forall k :: 0 <= k < i ==> Checked(u, full, plan, verdicts, u.order[k]) == Some(validated[k])
      invariant NoDuplicates(MapEach(CitationKey, RuleRows(validated)))
    {
      var shard := u.order[i];
      assert shard in Members(u.order);
      CheckedBy(u, full, plan, verdicts, shard);
      var projection := Project(full, plan[shard], u.budget, u.digest);
      if projection == None {
        UncheckedShard(u, full, plan, verdicts, i);
        return None;
      }
      var checked := ValidateShardResult(table[shard], projection.value);
      if checked == None {
        UncheckedShard(u, full, plan, verdicts, i);
        return None;
      }
      var ok := AddRuleRows(validated, checked.value);
      if !ok {
        RepeatedRuleRows(u, full, plan, verdicts, validated + [checked.value]);
        return None;
      }
      validated := validated + [checked.value];
      i := i + 1;
    }
    CollectIs((s: string) => Checked(u, full, plan, verdicts, s), u.order, validated);
    return Some(validated);
  }

  lemma CheckedBy(u: Suite, full: FullManifest, plan: map<string, ShardPlan>, verdicts: seq<ShardVerdict>, shard: string)
    requires shard in plan && VerdictFor(verdicts, shard).Some?
    ensures var m := Project(full, plan[shard], u.budget, u.digest);
      Checked(u, full, plan, verdicts, shard) ==
        if m.Some? && VerdictOk(VerdictFor(verdicts, shard).value, m.value) then VerdictFor(verdicts, shard) else None
  {
    hide Project, VerdictOk, VerdictFor;
  }

  lemma NoRuleRows()
    ensures NoDuplicates(MapEach(CitationKey, RuleRows([])))
  {
  }

  lemma UncheckedShard(u: Suite, full: FullManifest, plan: map<string, ShardPlan>, verdicts: seq<ShardVerdict>, i: nat)
    requires i < |u.order| && Checked(u, full, plan, verdicts, u.order[i]) == None
    ensures Validated(u, full, plan, verdicts) == None
  {
    hide Checked;
  }

  /** Rows already repeated stay repeated. */
  lemma RepeatedRuleRows(u: Suite, full: FullManifest, plan: map<string, ShardPlan>, verdicts: seq<ShardVerdict>, front: seq<ShardVerdict>)
    requires |front| <= |u.order| && !NoDuplicates(MapEach(CitationKey, RuleRows(front)))
    requires forall k :: 0 <= k < |front| ==> Checked(u, full, plan, verdicts, u.order[k]) == Some(front[k])
    ensures Validated(u, full, plan, verdicts).Some? ==>
              !NoDuplicates(MapEach(CitationKey, RuleRows(Validated(u, full, plan, verdicts).value)))
  {
    hide Checked, NoDuplicates;
    if Validated(u, full, plan, verdicts).Some? {
      var all := Validated(u, full, plan, verdicts).value;
      forall k | 0 <= k < |front| ensures all[k] == front[k] {
        assert Checked(u, full, plan, verdicts, u.order[k]) == Some(all[k]);
      }
      assert all == front + all[|front|..];
      FlatMapConcat(VerdictCitations, front, all[|front|..]);
      MapEachConcat(CitationKey, RuleRows(front), RuleRows(all[|front|..]));
      if NoDuplicates(MapEach(CitationKey, RuleRows(all))) {
        NoDuplicatesPrefix(MapEach(CitationKey, RuleRows(front)), MapEach(CitationKey, RuleRows(all[|front|..])));
      }
    }
  }

  method AddRuleRows(validated: seq<ShardVerdict>, v: ShardVerdict) returns (ok: bool)
    requires NoDuplicates(MapEach(CitationKey, RuleRows(validated)))
    ensures ok <==> NoDuplicates(MapEach(CitationKey, RuleRows(validated + [v])))
  {
    hide NoDuplicates, MapEach, RuleRows;
    RowsAfter(validated, v);
    ok := AddKeys(MapEach(CitationKey, RuleRows(validated)), MapEach(CitationKey, v.citations));
  }

  lemma RowsAfter(validated: seq<ShardVerdict>, v: ShardVerdict)
    ensures MapEach(CitationKey, RuleRows(validated + [v])) == MapEach(CitationKey, RuleRows(validated)) + MapEach(CitationKey, v.citations)
  {
    hide MapEach;
    FlatMapSnoc(VerdictCitations, validated, v);
    MapEachConcat(CitationKey, RuleRows(validated), v.citations);
  }

  method AddKeys(before: seq<string>, keys: seq<string>) returns (ok: bool)
    requires NoDuplicates(before)
    ensures ok <==> NoDuplicates(before + keys)
  {
    hide NoDuplicates;
    var seen, i := Members(before), 0;
    assert before + keys[..0] == before;
    while i < |keys|
      invariant 0 <= i <= |keys|
      invariant NoDuplicates(before + keys[..i]) && seen == Members(before + keys[..i])
    {
      NoDuplicatesSnoc(before + keys[..i], keys[i]);
      assert before + keys[..i + 1] == before + keys[..i] + [keys[i]];
      if keys[i] in seen {
        assert before + keys == before + keys[..i + 1] + keys[i + 1..];
        if NoDuplicates(before + keys) { NoDuplicatesPrefix(before + keys[..i + 1], keys[i + 1..]); }
        return false;
      }
      seen := seen + {keys[i]};
      i := i + 1;
    }
    assert keys[..i] == keys;
    ok := true;
  }

  /** Splits the audit into rules and documents, refusing repeats and unknown kinds. */
  method SplitReferences(rows: seq<Reference>, u: Suite) returns (r: Option<(seq<Reference>, seq<Reference>)>)
    ensures r.Some? <==> ReferencesWhole(rows, u)
    ensures r.Some? ==> r.value == (AllRules(rows), Documents(rows))
  {
    hide NoDuplicates, Filter, MapEach, Members, AllRules, Documents;
    var seen: set<string>, rules: seq<Reference>, documents: seq<Reference>, i := {}, [], [], 0;
    assert rows[..0] == [];
    NothingSplit();
    while i < |rows|
      invariant 0 <= i <= |rows|
      invariant NoDuplicates(MapEach(RowId, rows[..i])) && seen == Members(MapEach(RowId, rows[..i]))
      invariant rules == AllRules(rows[..i]) && documents == Documents(rows[..i])
      invariant forall k :: 0 <= k < i ==> IsRule(rows[k]) || IsDocument(rows[k])
    {
      IdsSnoc(rows, i);
      SplitSnoc(rows, i);
      NoDuplicatesSnoc(MapEach(RowId, rows[..i]), rows[i].id);
      MembersHas(MapEach(RowId, rows[..i]), rows[i].id);
      if rows[i].id in seen {
        if NoDuplicates(MapEach(RowId, rows)) { NoDuplicatesPrefix(MapEach(RowId, rows[..i + 1]), MapEach(RowId, rows[i + 1..])); }
        return None;
      }
      MembersSnoc(MapEach(RowId, rows[..i]), rows[i].id);
      seen := seen + {rows[i].id};
      if rows[i].kind == "document" {
        documents := documents + [rows[i]];
      } else if rows[i].kind == "rule" {
        rules := rules + [rows[i]];
      } else {
        return None;
      }
      i := i + 1;
    }
    assert rows[..i] == rows;
    if |rules| != u.ruleCount || |documents| != u.documentCount { return None; }
    return Some((rules, documents));
  }

  lemma NothingSplit()
    ensures NoDuplicates(MapEach(RowId, [])) && Members(MapEach(RowId, [])) == {} && AllRules([]) == [] && Documents([]) == []
  {
  }

  lemma IdsSnoc(rows: seq<Reference>, i: nat)
    requires i < |rows|
    ensures MapEach(RowId, rows[..i + 1]) == MapEach(RowId, rows[..i]) + [rows[i].id]
    ensures MapEach(RowId, rows) == MapEach(RowId, rows[..i + 1]) + MapEach(RowId, rows[i + 1..])
  {
    hide MapEach;
    MapEachPrefix(RowId, rows, i);
    MapEachSplit(RowId, rows, i + 1);
  }

  lemma SplitSnoc(rows: seq<Reference>, i: nat)
    requires i < |rows|
    ensures AllRules(rows[..i + 1]) == AllRules(rows[..i]) + if IsRule(rows[i]) then [rows[i]] else []
    ensures Documents(rows[..i + 1]) == Documents(rows[..i]) + if IsDocument(rows[i]) then [rows[i]] else []
  {
    hide Filter;
    assert rows[..i + 1] == rows[..i] + [rows[i]];
    FilterSnoc(IsRule, rows[..i], rows[i]);
    FilterSnoc(IsDocument, rows[..i], rows[i]);
  }

  /** The document rows, in audit order. */
  method DocumentResults(full: FullManifest, documents: seq<Reference>)
    returns (r: Option<seq<(CitationResult, FullCitation)>>, verified: bool, issues: seq<Issue>)
    ensures r == DocumentRows(full, documents)
    ensures r.Some? ==> verified == AllDocumentsVerified(r.value) && issues == FlatMap(IssueOf, r.value)
  {
    hide EvidenceOf, DocumentVerified;
    var pairs: seq<(CitationResult, FullCitation)>, i := [], 0;
    verified, issues := true, [];
    while i < |documents|
      invariant 0 <= i <= |documents| && |pairs| == i
      invariant forall k :: 0 <= k < i ==> Documented(full, documents[k]) == Some(pairs[k])
      invariant verified == AllDocumentsVerified(pairs) && issues == FlatMap(IssueOf, pairs)
    {
      var evidence := EvidenceOf(full, documents[i]);
      if evidence == None { return None, verified, issues; }
      var pair := (DocumentRow(documents[i], evidence.value), evidence.value);
      FlatMapSnoc(IssueOf, pairs, pair);
      verified := verified && DocumentVerified(evidence.value);
      issues := issues + DocumentIssue(evidence.value);
      VerifiedSnoc(pairs, pair);
      pairs := pairs + [pair];
      i := i + 1;
    }
    CollectIs((r: Reference) => Documented(full, r), documents, pairs);
    return Some(pairs), verified, issues;
  }

  lemma VerifiedSnoc(pairs: seq<(CitationResult, FullCitation)>, pair: (CitationResult, FullCitation))
    ensures AllDocumentsVerified(pairs + [pair]) <==> AllDocumentsVerified(pairs) && DocumentVerified(pair.1)
  {
    var all := pairs + [pair];
    assert all[|pairs|] == pair && forall i :: 0 <= i < |pairs| ==> all[i] == pairs[i];
  }

  method AggregateShardResults(u: Suite, full: FullManifest, rows: seq<Reference>, plan: map<string, ShardPlan>,
                               verdicts: seq<ShardVerdict>, snapshot: Snapshot)
    returns (r: Option<Result>)
    requires SuiteOk(u)
    ensures r == Aggregated(u, full, rows, plan, verdicts, snapshot)
  {
    hide AllocationOk, NoDuplicates, Validated, DocumentRows, RuleRows, ReferencesWhole, FullTablesOk, Members, UniqueIssues, Sort,
      AllDocumentsVerified, FlatMap, SharedOut, Documents, AllRules;
    var shares := AllocateRuleReferences(rows, u.specs, u.order);
    if shares == None { return None; }
    if plan != BuildPlan(u, rows) { return None; }
    var table := VerdictTable(verdicts);
    if table == None || table.value.Keys != Members(u.order) { return None; }
    PlanKeys(u, rows);
    var validated := CheckShards(u, full, plan, verdicts, table.value);
    if validated == None { return None; }
    var split := SplitReferences(rows, u);
    if split == None { return None; }
    var ruleRows := RuleRows(validated.value);
    if Members(MapEach(CitationKey, ruleRows)) != Members(MapEach(RowId, split.value.0)) || !FullTablesOk(full) { return None; }
    var pairs, documentsVerified, issues := DocumentResults(full, split.value.1);
    if pairs == None || snapshot.protocolId != full.protocolId { return None; }
    var approved := AllApproved(validated.value) && documentsVerified;
    var result := Result(
      snapshot, Sort(ruleRows + MapEach(RowOf, pairs.value), ByKey(CitationKey)), approved,
      UniqueIssues(FlatMap(VerdictIssues, validated.value) + issues),
      if approved then APPROVED_SUMMARY else REJECTED_SUMMARY);
    if Members(MapEach(CitationKey, result.citations)) != Members(MapEach(RowId, rows)) { return None; }
    if result.approved != (result.issues == []) { return None; }
    return Some(result);
  }

  lemma PlanKeys(u: Suite, rows: seq<Reference>)
    requires SuiteOk(u)
    ensures BuildPlan(u, rows).Keys == Members(u.order)
  {
    hide SharedOut;
  }
}
