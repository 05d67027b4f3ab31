/** Validating one shard verdict against the shard it answers (`validate_shard_result`). */
module ShardResult {
  import opened Sequences
  import opened Sorting
  import opened CacheModel
  import opened Surface
  import opened Projection

  const SHARD_RESULT_SCHEMA_VERSION := "hlsgraph.knowledge-review.shard-result.v1"
  const APPROVED_SUMMARY := "approved_no_issues"
  const REJECTED_SUMMARY := "rejected_with_controlled_issues"
  const CONTROLLED_ASSERTION_ISSUES := {"assertion_rejected", "evidence_incomplete", "contract_violation"}
  const CONTROLLED_CITATION_ISSUES := {
    "locator_unavailable", "resolver_mismatch", "version_mismatch", "section_mismatch",
    "paraphrase_unsupported", "applicability_too_broad", "inspection_incomplete"}
  const CONTROLLED_REVIEW_ISSUES := {
    "semantic_gap", "activation_bypass", "citation_unavailable", "citation_rejected", "contract_violation"}
  const SEVERITIES := {"critical", "high", "medium", "low"}

  datatype AssertionResult = AssertionResult(id: string, verdict: string, issues: seq<string>)

  /** The five findings are None where a row leaves them null. */
  datatype CitationResult = CitationResult(
    referenceId: string, surface: string, verdict: string, locatorInspected: Option<bool>, versionMatched: Option<bool>,
    sectionMatched: Option<bool>, paraphraseSupported: Option<bool>, applicabilityNotBroader: Option<bool>, issues: seq<string>)

  datatype Issue = Issue(severity: string, code: string)

  datatype ShardVerdict = ShardVerdict(
    schema: string, protocolId: string, snapshotSha256: string, planSha256: string, shardId: string,
    citationSurfaceSha256: string, assertions: seq<AssertionResult>, citations: seq<CitationResult>,
    approved: bool, issues: seq<Issue>, summary: string)

  predicate ControlledIssues(issues: seq<string>, allowed: set<string>) {
    NoDuplicates(issues) && forall i :: 0 <= i < |issues| ==> issues[i] in allowed
  }

  /** Strictly ascending, so already sorted and free of duplicates. */
  predicate Ascending(s: seq<string>) {
    forall i, j :: 0 <= i < j < |s| ==> StringLt(s[i], s[j])
  }

  // ---- Assertions ----

  function AssertionKey(a: AssertionResult): string { a.id }

  predicate AssertionIdOk(s: string) {
    s != "" && forall i :: 0 <= i < |s| ==> s[i] as int >= 0x20 && s[i] as int != 0x7F
  }

  predicate AssertionOk(a: AssertionResult) {
    && AssertionIdOk(a.id) && ControlledIssues(a.issues, CONTROLLED_ASSERTION_ISSUES)
    && a.verdict in {"verified", "rejected"} && (a.verdict == "verified" <==> a.issues == [])
  }

  predicate ExpectedIdsOk(expected: seq<string>) {
    NoDuplicates(expected) && forall i :: 0 <= i < |expected| ==> AssertionIdOk(expected[i])
  }

  predicate AssertionsOk(rows: seq<AssertionResult>, expected: seq<string>) {
    && ExpectedIdsOk(expected)
    && (forall i :: 0 <= i < |rows| ==> AssertionOk(rows[i]))
    && Ascending(MapEach(AssertionKey, rows))
    && Members(MapEach(AssertionKey, rows)) == Members(expected)
  }

  predicate AllVerified(rows: seq<AssertionResult>) {
    forall i :: 0 <= i < |rows| ==> rows[i].verdict == "verified"
  }

  /** Sorting by key changes nothing exactly when the keys already ascend. */
  lemma SortedRowsAscend<T(!new)>(rows: seq<T>, key: T -> string)
    requires forall i, j :: 0 <= i < j < |rows| ==> key(rows[i]) != key(rows[j])
    ensures Sort(rows, ByKey(key)) == rows <==> Ascending(MapEach(key, rows))
  {
    var keys := MapEach(key, rows);
    ByKeyIsPreorder(key);
    if Sort(rows, ByKey(key)) == rows {
      SortSorts(rows, ByKey(key));
      forall i, j | 0 <= i < j < |keys| ensures StringLt(keys[i], keys[j]) {
        assert ByKey(key)(rows[i], rows[j]);
      }
    }
    if Ascending(keys) {
      forall i, j | 0 <= i < j < |rows| ensures ByKey(key)(rows[i], rows[j]) {
        assert StringLt(keys[i], keys[j]);
      }
      SortFixesSorted(rows, ByKey(key));
    }
  }

  lemma AscendingDistinct(s: seq<string>)
    requires Ascending(s)
    ensures NoDuplicates(s)
  {
    forall i, j | 0 <= i < j < |s| ensures s[i] != s[j] { assert StringLt(s[i], s[j]); }
  }

  /** `_validate_assertions` */
  method ValidateAssertions(rows: seq<AssertionResult>, expected: seq<string>) returns (r: Option<bool>)
    ensures r.Some? <==> AssertionsOk(rows, expected)
    ensures r.Some? ==> (r.value <==> AllVerified(rows))
  {
    hide AssertionOk, ExpectedIdsOk, Ascending, MapEach;
    if !ExpectedIdsOk(expected) { return None; }
    var keys := MapEach(AssertionKey, rows);
    var seen: set<string>, i := {}, 0;
    while i < |rows|
      invariant 0 <= i <= |rows|
      invariant seen == set k | 0 <= k < i :: keys[k]
      invariant forall k :: 0 <= k < i ==> AssertionOk(rows[k]) && keys[k] in expected
      invariant forall k, l :: 0 <= k < l < i ==> keys[k] != keys[l]
    {
      if rows[i].id in seen {
        var k :| 0 <= k < i && keys[k] == keys[i];
        RepeatedKey(keys, k, i);
        return None;
      }
      if rows[i].id !in expected {
        assert keys[i] in Members(keys) && keys[i] !in Members(expected);
        return None;
      }
      if !AssertionOk(rows[i]) { return None; }
      seen := seen + {rows[i].id};
      i := i + 1;
    }
    assert forall id :: id in keys <==> id in seen;
    if seen != Members(expected) { return None; }
    var ordered := Sort(rows, ByKey(AssertionKey));
    SortedRowsAscend(rows, AssertionKey);
    if ordered != rows { return None; }
    return Some(AllVerified(rows));
  }

  lemma RepeatedKey(keys: seq<string>, k: nat, i: nat)
    requires k < i < |keys| && keys[k] == keys[i]
    ensures !Ascending(keys)
  {
  }

  // ---- Rule citations ----

  function CitationKey(c: CitationResult): string { c.referenceId }

  function CitedIds(c: ShardCitation): seq<string> { c.referenceIds }

  /** `{row["reference_id"]: row for row in rows}` looked up. */
  function ExpectedRow(refs: seq<RuleReference>, id: string): Option<RuleReference> {
    if refs == [] then None
    else if refs[|refs| - 1].referenceId == id then Some(refs[|refs| - 1])
    else ExpectedRow(refs[..|refs| - 1], id)
  }

  function EvidenceFor(cs: seq<ShardCitation>, id: string): (r: Option<ShardCitation>)
    ensures r.Some? ==> r.value in cs && id in r.value.referenceIds
    ensures r.None? ==> forall c :: c in cs ==> id !in c.referenceIds
  {
    if cs == [] then None
    else if id in cs[0].referenceIds then Some(cs[0])
    else EvidenceFor(cs[1..], id)
  }

  predicate EvidenceReady(evidence: Option<ShardCitation>) {
    && evidence.Some? && evidence.value.available && evidence.value.identityVerified
    && evidence.value.inspectionRequired && evidence.value.chunks != []
  }

  predicate VerifiedFields(c: CitationResult) {
    && c.locatorInspected == Some(true) && c.versionMatched == Some(true) && c.sectionMatched == Some(true)
    && c.paraphraseSupported == Some(true) && c.applicabilityNotBroader == Some(true) && c.issues == []
  }

  predicate CitationOk(c: CitationResult, m: ShardManifest) {
    && ExpectedRow(m.ruleReferences, c.referenceId).Some?
    && c.surface == ExpectedRow(m.ruleReferences, c.referenceId).value.surfaceSha256
    && ControlledIssues(c.issues, CONTROLLED_CITATION_ISSUES)
    && c.verdict in {"verified", "unavailable", "rejected"}
    && (c.verdict == "verified" ==> VerifiedFields(c) && EvidenceReady(EvidenceFor(m.citations, c.referenceId)))
    && (c.verdict != "verified" ==> c.issues != [])
  }

  predicate CitationsOk(rows: seq<CitationResult>, m: ShardManifest) {
    && NoDuplicates(FlatMap(CitedIds, m.citations))
    && (forall i :: 0 <= i < |rows| ==> CitationOk(rows[i], m))
    && Ascending(MapEach(CitationKey, rows))
    && Members(MapEach(CitationKey, rows)) == Members(MapEach(ReferenceId, m.ruleReferences))
  }

  predicate AllCited(rows: seq<CitationResult>) {
    forall i :: 0 <= i < |rows| ==> rows[i].verdict == "verified"
  }

  lemma {:induction false} ExpectedRowListed(refs: seq<RuleReference>, id: string)
    ensures ExpectedRow(refs, id).Some? <==> id in MapEach(ReferenceId, refs)
    ensures ExpectedRow(refs, id).Some? ==> ExpectedRow(refs, id).value in refs && ExpectedRow(refs, id).value.referenceId == id
  {
    if refs != [] {
      var front, last := refs[..|refs| - 1], refs[|refs| - 1];
      ExpectedRowListed(front, id);
      assert refs == front + [last];
      MapEachConcat(ReferenceId, front, [last]);
    }
  }

  /** The reference-to-citation table: refused when a reference is listed twice. */
  method EvidenceTable(cs: seq<ShardCitation>) returns (r: Option<map<string, ShardCitation>>)
    ensures r.Some? <==> NoDuplicates(FlatMap(CitedIds, cs))
    ensures r.Some? ==> forall id :: id in r.value <==> EvidenceFor(cs, id).Some?
    ensures r.Some? ==> forall id :: id in r.value ==> r.value[id] == EvidenceFor(cs, id).value
  {
    hide NoDuplicates;
    var table: map<string, ShardCitation>, i := map[], 0;
    assert cs[..0] == [];
    NothingCited();
    while i < |cs|
      invariant 0 <= i <= |cs|
      invariant NoDuplicates(FlatMap(CitedIds, cs[..i]))
      invariant table.Keys == Members(FlatMap(CitedIds, cs[..i]))
      invariant forall id :: id in table ==> exists k :: 0 <= k < i && id in cs[k].referenceIds && table[id] == cs[k]
    {
      var ok;
      ok, table := AddEvidence(cs, i, table);
      if !ok {
        assert cs == cs[..i + 1] + cs[i + 1..];
        FlatMapConcat(CitedIds, cs[..i + 1], cs[i + 1..]);
        if NoDuplicates(FlatMap(CitedIds, cs)) { NoDuplicatesPrefix(FlatMap(CitedIds, cs[..i + 1]), FlatMap(CitedIds, cs[i + 1..])); }
        return None;
      }
      i := i + 1;
    }
    assert cs[..i] == cs;
    forall id ensures id in table <==> EvidenceFor(cs, id).Some? {
      Cited(cs, id);
    }
    forall id | id in table ensures table[id] == EvidenceFor(cs, id).value {
      var k :| 0 <= k < |cs| && id in cs[k].referenceIds && table[id] == cs[k];
      EvidenceUnique(cs, k, id);
    }
    return Some(table);
  }

  lemma NothingCited()
    ensures NoDuplicates(FlatMap(CitedIds, [])) && Members(FlatMap(CitedIds, [])) == {}
  {
  }

  method AddEvidence(cs: seq<ShardCitation>, i: nat, table0: map<string, ShardCitation>) returns (ok: bool, table: map<string, ShardCitation>)
    requires i < |cs| && NoDuplicates(FlatMap(CitedIds, cs[..i]))
    requires table0.Keys == Members(FlatMap(CitedIds, cs[..i]))
    requires forall id :: id in table0 ==> exists k :: 0 <= k < i && id in cs[k].referenceIds && table0[id] == cs[k]
    ensures ok <==> NoDuplicates(FlatMap(CitedIds, cs[..i + 1]))
    ensures ok ==> table.Keys == Members(FlatMap(CitedIds, cs[..i + 1]))
    ensures ok ==> forall id :: id in table ==> exists k :: 0 <= k <= i && id in cs[k].referenceIds && table[id] == cs[k]
  {
    hide NoDuplicates, FlatMap;
    var before := FlatMap(CitedIds, cs[..i]);
    var ids := cs[i].referenceIds;
    assert cs[..i + 1] == cs[..i] + [cs[i]];
    FlatMapSnoc(CitedIds, cs[..i], cs[i]);
    table := table0;
    var j := 0;
    assert before + ids[..0] == before;
    while j < |ids|
      invariant 0 <= j <= |ids|
      invariant NoDuplicates(before + ids[..j])
      invariant table.Keys == Members(before + ids[..j])
      invariant forall id :: id in table ==> exists k :: 0 <= k <= i && id in cs[k].referenceIds && table[id] == cs[k]
    {
      NoDuplicatesSnoc(before + ids[..j], ids[j]);
      assert before + ids[..j + 1] == before + ids[..j] + [ids[j]];
      if ids[j] in table {
        assert before + ids == before + ids[..j + 1] + ids[j + 1..];
        if NoDuplicates(before + ids) { NoDuplicatesPrefix(before + ids[..j + 1], ids[j + 1..]); }
        return false, table;
      }
      table := table[ids[j] := cs[i]];
      j := j + 1;
    }
    assert ids[..j] == ids;
    ok := true;
  }

  lemma {:induction false} Cited(cs: seq<ShardCitation>, id: string)
    ensures id in FlatMap(CitedIds, cs) <==> EvidenceFor(cs, id).Some?
  {
    if cs != [] { Cited(cs[1..], id); }
  }

  lemma {:induction false} EvidenceUnique(cs: seq<ShardCitation>, k: nat, id: string)
    requires k < |cs| && id in cs[k].referenceIds && NoDuplicates(FlatMap(CitedIds, cs))
    ensures EvidenceFor(cs, id) == Some(cs[k])
  {
    var rest := FlatMap(CitedIds, cs[1..]);
    assert FlatMap(CitedIds, cs) == cs[0].referenceIds + rest;
    forall i, j | 0 <= i < j < |rest| ensures rest[i] != rest[j] {
      assert FlatMap(CitedIds, cs)[|cs[0].referenceIds| + i] == rest[i] && FlatMap(CitedIds, cs)[|cs[0].referenceIds| + j] == rest[j];
    }
    if k > 0 {
      EvidenceUnique(cs[1..], k - 1, id);
      Cited(cs[1..], id);
      if id in cs[0].referenceIds { TwiceAcross(cs[0].referenceIds, rest, id); }
    }
  }

  lemma TwiceAcross(a: seq<string>, b: seq<string>, x: string)
    requires x in a && x in b
    ensures !NoDuplicates(a + b)
  {
    var i :| 0 <= i < |a| && a[i] == x;
    var j :| 0 <= j < |b| && b[j] == x;
    assert (a + b)[i] == x && (a + b)[|a| + j] == x;
  }

  method CheckCitation(row: CitationResult, m: ShardManifest, evidence: map<string, ShardCitation>) returns (ok: bool)
    requires forall id :: id in evidence <==> EvidenceFor(m.citations, id).Some?
    requires forall id :: id in evidence ==> evidence[id] == EvidenceFor(m.citations, id).value
    ensures ok <==> CitationOk(row, m)
  {
    hide ControlledIssues, VerifiedFields, EvidenceReady, ExpectedRow;
    var expected := ExpectedRow(m.ruleReferences, row.referenceId);
    if expected == None || row.surface != expected.value.surfaceSha256 { return false; }
    if !ControlledIssues(row.issues, CONTROLLED_CITATION_ISSUES) { return false; }
    if row.verdict !in {"verified", "unavailable", "rejected"} { return false; }
    var found := if row.referenceId in evidence then Some(evidence[row.referenceId]) else None;
    assert found == EvidenceFor(m.citations, row.referenceId);
    if row.verdict == "verified" && !(VerifiedFields(row) && EvidenceReady(found)) { return false; }
    return row.verdict == "verified" || row.issues != [];
  }

  /** `_validate_rule_citations` */
  method ValidateRuleCitations(rows: seq<CitationResult>, m: ShardManifest) returns (r: Option<bool>)
    ensures r.Some? <==> CitationsOk(rows, m)
    ensures r.Some? ==> (r.value <==> AllCited(rows))
  {
    hide CitationOk, Ascending, NoDuplicates, FlatMap, MapEach, EvidenceFor;
    var evidence := EvidenceTable(m.citations);
    if evidence == None { return None; }
    var keys := MapEach(CitationKey, rows);
    var seen: set<string>, i := {}, 0;
    while i < |rows|
      invariant 0 <= i <= |rows|
      invariant seen == set k | 0 <= k < i :: keys[k]
      invariant forall k :: 0 <= k < i ==> CitationOk(rows[k], m)
      invariant forall k, l :: 0 <= k < l < i ==> keys[k] != keys[l]
    {
      var row := rows[i];
      if row.referenceId in seen {
        var k :| 0 <= k < i && keys[k] == keys[i];
        RepeatedKey(keys, k, i);
        return None;
      }
      var ok := CheckCitation(row, m, evidence.value);
      if !ok { return None; }
      seen := seen + {row.referenceId};
      i := i + 1;
    }
    assert forall id :: id in keys <==> id in seen;
    if seen != Members(MapEach(ReferenceId, m.ruleReferences)) { return None; }
    var ordered := Sort(rows, ByKey(CitationKey));
    SortedRowsAscend(rows, CitationKey);
    if ordered != rows { return None; }
    return Some(AllCited(rows));
  }

  // ---- The whole verdict ----

  predicate IssueLe(a: Issue, b: Issue) {
    StringLt(a.severity, b.severity) || (a.severity == b.severity && StringLe(a.code, b.code))
  }

  predicate IssueOk(i: Issue) { i.severity in SEVERITIES && i.code in CONTROLLED_REVIEW_ISSUES }

  /** `_review_issues`: controlled, sorted, and without repeats. */
  predicate IssuesOk(issues: seq<Issue>) {
    && (forall i :: 0 <= i < |issues| ==> IssueOk(issues[i]))
    && issues == Sort(issues, IssueLe) && NoDuplicates(issues)
  }

  predicate HeaderOk(v: ShardVerdict, m: ShardManifest) {
    && v.schema == SHARD_RESULT_SCHEMA_VERSION && v.protocolId == m.protocolId && v.snapshotSha256 == m.snapshotSha256
    && v.planSha256 == m.planSha256 && v.shardId == m.shardId && v.citationSurfaceSha256 == m.citationSurfaceSha256
  }

  predicate VerdictOk(v: ShardVerdict, m: ShardManifest) {
    && HeaderOk(v, m)
    && AssertionsOk(v.assertions, m.assertionIds) && CitationsOk(v.citations, m) && IssuesOk(v.issues)
    && (v.approved <==> AllVerified(v.assertions) && AllCited(v.citations) && v.issues == [])
    && (!v.approved ==> v.issues != [])
    && v.summary == if v.approved then APPROVED_SUMMARY else REJECTED_SUMMARY
  }

  /** `validate_shard_result`: a valid verdict comes back unchanged. */
  method ValidateShardResult(v: ShardVerdict, m: ShardManifest) returns (r: Option<ShardVerdict>)
    ensures r == if VerdictOk(v, m) then Some(v) else None
  {
    hide AssertionsOk, CitationsOk, IssuesOk, HeaderOk, AllVerified, AllCited;
    if !HeaderOk(v, m) { return None; }
    var assertionsOk := ValidateAssertions(v.assertions, m.assertionIds);
    if assertionsOk == None { return None; }
    var citationsOk := ValidateRuleCitations(v.citations, m);
    if citationsOk == None || !IssuesOk(v.issues) { return None; }
    var approved := assertionsOk.value && citationsOk.value && v.issues == [];
    if v.approved != approved || (!approved && v.issues == []) { return None; }
    var summary := if approved then APPROVED_SUMMARY else REJECTED_SUMMARY;
    if v.summary != summary { return None; }
    return Some(v);
  }
}
