/** What a returned verdict and an aggregated result say, in terms of the shard manifest, the full cache and the audit:
    exactly which verdicts are valid, which evidence stands behind each verified row, and where each issue comes from. */
module VerdictLaws {
  import opened Sequences
  import opened Sorting
  import opened CacheModel
  import opened Surface
  import opened Projection
  import opened Allocation
  import opened ShardResult
  import opened Aggregate
  import opened AggregateOrder

  // ---- One verdict ----

  /** No reference is listed twice, in one citation or in two. */
  predicate CitedOnce(cs: seq<ShardCitation>) {
    && (forall i :: 0 <= i < |cs| ==> NoDuplicates(cs[i].referenceIds))
    && forall i, j, id :: 0 <= i < j < |cs| && id in cs[i].referenceIds ==> id !in cs[j].referenceIds
  }

  /** The citation of a reference was acquired, is the declared document, and has text to inspect. */
  predicate Evidenced(cs: seq<ShardCitation>, id: string) {
    exists c :: c in cs && id in c.referenceIds && c.available && c.identityVerified && c.inspectionRequired && c.chunks != []
  }

  predicate Found(x: CitationResult) {
    && x.locatorInspected == Some(true) && x.versionMatched == Some(true) && x.sectionMatched == Some(true)
    && x.paraphraseSupported == Some(true) && x.applicabilityNotBroader == Some(true) && x.issues == []
  }

  const CITATION_ISSUES := [
    "locator_unavailable", "resolver_mismatch", "version_mismatch", "section_mismatch",
    "paraphrase_unsupported", "applicability_too_broad", "inspection_incomplete"]

  predicate DrawnFrom(issues: seq<string>, allowed: seq<string>) {
    && (forall i :: 0 <= i < |issues| ==> issues[i] in allowed)
    && forall i, j :: 0 <= i < j < |issues| ==> issues[i] != issues[j]
  }

  /** A row answers a reference of the shard: verified on evidence, or refused for a reason. */
  predicate Answers(x: CitationResult, m: ShardManifest) {
    && (exists r :: r in m.ruleReferences && r.referenceId == x.referenceId && r.surfaceSha256 == x.surface)
    && (|| (x.verdict == "verified" && Found(x) && Evidenced(m.citations, x.referenceId))
        || (x.verdict in ["unavailable", "rejected"] && x.issues != [] && DrawnFrom(x.issues, CITATION_ISSUES)))
  }

  predicate AnswersAll(rows: seq<CitationResult>, m: ShardManifest) {
    && CitedOnce(m.citations)
    && (forall i :: 0 <= i < |rows| ==> Answers(rows[i], m))
    && (forall i, j :: 0 <= i < j < |rows| ==> StringLt(rows[i].referenceId, rows[j].referenceId))
    && forall r :: r in m.ruleReferences ==> exists i :: 0 <= i < |rows| && rows[i].referenceId == r.referenceId
  }

  predicate Printable(s: string) { s != "" && forall i :: 0 <= i < |s| ==> s[i] >= ' ' && s[i] as int != 127 }

  predicate Judges(x: AssertionResult) {
    || (x.verdict == "verified" && x.issues == [])
    || (x.verdict == "rejected" && x.issues != [] && DrawnFrom(x.issues, ["assertion_rejected", "evidence_incomplete", "contract_violation"]))
  }

  /** One row for each expected assertion and no other, ascending. */
  predicate JudgesAll(rows: seq<AssertionResult>, expected: seq<string>) {
    && NoDuplicates(expected) && (forall i :: 0 <= i < |expected| ==> Printable(expected[i]))
    && (forall i :: 0 <= i < |rows| ==> Judges(rows[i]) && rows[i].id in expected)
    && (forall i, j :: 0 <= i < j < |rows| ==> StringLt(rows[i].id, rows[j].id))
    && forall id :: id in expected ==> exists i :: 0 <= i < |rows| && rows[i].id == id
  }

  predicate IssueBefore(a: Issue, b: Issue) {
    StringLt(a.severity, b.severity) || (a.severity == b.severity && StringLt(a.code, b.code))
  }

  predicate Raised(issues: seq<Issue>) {
    && (forall i :: 0 <= i < |issues| ==>
          && issues[i].severity in ["critical", "high", "medium", "low"]
          && issues[i].code in ["semantic_gap", "activation_bypass", "citation_unavailable", "citation_rejected", "contract_violation"])
    && forall i, j :: 0 <= i < j < |issues| ==> IssueBefore(issues[i], issues[j])
  }

  /** Nothing is rejected or unavailable, and no issue is raised. */
  predicate Clear(v: ShardVerdict) {
    && (forall i :: 0 <= i < |v.assertions| ==> v.assertions[i].verdict == "verified")
    && (forall i :: 0 <= i < |v.citations| ==> v.citations[i].verdict == "verified")
    && v.issues == []
  }

  predicate Sound(v: ShardVerdict, m: ShardManifest) {
    && v.schema == "hlsgraph.knowledge-review.shard-result.v1" && v.protocolId == m.protocolId
    && v.snapshotSha256 == m.snapshotSha256 && v.planSha256 == m.planSha256 && v.shardId == m.shardId
    && v.citationSurfaceSha256 == m.citationSurfaceSha256
    && JudgesAll(v.assertions, m.assertionIds) && AnswersAll(v.citations, m) && Raised(v.issues)
    && (if v.approved then Clear(v) && v.summary == "approved_no_issues"
        else v.issues != [] && v.summary == "rejected_with_controlled_issues")
  }

  lemma {:induction false} CitedOnceFlat(cs: seq<ShardCitation>)
    ensures NoDuplicates(FlatMap(CitedIds, cs)) <==> CitedOnce(cs)
  {
    hide NoDuplicates;
    if cs == [] {
      NothingCited();
    } else {
      var a, rest := cs[0].referenceIds, cs[1..];
      var b := FlatMap(CitedIds, rest);
      assert FlatMap(CitedIds, cs) == a + b;
      CitedOnceFlat(rest);
      CitedOnceCons(cs);
      NoDuplicatesPlus(a, b);
      forall id ensures id in b <==> exists j :: 0 <= j < |rest| && id in rest[j].referenceIds { FlatMember(CitedIds, rest, id); }
    }
  }

  lemma CitedOnceCons(cs: seq<ShardCitation>)
    requires cs != []
    ensures CitedOnce(cs) <==>
      && NoDuplicates(cs[0].referenceIds) && CitedOnce(cs[1..])
      && forall id :: id in cs[0].referenceIds ==> !exists j :: 0 <= j < |cs[1..]| && id in cs[1..][j].referenceIds
  {
    hide NoDuplicates;
    var rest := cs[1..];
    assert forall j :: 0 <= j < |rest| ==> rest[j] == cs[j + 1];
    if CitedOnce(cs) {
      forall i, j, id | 0 <= i < j < |rest| && id in rest[i].referenceIds ensures id !in rest[j].referenceIds {
        assert id in cs[i + 1].referenceIds;
      }
      forall id | id in cs[0].referenceIds ensures !exists j :: 0 <= j < |rest| && id in rest[j].referenceIds { }
    }
    if NoDuplicates(cs[0].referenceIds) && CitedOnce(rest) && forall id :: id in cs[0].referenceIds ==> !exists j :: 0 <= j < |rest| && id in rest[j].referenceIds {
      forall i | 0 <= i < |cs| ensures NoDuplicates(cs[i].referenceIds) { if i > 0 { assert rest[i - 1] == cs[i]; } }
      forall i, j, id | 0 <= i < j < |cs| && id in cs[i].referenceIds ensures id !in cs[j].referenceIds {
        assert rest[j - 1] == cs[j];
        if i > 0 { assert rest[i - 1] == cs[i]; }
      }
    }
  }

  lemma NoDuplicatesPlus(a: seq<string>, b: seq<string>)
    ensures NoDuplicates(a + b) <==> NoDuplicates(a) && NoDuplicates(b) && forall x :: x in a ==> x !in b
  {
    var all := a + b;
    if NoDuplicates(all) {
      NoDuplicatesPrefix(a, b);
      forall i, j | 0 <= i < j < |b| ensures b[i] != b[j] { assert all[|a| + i] == b[i] && all[|a| + j] == b[j]; }
      forall x | x in a ensures x !in b { if x in b { TwiceAcross(a, b, x); } }
    }
    if NoDuplicates(a) && NoDuplicates(b) && forall x :: x in a ==> x !in b { NoDuplicatesConcat(a, b); }
  }

  lemma EvidenceIs(cs: seq<ShardCitation>, id: string)
    requires CitedOnce(cs)
    ensures EvidenceReady(EvidenceFor(cs, id)) <==> Evidenced(cs, id)
  {
    if c :| c in cs && id in c.referenceIds && c.available && c.identityVerified && c.inspectionRequired && c.chunks != [] {
      var k :| 0 <= k < |cs| && cs[k] == c;
      CitedOnceFlat(cs);
      EvidenceUnique(cs, k, id);
    }
  }

  predicate DistinctReferences(refs: seq<RuleReference>) {
    forall i, j :: 0 <= i < j < |refs| ==> refs[i].referenceId != refs[j].referenceId
  }

  lemma RowIs(refs: seq<RuleReference>, id: string, surface: string)
    requires DistinctReferences(refs)
    ensures (ExpectedRow(refs, id).Some? && ExpectedRow(refs, id).value.surfaceSha256 == surface)
       <==> exists r :: r in refs && r.referenceId == id && r.surfaceSha256 == surface
  {
    ExpectedRowListed(refs, id);
    if r :| r in refs && r.referenceId == id && r.surfaceSha256 == surface {
      var i :| 0 <= i < |refs| && refs[i] == r;
      assert MapEach(ReferenceId, refs)[i] == id;
      var found := ExpectedRow(refs, id).value;
      var j :| 0 <= j < |refs| && refs[j] == found;
    }
  }

  lemma CitationIssuesDrawn(issues: seq<string>)
    ensures ControlledIssues(issues, CONTROLLED_CITATION_ISSUES) <==> DrawnFrom(issues, CITATION_ISSUES)
  {
    assert forall s :: s in CONTROLLED_CITATION_ISSUES <==> s in CITATION_ISSUES;
  }

  lemma AnswersExactly(x: CitationResult, m: ShardManifest)
    requires CitedOnce(m.citations) && DistinctReferences(m.ruleReferences)
    ensures CitationOk(x, m) <==> Answers(x, m)
  {
    hide ControlledIssues, DrawnFrom, Evidenced, EvidenceReady, EvidenceFor, CitedOnce, DistinctReferences;
    RowIs(m.ruleReferences, x.referenceId, x.surface);
    EvidenceIs(m.citations, x.referenceId);
    CitationIssuesDrawn(x.issues);
    NoIssuesDrawn();
  }

  lemma NoIssuesDrawn()
    ensures DrawnFrom([], CITATION_ISSUES)
  {
  }

  lemma AscendingKeys<T(!new)>(rows: seq<T>, key: T -> string)
    ensures Ascending(MapEach(key, rows)) <==> forall i, j :: 0 <= i < j < |rows| ==> StringLt(key(rows[i]), key(rows[j]))
  {
    var keys := MapEach(key, rows);
    assert forall i :: 0 <= i < |rows| ==> keys[i] == key(rows[i]);
    if Ascending(keys) {
      forall i, j | 0 <= i < j < |rows| ensures StringLt(key(rows[i]), key(rows[j])) { assert StringLt(keys[i], keys[j]); }
    }
  }

  lemma KeysHave<T(!new)>(rows: seq<T>, key: T -> string, id: string)
    ensures id in MapEach(key, rows) <==> exists i :: 0 <= i < |rows| && key(rows[i]) == id
  {
    var keys := MapEach(key, rows);
    if i :| 0 <= i < |rows| && key(rows[i]) == id { assert keys[i] == id; }
  }

  lemma SameMembersExactly(a: seq<string>, b: seq<string>)
    ensures Members(a) == Members(b) <==> (forall x :: x in a ==> x in b) && forall x :: x in b ==> x in a
  {
    forall x ensures (x in Members(a) <==> x in a) && (x in Members(b) <==> x in b) { }
    if Members(a) == Members(b) {
      forall x | x in a ensures x in b { assert x in Members(a); }
      forall x | x in b ensures x in a { assert x in Members(b); }
    }
  }

  lemma AnswersAllExactly(rows: seq<CitationResult>, m: ShardManifest)
    requires DistinctReferences(m.ruleReferences)
    ensures CitationsOk(rows, m) <==> AnswersAll(rows, m)
  {
    hide CitationOk, Answers, CitedOnce, NoDuplicates, Ascending, StringLt, MapEach, DistinctReferences;
    CitedOnceFlat(m.citations);
    AscendingKeys(rows, CitationKey);
    if CitedOnce(m.citations) {
      forall i | 0 <= i < |rows| ensures CitationOk(rows[i], m) <==> Answers(rows[i], m) { AnswersExactly(rows[i], m); }
      if forall i :: 0 <= i < |rows| ==> Answers(rows[i], m) { CoverExactly(rows, m); }
    }
  }

  /** When every row answers a reference, the keys agree exactly when every reference has a row. */
  lemma CoverExactly(rows: seq<CitationResult>, m: ShardManifest)
    requires forall i :: 0 <= i < |rows| ==> Answers(rows[i], m)
    ensures Members(MapEach(CitationKey, rows)) == Members(MapEach(ReferenceId, m.ruleReferences)) <==>
              forall r :: r in m.ruleReferences ==> exists i :: 0 <= i < |rows| && rows[i].referenceId == r.referenceId
  {
    hide *;
    var a, b := MapEach(CitationKey, rows), MapEach(ReferenceId, m.ruleReferences);
    SameMembersExactly(a, b);
    forall x | x in a ensures x in b { AnsweredIsListed(rows, m, x); }
    RowsCover(rows, m.ruleReferences);
  }

  lemma AnsweredIsListed(rows: seq<CitationResult>, m: ShardManifest, x: string)
    requires forall i :: 0 <= i < |rows| ==> Answers(rows[i], m)
    requires x in MapEach(CitationKey, rows)
    ensures x in MapEach(ReferenceId, m.ruleReferences)
  {
    hide *;
    KeysHave(rows, CitationKey, x);
    var i :| 0 <= i < |rows| && CitationKey(rows[i]) == x;
    KeyIs(rows[i]);
    AnswerIsListed(rows[i], m);
  }

  lemma KeyIs(x: CitationResult)
    ensures CitationKey(x) == x.referenceId
  {
  }

  lemma AnswerIsListed(x: CitationResult, m: ShardManifest)
    requires Answers(x, m)
    ensures x.referenceId in MapEach(ReferenceId, m.ruleReferences)
  {
    hide MapEach, Evidenced, Found, DrawnFrom;
    var r :| r in m.ruleReferences && r.referenceId == x.referenceId;
    ReferenceListed(m.ruleReferences, r);
  }

  lemma ReferenceListed(refs: seq<RuleReference>, r: RuleReference)
    requires r in refs
    ensures r.referenceId in MapEach(ReferenceId, refs)
  {
    hide MapEach;
    var k :| 0 <= k < |refs| && refs[k] == r;
    assert MapEach(ReferenceId, refs)[k] == ReferenceId(refs[k]);
  }

  lemma RowsCover(rows: seq<CitationResult>, refs: seq<RuleReference>)
    ensures (forall x :: x in MapEach(ReferenceId, refs) ==> x in MapEach(CitationKey, rows)) <==>
              forall r :: r in refs ==> exists i :: 0 <= i < |rows| && rows[i].referenceId == r.referenceId
  {
    hide MapEach;
    var ids, keys := MapEach(ReferenceId, refs), MapEach(CitationKey, rows);
    forall r | r in refs
      ensures r.referenceId in ids
      ensures r.referenceId in keys <==> exists i :: 0 <= i < |rows| && rows[i].referenceId == r.referenceId
    {
      var k :| 0 <= k < |refs| && refs[k] == r;
      assert ReferenceId(refs[k]) == r.referenceId;
      KeysHave(refs, ReferenceId, r.referenceId);
      KeysHave(rows, CitationKey, r.referenceId);
    }
    forall x | x in ids ensures exists r :: r in refs && r.referenceId == x {
      KeysHave(refs, ReferenceId, x);
      var k :| 0 <= k < |refs| && ReferenceId(refs[k]) == x;
      assert refs[k] in refs;
    }
  }

  lemma AssertionIssuesDrawn(issues: seq<string>)
    ensures ControlledIssues(issues, CONTROLLED_ASSERTION_ISSUES)
       <==> DrawnFrom(issues, ["assertion_rejected", "evidence_incomplete", "contract_violation"])
  {
    assert forall s :: s in CONTROLLED_ASSERTION_ISSUES <==> s in ["assertion_rejected", "evidence_incomplete", "contract_violation"];
  }

  lemma JudgesExactly(x: AssertionResult)
    requires Printable(x.id)
    ensures AssertionOk(x) <==> Judges(x)
  {
    hide ControlledIssues;
    AssertionIssuesDrawn(x.issues);
    PrintableIds(x.id);
  }

  lemma PrintableIds(s: string)
    ensures AssertionIdOk(s) <==> Printable(s)
  {
    assert ' ' as int == 0x20;
  }

  lemma JudgesAllExactly(rows: seq<AssertionResult>, expected: seq<string>)
    ensures AssertionsOk(rows, expected) <==> JudgesAll(rows, expected)
  {
    hide AssertionOk, Judges, NoDuplicates, Ascending, StringLt, MapEach, AssertionIdOk, Printable, Members;
    AscendingKeys(rows, AssertionKey);
    forall i | 0 <= i < |expected| ensures AssertionIdOk(expected[i]) <==> Printable(expected[i]) { PrintableIds(expected[i]); }
    forall i | 0 <= i < |rows| && Printable(rows[i].id) ensures AssertionOk(rows[i]) <==> Judges(rows[i]) { JudgesExactly(rows[i]); }
    SameIds(rows, expected);
  }

  lemma SameIds(rows: seq<AssertionResult>, expected: seq<string>)
    ensures Members(MapEach(AssertionKey, rows)) == Members(expected) <==>
      && (forall i :: 0 <= i < |rows| ==> rows[i].id in expected)
      && forall id :: id in expected ==> exists i :: 0 <= i < |rows| && rows[i].id == id
  {
    hide MapEach, Members;
    var keys := MapEach(AssertionKey, rows);
    SameMembersExactly(keys, expected);
    forall id ensures id in keys <==> exists i :: 0 <= i < |rows| && rows[i].id == id { KeysHave(rows, AssertionKey, id); }
    forall i | 0 <= i < |rows| ensures rows[i].id in keys { assert AssertionKey(rows[i]) == keys[i]; }
  }

  lemma IssuesAscend(issues: seq<Issue>)
    ensures issues == Sort(issues, IssueLe) && NoDuplicates(issues) <==> forall i, j :: 0 <= i < j < |issues| ==> IssueBefore(issues[i], issues[j])
  {
    hide Sort, StringLe, DistinctKeys;
    IssueOrder();
    SortSorts(issues, IssueLe);
    if issues == Sort(issues, IssueLe) && NoDuplicates(issues) {
      forall i, j | 0 <= i < j < |issues| ensures IssueBefore(issues[i], issues[j]) {
        assert IssueLe(issues[i], issues[j]) && issues[i] != issues[j];
      }
    }
    if forall i, j :: 0 <= i < j < |issues| ==> IssueBefore(issues[i], issues[j]) {
      forall i, j | 0 <= i < j < |issues| ensures IssueLe(issues[i], issues[j]) && issues[i] != issues[j] {
        assert IssueBefore(issues[i], issues[j]);
      }
      SortFixesSorted(issues, IssueLe);
    }
  }

  lemma RaisedExactly(issues: seq<Issue>)
    ensures IssuesOk(issues) <==> Raised(issues)
  {
    hide Sort, IssueLe, NoDuplicates, IssueBefore;
    IssuesAscend(issues);
  }

  /** A verdict is returned exactly when it answers every assigned assertion and reference once and in order, verifies a
      reference only on evidence, refuses one only for a listed reason, and approves exactly what is clear. */
  lemma VerdictExactly(v: ShardVerdict, m: ShardManifest)
    requires DistinctReferences(m.ruleReferences)
    ensures VerdictOk(v, m) <==> Sound(v, m)
  {
    hide AssertionsOk, JudgesAll, CitationsOk, AnswersAll, IssuesOk, Raised, DistinctReferences;
    JudgesAllExactly(v.assertions, m.assertionIds);
    AnswersAllExactly(v.citations, m);
    RaisedExactly(v.issues);
    ClearExactly(v, m);
  }

  lemma ClearExactly(v: ShardVerdict, m: ShardManifest)
    ensures Clear(v) <==> AllVerified(v.assertions) && AllCited(v.citations) && v.issues == []
  {
  }
}
