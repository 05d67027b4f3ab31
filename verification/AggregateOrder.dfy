/** The aggregate has one row a reference, and does not depend on the order of its inputs. */
module AggregateOrder {
  import opened Sequences
  import opened Sorting
  import opened CacheModel
  import opened Surface
  import opened Projection
  import opened Allocation
  import opened ShardResult
  import opened Aggregate

  // ---- One row a reference ----

  lemma OneRowAnId(rows: seq<Reference>, p: Reference, q: Reference)
    requires NoDuplicates(MapEach(RowId, rows)) && p in rows && q in rows && p.id == q.id
    ensures p == q
  {
    var i :| 0 <= i < |rows| && rows[i] == p;
    var j :| 0 <= j < |rows| && rows[j] == q;
    assert MapEach(RowId, rows)[i] == MapEach(RowId, rows)[j];
  }

  lemma DocumentsDistinct(rows: seq<Reference>)
    requires NoDuplicates(MapEach(RowId, rows))
    ensures NoDuplicates(MapEach(RowId, Documents(rows)))
    ensures forall x :: x in MapEach(RowId, Documents(rows)) ==> x !in MapEach(RowId, AllRules(rows))
  {
    var ids, documents, rules := MapEach(RowId, rows), Documents(rows), AllRules(rows);
    forall i, j | 0 <= i < j < |rows| ensures RowId(rows[i]) != RowId(rows[j]) { assert ids[i] != ids[j]; }
    FilterKeepsDistinct(IsDocument, rows, RowId);
    var keys := MapEach(RowId, documents);
    forall i, j | 0 <= i < j < |keys| ensures keys[i] != keys[j] { assert RowId(documents[i]) != RowId(documents[j]); }
    forall x | x in keys ensures x !in MapEach(RowId, rules) {
      KeyListed(documents, x);
      KeyListed(rules, x);
      var d :| d in documents && d.id == x;
      if r :| r in rules && r.id == x { OneRowAnId(rows, d, r); }
    }
  }

  /** No reference ID is used by two rows of the unsorted result. */
  lemma RowKeysDistinct(u: Suite, full: FullManifest, rows: seq<Reference>, plan: map<string, ShardPlan>, verdicts: seq<ShardVerdict>, snapshot: Snapshot)
    requires Admissible(u, full, rows, plan, verdicts, snapshot)
    ensures NoDuplicates(MapEach(CitationKey, RuleRows(Validated(u, full, plan, verdicts).value) + MapEach(RowOf, DocumentRows(full, Documents(rows)).value)))
  {
    hide NoDuplicates, Validated, RuleRows, DocumentRows, Documents, AllRules, AllocationOk, BuildPlan, Covers, SuiteOk;
    var ruleRows, docRows := RuleRows(Validated(u, full, plan, verdicts).value), MapEach(RowOf, DocumentRows(full, Documents(rows)).value);
    MapEachConcat(CitationKey, ruleRows, docRows);
    KeysOfPairs(full, Documents(rows));
    DocumentsDistinct(rows);
    var a, b := MapEach(CitationKey, ruleRows), MapEach(CitationKey, docRows);
    assert forall x :: x in a <==> x in Members(a);
    NoDuplicatesConcat(a, b);
  }

  lemma KeysApart(s: seq<CitationResult>)
    requires NoDuplicates(MapEach(CitationKey, s))
    ensures forall i, j :: 0 <= i < j < |s| ==> CitationKey(s[i]) != CitationKey(s[j])
    ensures DistinctKeys(s, ByKey(CitationKey))
  {
    hide DistinctKeys, ByKey, MapEach;
    var keys := MapEach(CitationKey, s);
    forall i, j | 0 <= i < j < |s| ensures CitationKey(s[i]) != CitationKey(s[j]) {
      assert keys[i] == CitationKey(s[i]) && keys[j] == CitationKey(s[j]);
    }
    InjectiveKeysAreDistinct(s, CitationKey);
  }

  lemma SortedRowKeys(all: seq<CitationResult>)
    requires NoDuplicates(MapEach(CitationKey, all))
    ensures Ascending(MapEach(CitationKey, Sort(all, ByKey(CitationKey))))
  {
    KeysApart(all);
    ByKeyIsPreorder(CitationKey);
    SortSorts(all, ByKey(CitationKey));
    SortPermutes(all, ByKey(CitationKey));
    var r := Sort(all, ByKey(CitationKey));
    DistinctRearranged(all, r, CitationKey);
    var keys := MapEach(CitationKey, r);
    forall i, j | 0 <= i < j < |keys| ensures StringLt(keys[i], keys[j]) {
      assert ByKey(CitationKey)(r[i], r[j]) && CitationKey(r[i]) != CitationKey(r[j]);
    }
  }

  /** The result rows ascend by reference ID and pair off with the audit references. */
  lemma RowsBijectReferences(u: Suite, full: FullManifest, rows: seq<Reference>, plan: map<string, ShardPlan>, verdicts: seq<ShardVerdict>, snapshot: Snapshot)
    requires Aggregated(u, full, rows, plan, verdicts, snapshot).Some?
    ensures var r := Aggregated(u, full, rows, plan, verdicts, snapshot).value;
      && Ascending(MapEach(CitationKey, r.citations))
      && Members(MapEach(CitationKey, r.citations)) == Members(MapEach(RowId, rows))
      && |r.citations| == |rows|
  {
    hide NoDuplicates, Validated, RuleRows, DocumentRows, Documents, Sort, UniqueIssues, Ascending, AllApproved, AllDocumentsVerified, AllocationOk, BuildPlan, SuiteOk, Covers;
    var all := RuleRows(Validated(u, full, plan, verdicts).value) + MapEach(RowOf, DocumentRows(full, Documents(rows)).value);
    RowKeysDistinct(u, full, rows, plan, verdicts, snapshot);
    SortedRowKeys(all);
    var keys, ids := MapEach(CitationKey, Sort(all, ByKey(CitationKey))), MapEach(RowId, rows);
    AscendingDistinct(keys);
    SameKeysSameLength(keys, ids);
  }

  lemma SameKeysSameLength(a: seq<string>, b: seq<string>)
    requires NoDuplicates(a) && NoDuplicates(b) && Members(a) == Members(b)
    ensures |a| == |b|
  {
    forall x ensures x in a <==> x in b {
      assert x in a <==> x in Members(a);
      assert x in b <==> x in Members(b);
    }
    SameMembersSamePermutation(a, b);
    assert |multiset(a)| == |a| && |multiset(b)| == |b|;
  }

  // ---- The rule guards cannot fire either ----

  /** A checked verdict cites exactly the references its shard was given. */
  lemma CheckedCitations(u: Suite, full: FullManifest, rows: seq<Reference>, verdicts: seq<ShardVerdict>, shard: string)
    requires SuiteOk(u) && Checked(u, full, BuildPlan(u, rows), verdicts, shard).Some?
    ensures var v := Checked(u, full, BuildPlan(u, rows), verdicts, shard).value;
      && shard in u.order && Ascending(MapEach(CitationKey, v.citations))
      && Members(MapEach(CitationKey, v.citations)) == Members(MapEach(ReferenceId, SharedOut(rows, u.specs, shard)))
  {
    hide AssertionsOk, IssuesOk, HeaderOk, SurfaceRows, SurfaceDigest, Collect, AssignedUrls, CitationOk, SharedOut, Members, Ascending, PlanOk, FullTablesOk;
    var refs := SharedOut(rows, u.specs, shard);
    SortPermutes(refs, ByKey(ReferenceId));
    MapEachPermutes(ReferenceId, Sort(refs, ByKey(ReferenceId)), refs);
    MembersPermute(MapEach(ReferenceId, Sort(refs, ByKey(ReferenceId))), MapEach(ReferenceId, refs));
  }

  lemma SharedKey(rows: seq<Reference>, specs: SpecTable, shard: string, id: string)
    ensures id in Members(MapEach(ReferenceId, SharedOut(rows, specs, shard))) <==> exists r :: r in rows && Owned(r, specs, shard) && r.id == id
  {
    hide Owned;
    var refs := SharedOut(rows, specs, shard);
    if id in MapEach(ReferenceId, refs) {
      var i :| 0 <= i < |refs| && MapEach(ReferenceId, refs)[i] == id;
      SharedMembers(rows, specs, shard, refs[i]);
    }
    if r :| r in rows && Owned(r, specs, shard) && r.id == id {
      SharedMembers(rows, specs, shard, Normalised(r));
      var i :| 0 <= i < |refs| && refs[i] == Normalised(r);
      assert MapEach(ReferenceId, refs)[i] == id;
    }
  }

  lemma {:induction false} DistinctAcrossShards(validated: seq<ShardVerdict>)
    requires forall i :: 0 <= i < |validated| ==> NoDuplicates(MapEach(CitationKey, validated[i].citations))
    requires forall i, j, x :: 0 <= i < j < |validated| && x in MapEach(CitationKey, validated[i].citations) ==> x !in MapEach(CitationKey, validated[j].citations)
    ensures NoDuplicates(MapEach(CitationKey, RuleRows(validated)))
  {
    hide NoDuplicates;
    if validated == [] {
      NothingToRepeat();
    } else {
      var rest := validated[1..];
      forall i | 0 <= i < |rest| ensures NoDuplicates(MapEach(CitationKey, rest[i].citations)) { assert rest[i] == validated[i + 1]; }
      forall i, j, x | 0 <= i < j < |rest| && x in MapEach(CitationKey, rest[i].citations) ensures x !in MapEach(CitationKey, rest[j].citations) {
        assert rest[i] == validated[i + 1] && rest[j] == validated[j + 1];
      }
      DistinctAcrossShards(rest);
      MapEachConcat(CitationKey, validated[0].citations, RuleRows(rest));
      forall x | x in MapEach(CitationKey, RuleRows(rest)) ensures x !in MapEach(CitationKey, validated[0].citations) {
        var k := CitedBy(rest, x);
        assert rest[k] == validated[k + 1];
      }
      NoDuplicatesConcat(MapEach(CitationKey, validated[0].citations), MapEach(CitationKey, RuleRows(rest)));
    }
  }

  lemma NothingToRepeat()
    ensures NoDuplicates(MapEach(CitationKey, RuleRows([])))
  {
  }

  lemma CitedBy(validated: seq<ShardVerdict>, x: string) returns (k: nat)
    requires x in MapEach(CitationKey, RuleRows(validated))
    ensures k < |validated| && x in MapEach(CitationKey, validated[k].citations)
  {
    var all := RuleRows(validated);
    var i :| 0 <= i < |all| && MapEach(CitationKey, all)[i] == x;
    FlatMember(VerdictCitations, validated, all[i]);
    k :| 0 <= k < |validated| && all[i] in validated[k].citations;
    var j :| 0 <= j < |validated[k].citations| && validated[k].citations[j] == all[i];
    assert MapEach(CitationKey, validated[k].citations)[j] == x;
  }

  lemma CitesAll(validated: seq<ShardVerdict>, k: nat, x: string)
    requires k < |validated| && x in MapEach(CitationKey, validated[k].citations)
    ensures x in MapEach(CitationKey, RuleRows(validated))
  {
    var j :| 0 <= j < |validated[k].citations| && MapEach(CitationKey, validated[k].citations)[j] == x;
    FlatMember(VerdictCitations, validated, validated[k].citations[j]);
    var all := RuleRows(validated);
    var i :| 0 <= i < |all| && all[i] == validated[k].citations[j];
    assert MapEach(CitationKey, all)[i] == x;
  }

  lemma ValidatedShard(u: Suite, full: FullManifest, rows: seq<Reference>, verdicts: seq<ShardVerdict>, i: nat)
    requires SuiteOk(u) && Validated(u, full, BuildPlan(u, rows), verdicts).Some? && i < |u.order|
    ensures var v := Validated(u, full, BuildPlan(u, rows), verdicts).value;
      && |v| == |u.order| && NoDuplicates(MapEach(CitationKey, v[i].citations))
      && forall id :: id in MapEach(CitationKey, v[i].citations) <==> exists r :: r in rows && Owned(r, u.specs, u.order[i]) && r.id == id
  {
    hide Checked, SharedOut, Ascending, Owned, BuildPlan, SuiteOk;
    var v := Validated(u, full, BuildPlan(u, rows), verdicts).value;
    assert Checked(u, full, BuildPlan(u, rows), verdicts, u.order[i]) == Some(v[i]);
    CheckedCitations(u, full, rows, verdicts, u.order[i]);
    AscendingDistinct(MapEach(CitationKey, v[i].citations));
    forall id ensures id in MapEach(CitationKey, v[i].citations) <==> exists r :: r in rows && Owned(r, u.specs, u.order[i]) && r.id == id {
      SharedKey(rows, u.specs, u.order[i], id);
      assert id in MapEach(CitationKey, v[i].citations) <==> id in Members(MapEach(CitationKey, v[i].citations));
    }
  }

  /** With an allocated plan and checked verdicts, no rule is cited by two shards and none is missing. */
  lemma RuleGuardsNeverFire(u: Suite, full: FullManifest, rows: seq<Reference>, verdicts: seq<ShardVerdict>)
    requires SuiteOk(u) && AllocationOk(rows, u.specs) && Validated(u, full, BuildPlan(u, rows), verdicts).Some?
    ensures var keys := MapEach(CitationKey, RuleRows(Validated(u, full, BuildPlan(u, rows), verdicts).value));
      && NoDuplicates(keys) && Members(keys) == Members(MapEach(RowId, AllRules(rows)))
  {
    hide Validated, BuildPlan, NoDuplicates, RuleRows, AllocationOk, Members, Owned, AllRules;
    var validated := Validated(u, full, BuildPlan(u, rows), verdicts).value;
    ValidatedLength(u, full, BuildPlan(u, rows), verdicts);
    forall i | 0 <= i < |validated|
      ensures NoDuplicates(MapEach(CitationKey, validated[i].citations))
      ensures forall id :: id in MapEach(CitationKey, validated[i].citations) <==> exists r :: r in rows && Owned(r, u.specs, u.order[i]) && r.id == id
    {
      ValidatedShard(u, full, rows, verdicts, i);
    }
    forall i, j, x | 0 <= i < j < |validated| && x in MapEach(CitationKey, validated[i].citations)
      ensures x !in MapEach(CitationKey, validated[j].citations)
    {
      if x in MapEach(CitationKey, validated[j].citations) {
        var p :| p in rows && Owned(p, u.specs, u.order[i]) && p.id == x;
        var q :| q in rows && Owned(q, u.specs, u.order[j]) && q.id == x;
        OwnersApart(u, rows, p, q, i, j);
      }
    }
    DistinctAcrossShards(validated);
    CitedAreRules(u, rows, validated);
  }

  lemma OwnersApart(u: Suite, rows: seq<Reference>, p: Reference, q: Reference, i: nat, j: nat)
    requires SuiteOk(u) && AllocationOk(rows, u.specs) && p in rows && q in rows && i < j < |u.order|
    requires Owned(p, u.specs, u.order[i]) && Owned(q, u.specs, u.order[j])
    ensures p.id != q.id
  {
    hide AllocationOk;
    SharesApart(rows, u.specs, p, q);
  }

  lemma CitedAreRules(u: Suite, rows: seq<Reference>, validated: seq<ShardVerdict>)
    requires SuiteOk(u) && AllocationOk(rows, u.specs) && |validated| == |u.order|
    requires forall i :: 0 <= i < |validated| ==>
      forall id :: id in MapEach(CitationKey, validated[i].citations) <==> exists r :: r in rows && Owned(r, u.specs, u.order[i]) && r.id == id
    ensures Members(MapEach(CitationKey, RuleRows(validated))) == Members(MapEach(RowId, AllRules(rows)))
  {
    hide RuleRows, Owned;
    var keys := MapEach(CitationKey, RuleRows(validated));
    forall id ensures id in Members(keys) <==> id in Members(MapEach(RowId, AllRules(rows))) {
      KeyListed(AllRules(rows), id);
      if id in keys {
        var k := CitedBy(validated, id);
        var r :| r in rows && Owned(r, u.specs, u.order[k]) && r.id == id;
        OwnedIsRule(r, u.specs, u.order[k]);
        assert r in AllRules(rows);
      }
      if r :| r in AllRules(rows) && r.id == id {
        var k := RuleHasShard(u, rows, r);
        assert Owned(r, u.specs, u.order[k]);
        CitesAll(validated, k, id);
      }
    }
  }

  lemma OwnedIsRule(r: Reference, specs: SpecTable, shard: string)
    requires Owned(r, specs, shard)
    ensures IsRule(r)
  {
  }

  lemma RuleHasShard(u: Suite, rows: seq<Reference>, r: Reference) returns (k: nat)
    requires SuiteOk(u) && AllocationOk(rows, u.specs) && r in rows && IsRule(r)
    ensures k < |u.order| && Owned(r, u.specs, u.order[k])
  {
    hide RulesOk, UrlsWhole, KnownRules, RuleIds;
    var i :| 0 <= i < |rows| && rows[i] == r;
    k :| 0 <= k < |u.order| && u.order[k] == u.specs[r.ruleId].shardId;
  }

  // ---- Order does not matter: verdicts ----

  lemma NoDuplicatesRearranged(a: seq<string>, b: seq<string>)
    requires multiset(a) == multiset(b) && NoDuplicates(a)
    ensures NoDuplicates(b)
  {
    forall i, j | 0 <= i < j < |a| ensures Self(a[i]) != Self(a[j]) { }
    DistinctRearranged(a, b, Self);
    forall i, j | 0 <= i < j < |b| ensures b[i] != b[j] { assert Self(b[i]) != Self(b[j]); }
  }

  lemma CoversRearranged(a: seq<ShardVerdict>, b: seq<ShardVerdict>, order: seq<string>)
    requires multiset(a) == multiset(b) && Covers(a, order)
    ensures Covers(b, order)
    ensures forall s :: VerdictFor(a, s) == VerdictFor(b, s)
  {
    hide NoDuplicates, Members;
    MapEachPermutes(ShardOf, a, b);
    NoDuplicatesRearranged(MapEach(ShardOf, a), MapEach(ShardOf, b));
    MembersPermute(MapEach(ShardOf, a), MapEach(ShardOf, b));
    SameMembers(a, b);
    forall s ensures VerdictFor(a, s) == VerdictFor(b, s) {
      if VerdictFor(a, s).Some? {
        OneVerdict(b, VerdictFor(a, s).value);
      } else if VerdictFor(b, s).Some? {
        OneVerdict(a, VerdictFor(b, s).value);
      }
    }
  }

  lemma {:induction false} CollectAgrees<S, T>(f: S -> Option<T>, g: S -> Option<T>, s: seq<S>)
    requires forall x :: x in s ==> f(x) == g(x)
    ensures Collect(f, s) == Collect(g, s)
  {
    if s != [] { CollectAgrees(f, g, s[1..]); }
  }

  lemma ValidatedAgrees(u: Suite, full: FullManifest, full': FullManifest, plan: map<string, ShardPlan>, a: seq<ShardVerdict>, b: seq<ShardVerdict>)
    requires forall s :: VerdictFor(a, s) == VerdictFor(b, s)
    requires forall s :: s in plan ==> Project(full, plan[s], u.budget, u.digest) == Project(full', plan[s], u.budget, u.digest)
    ensures Validated(u, full, plan, a) == Validated(u, full', plan, b)
  {
    hide Project, VerdictOk, VerdictFor;
    CollectAgrees((s: string) => Checked(u, full, plan, a, s), (s: string) => Checked(u, full', plan, b, s), u.order);
  }

  // ---- Order does not matter: cache citations ----

  /** The same manifest with its citations in another order. */
  predicate CitationsRearranged(a: FullManifest, b: FullManifest) {
    b == a.(citations := b.citations) && multiset(a.citations) == multiset(b.citations)
  }

  function UrlOf(c: FullCitation): string { c.requestedUrl }

  lemma TablesRearranged(a: FullManifest, b: FullManifest)
    requires CitationsRearranged(a, b) && FullTablesOk(a)
    ensures FullTablesOk(b)
  {
    forall i, j | 0 <= i < j < |a.citations| ensures UrlOf(a.citations[i]) != UrlOf(a.citations[j]) { }
    DistinctRearranged(a.citations, b.citations, UrlOf);
    forall i, j | 0 <= i < j < |b.citations| ensures b.citations[i].requestedUrl != b.citations[j].requestedUrl {
      assert UrlOf(b.citations[i]) != UrlOf(b.citations[j]);
    }
  }

  lemma FindRearranged(a: FullManifest, b: FullManifest, url: string)
    requires CitationsRearranged(a, b) && FullTablesOk(a)
    ensures FindCitation(a.citations, url) == FindCitation(b.citations, url)
  {
    hide FullTablesOk;
    TablesRearranged(a, b);
    SameMembers(a.citations, b.citations);
    if FindCitation(a.citations, url).Some? {
      FoundIsUnique(b, FindCitation(a.citations, url).value);
    } else if FindCitation(b.citations, url).Some? {
      FoundIsUnique(a, FindCitation(b.citations, url).value);
    }
  }

  lemma SelectionRearranged(a: FullManifest, b: FullManifest, refs: seq<RuleReference>)
    requires CitationsRearranged(a, b) && FullTablesOk(a)
    ensures Collect(url => SelectCitation(a.citations, refs, url), AssignedUrls(refs))
         == Collect(url => SelectCitation(b.citations, refs, url), AssignedUrls(refs))
  {
    hide AssignedUrls, AssignedIds, FullTablesOk, CitationsRearranged;
    forall url ensures SelectCitation(a.citations, refs, url) == SelectCitation(b.citations, refs, url) {
      FindRearranged(a, b, url);
    }
    CollectAgrees(url => SelectCitation(a.citations, refs, url), url => SelectCitation(b.citations, refs, url), AssignedUrls(refs));
  }

  lemma WholeDigestRearranged(a: FullManifest, b: FullManifest, digest: seq<ShardCitation> -> string)
    requires CitationsRearranged(a, b)
    ensures SurfaceDigest(MapEach(Strip, a.citations), digest) == SurfaceDigest(MapEach(Strip, b.citations), digest)
  {
    hide SurfaceRows;
    MapEachPermutes(Strip, a.citations, b.citations);
    SurfaceIgnoresOrder(MapEach(Strip, a.citations), MapEach(Strip, b.citations));
  }

  /** A projection does not depend on the order of the cache's citations. */
  lemma ProjectionIgnoresCitationOrder(a: FullManifest, b: FullManifest, plan: ShardPlan, budget: string, digest: seq<ShardCitation> -> string)
    requires CitationsRearranged(a, b)
    ensures Project(a, plan, budget, digest) == Project(b, plan, budget, digest)
  {
    hide SelectCitation, ProjectFile, SurfaceRows, SurfaceDigest, AssignedUrls, PlanOk, FullTablesOk, Collect, Sort, SortStrings;
    WholeDigestRearranged(a, b, digest);
    if FullTablesOk(a) {
      TablesRearranged(a, b);
      SelectionRearranged(a, b, plan.ruleReferences);
      assert a.files == b.files;
    } else if FullTablesOk(b) {
      TablesRearranged(b, a);
    }
  }

  lemma DocumentsRearranged(a: FullManifest, b: FullManifest, documents: seq<Reference>)
    requires CitationsRearranged(a, b) && FullTablesOk(a)
    ensures DocumentRows(a, documents) == DocumentRows(b, documents)
  {
    hide FullTablesOk, CitationsRearranged;
    forall r: Reference ensures Documented(a, r) == Documented(b, r) {
      FindRearranged(a, b, r.url);
    }
    CollectAgrees((r: Reference) => Documented(a, r), (r: Reference) => Documented(b, r), documents);
  }

  lemma AdmissibleRearranged(u: Suite, a: FullManifest, b: FullManifest, rows: seq<Reference>, plan: map<string, ShardPlan>,
                             va: seq<ShardVerdict>, vb: seq<ShardVerdict>, snapshot: Snapshot)
    requires CitationsRearranged(a, b) && multiset(va) == multiset(vb)
    requires Admissible(u, a, rows, plan, va, snapshot)
    ensures Admissible(u, b, rows, plan, vb, snapshot)
    ensures Aggregated(u, a, rows, plan, va, snapshot) == Aggregated(u, b, rows, plan, vb, snapshot)
  {
    hide SuiteOk, AllocationOk, BuildPlan, Covers, Validated, NoDuplicates, RuleRows, ReferencesWhole, Members, FullTablesOk, DocumentRows, Documents,
      AllRules, ClosingGuards, Assembled;
    CoversRearranged(va, vb, u.order);
    TablesRearranged(a, b);
    forall s | s in plan ensures Project(a, plan[s], u.budget, u.digest) == Project(b, plan[s], u.budget, u.digest) {
      ProjectionIgnoresCitationOrder(a, b, plan[s], u.budget, u.digest);
    }
    ValidatedAgrees(u, a, b, plan, va, vb);
    DocumentsRearranged(a, b, Documents(rows));
  }

  // ---- Order does not matter: audit references ----

  lemma BuildPlanIgnoresOrder(u: Suite, ra: seq<Reference>, rb: seq<Reference>)
    requires SuiteOk(u) && AllocationOk(ra, u.specs) && multiset(ra) == multiset(rb)
    ensures AllocationOk(rb, u.specs) && BuildPlan(u, ra) == BuildPlan(u, rb)
  {
    hide AllocationOk, SharedOut;
    AllocationIgnoresOrder(ra, rb, u.specs, u.order);
    assert Shares(u, ra) == Shares(u, rb);
  }

  lemma ReferencesRearranged(u: Suite, ra: seq<Reference>, rb: seq<Reference>)
    requires multiset(ra) == multiset(rb) && ReferencesWhole(ra, u)
    ensures ReferencesWhole(rb, u)
    ensures multiset(Documents(ra)) == multiset(Documents(rb))
    ensures Members(MapEach(RowId, AllRules(ra))) == Members(MapEach(RowId, AllRules(rb)))
    ensures Members(MapEach(RowId, ra)) == Members(MapEach(RowId, rb))
  {
    hide NoDuplicates, Members, Filter;
    MapEachPermutes(RowId, ra, rb);
    NoDuplicatesRearranged(MapEach(RowId, ra), MapEach(RowId, rb));
    SameMembers(ra, rb);
    forall i | 0 <= i < |rb| ensures IsRule(rb[i]) || IsDocument(rb[i]) { assert rb[i] in ra; }
    FilterPermutes(IsRule, ra, rb);
    FilterPermutes(IsDocument, ra, rb);
    SameMembers(AllRules(ra), AllRules(rb));
    SameMembers(Documents(ra), Documents(rb));
    MapEachPermutes(RowId, AllRules(ra), AllRules(rb));
    MembersPermute(MapEach(RowId, AllRules(ra)), MapEach(RowId, AllRules(rb)));
    MembersPermute(MapEach(RowId, ra), MapEach(RowId, rb));
  }

  /** The pair of a document whose evidence is there. */
  function PairOf(full: FullManifest): Reference -> (CitationResult, FullCitation) {
    (r: Reference) => PairAt(full, r)
  }

  function PairAt(full: FullManifest, r: Reference): (CitationResult, FullCitation) {
    match Documented(full, r)
    case Some(p) => p
    case None =>
      var absent := FullCitation("", "", "", [], false, false, false, None, None, None, None, [], [], None);
      (DocumentRow(r, absent), absent)
  }

  lemma PairsListed(full: FullManifest, documents: seq<Reference>)
    requires DocumentRows(full, documents).Some?
    ensures DocumentRows(full, documents).value == MapEach(PairOf(full), documents)
  {
    hide Documented;
    var pairs := DocumentRows(full, documents).value;
    forall i | 0 <= i < |documents| ensures pairs[i] == MapEach(PairOf(full), documents)[i] {
      assert Documented(full, documents[i]) == Some(pairs[i]);
    }
  }

  lemma DocumentsPermute(full: FullManifest, da: seq<Reference>, db: seq<Reference>)
    requires multiset(da) == multiset(db) && DocumentRows(full, da).Some?
    ensures DocumentRows(full, db).Some? && multiset(DocumentRows(full, da).value) == multiset(DocumentRows(full, db).value)
  {
    hide Documented;
    SameMembers(da, db);
    forall i | 0 <= i < |db| ensures Documented(full, db[i]).Some? {
      assert db[i] in da;
      var k :| 0 <= k < |da| && da[k] == db[i];
    }
    PairsListed(full, da);
    PairsListed(full, db);
    MapEachPermutes(PairOf(full), da, db);
  }

  lemma IssueOrder()
    ensures TotalPreorder(IssueLe)
    ensures forall s: seq<Issue> :: DistinctKeys(s, IssueLe)
  {
    forall x, y ensures IssueLe(x, y) || IssueLe(y, x) { StringLeTotal(x.severity, y.severity); StringLeTotal(x.code, y.code); }
    forall x, y, z | IssueLe(x, y) && IssueLe(y, z) ensures IssueLe(x, z) {
      IssueTransitive(x, y, z);
    }
    forall x, y | IssueLe(x, y) && IssueLe(y, x) ensures x == y {
      if x.severity != y.severity {
        StringLeAntisymmetric(x.severity, y.severity);
      } else {
        StringLeAntisymmetric(x.code, y.code);
      }
    }
  }

  lemma IssueTransitive(x: Issue, y: Issue, z: Issue)
    requires IssueLe(x, y) && IssueLe(y, z)
    ensures IssueLe(x, z)
  {
    if x.severity == y.severity && y.severity == z.severity {
      StringLeTransitive(x.code, y.code, z.code);
    } else {
      StringLeReflexive(y.severity);
      StringLeTransitive(x.severity, y.severity, z.severity);
      if x.severity == z.severity { StringLeAntisymmetric(x.severity, y.severity); }
    }
  }

  /** The unique issues depend only on which issues occur. */
  lemma UniqueIssuesAgree(a: seq<Issue>, b: seq<Issue>)
    requires forall x :: x in a <==> x in b
    ensures UniqueIssues(a) == UniqueIssues(b)
  {
    hide IssueLe, DistinctKeys;
    SameMembersSamePermutation(Distinct(a), Distinct(b));
    IssueOrder();
    SortIgnoresOrder(Distinct(a), Distinct(b), IssueLe);
  }

  lemma DocumentIssuesAgree(pa: seq<(CitationResult, FullCitation)>, pb: seq<(CitationResult, FullCitation)>, x: Issue)
    requires multiset(pa) == multiset(pb)
    ensures x in FlatMap(IssueOf, pa) <==> x in FlatMap(IssueOf, pb)
  {
    SameMembers(pa, pb);
    FlatMember(IssueOf, pa, x);
    FlatMember(IssueOf, pb, x);
    if i :| 0 <= i < |pa| && x in IssueOf(pa[i]) {
      assert pa[i] in pb;
      var k :| 0 <= k < |pb| && pb[k] == pa[i];
    }
    if i :| 0 <= i < |pb| && x in IssueOf(pb[i]) {
      assert pb[i] in pa;
      var k :| 0 <= k < |pa| && pa[k] == pb[i];
    }
  }

  lemma VerifiedPermutes(pa: seq<(CitationResult, FullCitation)>, pb: seq<(CitationResult, FullCitation)>)
    requires multiset(pa) == multiset(pb)
    ensures AllDocumentsVerified(pa) <==> AllDocumentsVerified(pb)
  {
    SameMembers(pa, pb);
    if AllDocumentsVerified(pa) {
      forall i | 0 <= i < |pb| ensures DocumentVerified(pb[i].1) { assert pb[i] in pa; }
    }
    if AllDocumentsVerified(pb) {
      forall i | 0 <= i < |pa| ensures DocumentVerified(pa[i].1) { assert pa[i] in pb; }
    }
  }

  /** With distinct reference IDs, the assembled result does not depend on the order of the documents. */
  lemma AssembledAgrees(snapshot: Snapshot, validated: seq<ShardVerdict>, pa: seq<(CitationResult, FullCitation)>, pb: seq<(CitationResult, FullCitation)>)
    requires multiset(pa) == multiset(pb)
    requires NoDuplicates(MapEach(CitationKey, RuleRows(validated) + MapEach(RowOf, pa)))
    ensures Assembled(snapshot, validated, pa) == Assembled(snapshot, validated, pb)
  {
    hide RuleRows, NoDuplicates, UniqueIssues, Sort, AllDocumentsVerified, AllApproved, FlatMap, ByKey, DistinctKeys;
    var aRows, bRows := RuleRows(validated) + MapEach(RowOf, pa), RuleRows(validated) + MapEach(RowOf, pb);
    MapEachPermutes(RowOf, pa, pb);
    assert multiset(aRows) == multiset(bRows);
    KeysApart(aRows);
    ByKeyIsPreorder(CitationKey);
    SortIgnoresOrder(aRows, bRows, ByKey(CitationKey));
    VerifiedPermutes(pa, pb);
    var ia, ib := FlatMap(VerdictIssues, validated) + FlatMap(IssueOf, pa), FlatMap(VerdictIssues, validated) + FlatMap(IssueOf, pb);
    forall x ensures x in ia <==> x in ib { DocumentIssuesAgree(pa, pb, x); }
    UniqueIssuesAgree(ia, ib);
  }

  lemma RowsRearranged(u: Suite, full: FullManifest, ra: seq<Reference>, rb: seq<Reference>, plan: map<string, ShardPlan>,
                       verdicts: seq<ShardVerdict>, snapshot: Snapshot)
    requires multiset(ra) == multiset(rb) && Admissible(u, full, ra, plan, verdicts, snapshot)
    ensures Admissible(u, full, rb, plan, verdicts, snapshot)
    ensures Aggregated(u, full, ra, plan, verdicts, snapshot) == Aggregated(u, full, rb, plan, verdicts, snapshot)
  {
    hide SuiteOk, AllocationOk, BuildPlan, Covers, Validated, NoDuplicates, RuleRows, ReferencesWhole, Members, FullTablesOk, DocumentRows, Documents,
      AllRules, ClosingGuards, Assembled, Aggregated;
    BuildPlanIgnoresOrder(u, ra, rb);
    ReferencesRearranged(u, ra, rb);
    DocumentsPermute(full, Documents(ra), Documents(rb));
    RowKeysDistinct(u, full, ra, plan, verdicts, snapshot);
    AssembledAgrees(snapshot, Validated(u, full, plan, verdicts).value, DocumentRows(full, Documents(ra)).value, DocumentRows(full, Documents(rb)).value);
    GuardsDecided(u, full, ra, plan, verdicts, snapshot);
    GuardsDecided(u, full, rb, plan, verdicts, snapshot);
  }

  lemma GuardsDecided(u: Suite, full: FullManifest, rows: seq<Reference>, plan: map<string, ShardPlan>, verdicts: seq<ShardVerdict>, snapshot: Snapshot)
    requires Admissible(u, full, rows, plan, verdicts, snapshot)
    ensures Aggregated(u, full, rows, plan, verdicts, snapshot)
         == Some(Assembled(snapshot, Validated(u, full, plan, verdicts).value, DocumentRows(full, Documents(rows)).value))
  {
    hide Admissible, Validated, DocumentRows, Documents, Assembled, ClosingGuards;
    ClosingGuardsNeverFire(u, full, rows, plan, verdicts, snapshot);
  }

  /** Rearranging the shard verdicts, the audit references or the cache citations changes neither
      whether aggregation succeeds nor what it returns. */
  lemma AggregationIgnoresOrder(u: Suite, a: FullManifest, b: FullManifest, ra: seq<Reference>, rb: seq<Reference>,
                                plan: map<string, ShardPlan>, va: seq<ShardVerdict>, vb: seq<ShardVerdict>, snapshot: Snapshot)
    requires CitationsRearranged(a, b) && multiset(ra) == multiset(rb) && multiset(va) == multiset(vb)
    ensures Aggregated(u, a, ra, plan, va, snapshot) == Aggregated(u, b, rb, plan, vb, snapshot)
  {
    hide Aggregated, Admissible;
    ClosingGuardsNeverFire(u, a, ra, plan, va, snapshot);
    ClosingGuardsNeverFire(u, b, rb, plan, vb, snapshot);
    if Admissible(u, a, ra, plan, va, snapshot) {
      AdmissibleRearranged(u, a, b, ra, plan, va, vb, snapshot);
      RowsRearranged(u, b, ra, rb, plan, vb, snapshot);
    } else if Admissible(u, b, rb, plan, vb, snapshot) {
      assert CitationsRearranged(b, a);
      AdmissibleRearranged(u, b, a, rb, plan, vb, va, snapshot);
      RowsRearranged(u, a, rb, ra, plan, va, snapshot);
    }
  }
}
