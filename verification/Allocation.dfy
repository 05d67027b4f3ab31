/** Sharing the rule references of a citation audit out to review shards (`allocate_rule_references`). */
module Allocation {
  import opened Sequences
  import opened Sorting
  import opened CacheModel
  import opened Surface
  import opened Projection

  /** One row of the citation audit. */
  datatype Reference = Reference(id: string, surface: string, kind: string, ruleId: string, url: string, section: string)

  /** Where the fixed plan puts a rule, and what it must cite. */
  datatype RuleSpec = RuleSpec(shardId: string, url: string, section: string)

  type SpecTable = map<string, RuleSpec>

  predicate IsRule(r: Reference) { r.kind == "rule" }

  predicate Known(r: Reference, specs: SpecTable) { IsRule(r) && r.ruleId in specs }

  function KnownRules(rows: seq<Reference>, specs: SpecTable): seq<Reference> {
    Filter((r: Reference) => Known(r, specs), rows)
  }

  function Normalised(r: Reference): RuleReference { RuleReference(r.id, r.surface, r.ruleId, r.url, r.section) }

  predicate RuleOk(r: Reference, specs: SpecTable)
    requires Known(r, specs)
  {
    && IsSha256(r.id) && IsSha256(r.surface)
    && r.url == specs[r.ruleId].url && r.section == specs[r.ruleId].section
  }

  predicate RulesOk(rules: seq<Reference>, specs: SpecTable) {
    && (forall i :: 0 <= i < |rules| ==> Known(rules[i], specs) && RuleOk(rules[i], specs))
    && forall i, j :: 0 <= i < j < |rules| ==> rules[i].ruleId != rules[j].ruleId && rules[i].id != rules[j].id
  }

  function RuleIds(rules: seq<Reference>): set<string> { set r | r in rules :: r.ruleId }

  function Ids(rules: seq<Reference>): set<string> { set r | r in rules :: r.id }

  /** The shards among which rules citing `url` fall. */
  function Owners(rules: seq<Reference>, specs: SpecTable, url: string): set<string> {
    set r | r in rules && r.url == url && Known(r, specs) :: specs[r.ruleId].shardId
  }

  /** Rules citing one URL belong to one shard. */
  predicate UrlsWhole(rules: seq<Reference>, specs: SpecTable) {
    forall i :: 0 <= i < |rules| ==> |Owners(rules, specs, rules[i].url)| == 1
  }

  predicate NoneUnexpected(rows: seq<Reference>, specs: SpecTable) {
    forall i :: 0 <= i < |rows| && IsRule(rows[i]) ==> Known(rows[i], specs)
  }

  predicate AllocationOk(rows: seq<Reference>, specs: SpecTable) {
    && NoneUnexpected(rows, specs)
    && RulesOk(KnownRules(rows, specs), specs)
    && specs.Keys == RuleIds(KnownRules(rows, specs))
    && UrlsWhole(KnownRules(rows, specs), specs)
  }

  predicate Owned(r: Reference, specs: SpecTable, shard: string) {
    Known(r, specs) && specs[r.ruleId].shardId == shard
  }

  function OwnedBy(rows: seq<Reference>, specs: SpecTable, shard: string): seq<Reference> {
    Filter((r: Reference) => Owned(r, specs, shard), rows)
  }

  function Share(rows: seq<Reference>, specs: SpecTable, shard: string): seq<RuleReference> {
    MapEach(Normalised, OwnedBy(rows, specs, shard))
  }

  /** The references of one shard, by reference ID. */
  function SharedOut(rows: seq<Reference>, specs: SpecTable, shard: string): seq<RuleReference> {
    Sort(Share(rows, specs, shard), ByKey(ReferenceId))
  }

  // ---- The loop ----

  lemma KnownSnoc(rows: seq<Reference>, specs: SpecTable, r: Reference)
    ensures KnownRules(rows + [r], specs) == KnownRules(rows, specs) + if Known(r, specs) then [r] else []
    ensures forall s :: Share(rows + [r], specs, s) == Share(rows, specs, s) + if Owned(r, specs, s) then [Normalised(r)] else []
  {
    hide Known, Owned;
    FilterConcat((x: Reference) => Known(x, specs), rows, [r]);
    forall s ensures Share(rows + [r], specs, s) == Share(rows, specs, s) + if Owned(r, specs, s) then [Normalised(r)] else [] {
      FilterConcat((x: Reference) => Owned(x, specs, s), rows, [r]);
      assert OwnedBy(rows + [r], specs, s) == OwnedBy(rows, specs, s) + if Owned(r, specs, s) then [r] else [];
      MapEachConcat(Normalised, OwnedBy(rows, specs, s), if Owned(r, specs, s) then [r] else []);
    }
  }

  /** Rules already refused stay refused. */
  lemma RulesPrefixFails(a: seq<Reference>, b: seq<Reference>, specs: SpecTable)
    requires !RulesOk(KnownRules(a, specs), specs)
    ensures !RulesOk(KnownRules(a + b, specs), specs)
  {
    hide Known, RuleOk;
    FilterConcat((x: Reference) => Known(x, specs), a, b);
    var ka, kb := KnownRules(a, specs), KnownRules(b, specs);
    assert KnownRules(a + b, specs) == ka + kb;
    if RulesOk(ka + kb, specs) {
      forall i | 0 <= i < |ka| ensures Known(ka[i], specs) && RuleOk(ka[i], specs) { assert (ka + kb)[i] == ka[i]; }
      forall i, j | 0 <= i < j < |ka| ensures ka[i].ruleId != ka[j].ruleId && ka[i].id != ka[j].id {
        assert (ka + kb)[i] == ka[i] && (ka + kb)[j] == ka[j];
      }
    }
  }

  /** What the loop holds after the rows it has seen. */
  predicate Progress(rows: seq<Reference>, specs: SpecTable, order: seq<string>, shares: map<string, seq<RuleReference>>,
                     seenRules: set<string>, seenIds: set<string>, owners: map<string, set<string>>) {
    var rules := KnownRules(rows, specs);
    && RulesOk(rules, specs)
    && shares.Keys == (set s | s in order)
    && (forall s :: s in order ==> shares[s] == Share(rows, specs, s))
    && seenRules == RuleIds(rules) && seenIds == Ids(rules)
    && owners.Keys == (set r | r in rules :: r.url)
    && forall u :: u in owners ==> owners[u] == Owners(rules, specs, u)
  }

  lemma RuleAdded(rules: seq<Reference>, specs: SpecTable, r: Reference)
    requires RulesOk(rules, specs) && Known(r, specs)
    ensures RulesOk(rules + [r], specs) <==> RuleOk(r, specs) && r.ruleId !in RuleIds(rules) && r.id !in Ids(rules)
    ensures RuleIds(rules + [r]) == RuleIds(rules) + {r.ruleId} && Ids(rules + [r]) == Ids(rules) + {r.id}
    ensures (set x | x in rules + [r] :: x.url) == (set x | x in rules :: x.url) + {r.url}
  {
    hide RuleOk;
    var all := rules + [r];
    assert all[|rules|] == r && forall i :: 0 <= i < |rules| ==> all[i] == rules[i];
    if RulesOk(all, specs) {
      forall x | x in rules ensures x.ruleId != r.ruleId && x.id != r.id {
        var i :| 0 <= i < |rules| && rules[i] == x;
        assert all[i].ruleId != all[|rules|].ruleId && all[i].id != all[|rules|].id;
      }
    }
  }

  lemma OwnerAdded(rules: seq<Reference>, specs: SpecTable, r: Reference, u: string)
    requires Known(r, specs)
    ensures Owners(rules + [r], specs, u) == Owners(rules, specs, u) + if u == r.url then {specs[r.ruleId].shardId} else {}
  {
  }

  /** Takes one known rule into the tables, or refuses it. */
  method TakeRule(ghost rows: seq<Reference>, specs: SpecTable, order: seq<string>, r: Reference,
                  shares0: map<string, seq<RuleReference>>, seenRules0: set<string>, seenIds0: set<string>, owners0: map<string, set<string>>)
    returns (ok: bool, shares: map<string, seq<RuleReference>>, seenRules: set<string>, seenIds: set<string>, owners: map<string, set<string>>)
    requires Progress(rows, specs, order, shares0, seenRules0, seenIds0, owners0)
    requires Known(r, specs) && specs[r.ruleId].shardId in order
    ensures ok <==> RulesOk(KnownRules(rows + [r], specs), specs)
    ensures ok ==> Progress(rows + [r], specs, order, shares, seenRules, seenIds, owners)
  {
    hide KnownRules, RulesOk, RuleIds, Ids, Owners, Share, RuleOk;
    shares, seenRules, seenIds, owners := shares0, seenRules0, seenIds0, owners0;
    KnownSnoc(rows, specs, r);
    RuleAdded(KnownRules(rows, specs), specs, r);
    ok := RuleOk(r, specs) && r.ruleId !in seenRules && r.id !in seenIds;
    if !ok { return; }
    var shard := specs[r.ruleId].shardId;
    shares := shares[shard := shares[shard] + [Normalised(r)]];
    seenRules := seenRules + {r.ruleId};
    seenIds := seenIds + {r.id};
    forall u ensures Owners(KnownRules(rows + [r], specs), specs, u)
                  == Owners(KnownRules(rows, specs), specs, u) + if u == r.url then {shard} else {}
    {
      OwnerAdded(KnownRules(rows, specs), specs, r, u);
    }
    NoOwners(KnownRules(rows, specs), specs, r.url);
    owners := owners[r.url := (if r.url in owners then owners[r.url] else {}) + {shard}];
  }

  lemma NoOwners(rules: seq<Reference>, specs: SpecTable, url: string)
    ensures url !in (set r | r in rules :: r.url) ==> Owners(rules, specs, url) == {}
  {
  }

  predicate TableOk(specs: SpecTable, order: seq<string>) {
    NoDuplicates(order) && forall k :: k in specs ==> specs[k].shardId in order
  }

  method GatherRules(rows: seq<Reference>, specs: SpecTable, order: seq<string>)
    returns (ok: bool, unexpected: seq<string>, shares: map<string, seq<RuleReference>>, seenRules: set<string>, owners: map<string, set<string>>)
    requires TableOk(specs, order)
    ensures ok <==> RulesOk(KnownRules(rows, specs), specs)
    ensures ok ==> exists seenIds :: Progress(rows, specs, order, shares, seenRules, seenIds, owners)
    ensures ok ==> (unexpected == [] <==> NoneUnexpected(rows, specs))
  {
    hide KnownRules, RulesOk, Progress;
    unexpected, shares, seenRules, owners := [], map s | s in order :: [], {}, map[];
    var seenIds: set<string>, i := {}, 0;
    assert rows[..0] == [];
    NoProgress(specs, order, shares);
    while i < |rows|
      invariant 0 <= i <= |rows|
      invariant Progress(rows[..i], specs, order, shares, seenRules, seenIds, owners)
      invariant unexpected == [] <==> NoneUnexpected(rows[..i], specs)
    {
      assert rows[..i + 1] == rows[..i] + [rows[i]];
      if Known(rows[i], specs) {
        ok, shares, seenRules, seenIds, owners := TakeRule(rows[..i], specs, order, rows[i], shares, seenRules, seenIds, owners);
        if !ok {
          assert rows == rows[..i + 1] + rows[i + 1..];
          RulesPrefixFails(rows[..i + 1], rows[i + 1..], specs);
          return;
        }
      } else {
        SkipRow(rows[..i], specs, order, rows[i], shares, seenRules, seenIds, owners);
        if IsRule(rows[i]) {
          unexpected := unexpected + [rows[i].ruleId];
          assert rows[..i + 1][i] == rows[i];
        }
      }
      i := i + 1;
    }
    assert rows[..i] == rows;
    ProgressOk(rows, specs, order, shares, seenRules, seenIds, owners);
    ok := true;
  }

  lemma NoProgress(specs: SpecTable, order: seq<string>, shares: map<string, seq<RuleReference>>)
    requires shares == map s | s in order :: []
    ensures Progress([], specs, order, shares, {}, {}, map[])
  {
  }

  lemma ProgressOk(rows: seq<Reference>, specs: SpecTable, order: seq<string>, shares: map<string, seq<RuleReference>>,
                   seenRules: set<string>, seenIds: set<string>, owners: map<string, set<string>>)
    requires Progress(rows, specs, order, shares, seenRules, seenIds, owners)
    ensures RulesOk(KnownRules(rows, specs), specs)
  {
  }

  /** Document rows and unexpected rules leave the tables alone. */
  lemma SkipRow(rows: seq<Reference>, specs: SpecTable, order: seq<string>, r: Reference, shares: map<string, seq<RuleReference>>,
                seenRules: set<string>, seenIds: set<string>, owners: map<string, set<string>>)
    requires Progress(rows, specs, order, shares, seenRules, seenIds, owners) && !Known(r, specs)
    ensures Progress(rows + [r], specs, order, shares, seenRules, seenIds, owners)
  {
    hide KnownRules, RulesOk, RuleIds, Ids, Owners, Share;
    KnownSnoc(rows, specs, r);
    assert KnownRules(rows, specs) + [] == KnownRules(rows, specs);
    forall s | s in order ensures Share(rows + [r], specs, s) == Share(rows, specs, s) {
      assert Share(rows, specs, s) + [] == Share(rows, specs, s);
    }
  }

  /** `allocate_rule_references` */
  method AllocateRuleReferences(rows: seq<Reference>, specs: SpecTable, order: seq<string>)
    returns (r: Option<map<string, seq<RuleReference>>>)
    requires TableOk(specs, order)
    ensures r.Some? <==> AllocationOk(rows, specs)
    ensures r.Some? ==> r.value == map s | s in order :: SharedOut(rows, specs, s)
  {
    hide KnownRules, RulesOk, Share, Owners, RuleIds;
    var ok, unexpected, shares, seenRules, owners := GatherRules(rows, specs, order);
    if !ok || unexpected != [] || seenRules != specs.Keys { return None; }
    WholeUrls(KnownRules(rows, specs), specs, owners);
    if exists u :: u in owners && |owners[u]| != 1 { return None; }
    return Some(map s | s in order :: Sort(shares[s], ByKey(ReferenceId)));
  }

  lemma WholeUrls(rules: seq<Reference>, specs: SpecTable, owners: map<string, set<string>>)
    requires owners.Keys == (set r | r in rules :: r.url) && forall u :: u in owners ==> owners[u] == Owners(rules, specs, u)
    ensures UrlsWhole(rules, specs) <==> forall u :: u in owners ==> |owners[u]| == 1
  {
    hide Owners;
    if UrlsWhole(rules, specs) {
      forall u | u in owners ensures |owners[u]| == 1 {
        var r :| r in rules && r.url == u;
        var i :| 0 <= i < |rules| && rules[i] == r;
      }
    }
  }

  // ---- Conservation ----

  lemma SharedMembers(rows: seq<Reference>, specs: SpecTable, shard: string, x: RuleReference)
    ensures x in SharedOut(rows, specs, shard) <==> exists r :: r in rows && Owned(r, specs, shard) && x == Normalised(r)
  {
    SortKeepsMembers(Share(rows, specs, shard), ByKey(ReferenceId));
    var owned := OwnedBy(rows, specs, shard);
    if x in SharedOut(rows, specs, shard) {
      var i :| 0 <= i < |owned| && Share(rows, specs, shard)[i] == x;
      assert owned[i] in owned;
    }
    if r :| r in rows && Owned(r, specs, shard) && x == Normalised(r) {
      assert r in owned;
      var i :| 0 <= i < |owned| && owned[i] == r;
      assert Share(rows, specs, shard)[i] == x;
    }
  }

  /** Every rule reference of the audit reaches exactly one shard, and shards receive nothing else. */
  lemma AllocationPartitions(rows: seq<Reference>, specs: SpecTable, order: seq<string>)
    requires TableOk(specs, order) && AllocationOk(rows, specs)
    ensures forall r :: r in rows && IsRule(r) ==> exists s :: s in order && Normalised(r) in SharedOut(rows, specs, s)
    ensures forall s, x :: x in SharedOut(rows, specs, s) ==> exists r :: r in rows && IsRule(r) && x == Normalised(r)
    ensures forall s, t, x, y :: x in SharedOut(rows, specs, s) && y in SharedOut(rows, specs, t) && s != t ==>
              x.referenceId != y.referenceId && x.ruleId != y.ruleId && x.citationUrl != y.citationUrl
    ensures forall k :: k in specs ==> exists s, x :: s in order && x in SharedOut(rows, specs, s) && x.ruleId == k
  {
    hide SharedOut, KnownRules, RulesOk, UrlsWhole;
    forall r | r in rows && IsRule(r) ensures exists s :: s in order && Normalised(r) in SharedOut(rows, specs, s) {
      var i :| 0 <= i < |rows| && rows[i] == r;
      var s := specs[r.ruleId].shardId;
      SharedMembers(rows, specs, s, Normalised(r));
      assert Owned(r, specs, s);
    }
    forall s, x | x in SharedOut(rows, specs, s) ensures exists r :: r in rows && IsRule(r) && x == Normalised(r) {
      SharedMembers(rows, specs, s, x);
    }
    forall s, t, x, y | x in SharedOut(rows, specs, s) && y in SharedOut(rows, specs, t) && s != t
      ensures x.referenceId != y.referenceId && x.ruleId != y.ruleId && x.citationUrl != y.citationUrl
    {
      SharesDisjoint(rows, specs, s, t, x, y);
    }
    forall k | k in specs ensures exists s, x :: s in order && x in SharedOut(rows, specs, s) && x.ruleId == k {
      var s, x := SharedRule(rows, specs, order, k);
    }
  }

  lemma SharedRule(rows: seq<Reference>, specs: SpecTable, order: seq<string>, k: string) returns (s: string, x: RuleReference)
    requires TableOk(specs, order) && AllocationOk(rows, specs) && k in specs
    ensures s in order && x in SharedOut(rows, specs, s) && x.ruleId == k
  {
    hide SharedOut, KnownRules, RulesOk, UrlsWhole;
    var r :| r in KnownRules(rows, specs) && r.ruleId == k;
    KnownMembers(rows, specs, r);
    s, x := specs[k].shardId, Normalised(r);
    SharedMembers(rows, specs, s, x);
    assert Owned(r, specs, s);
  }

  lemma SharesDisjoint(rows: seq<Reference>, specs: SpecTable, s: string, t: string, x: RuleReference, y: RuleReference)
    requires AllocationOk(rows, specs) && s != t && x in SharedOut(rows, specs, s) && y in SharedOut(rows, specs, t)
    ensures x.referenceId != y.referenceId && x.ruleId != y.ruleId && x.citationUrl != y.citationUrl
  {
    hide SharedOut, AllocationOk;
    SharedMembers(rows, specs, s, x);
    SharedMembers(rows, specs, t, y);
    var p :| p in rows && Owned(p, specs, s) && x == Normalised(p);
    var q :| q in rows && Owned(q, specs, t) && y == Normalised(q);
    SharesApart(rows, specs, p, q);
  }

  lemma KnownMembers(rows: seq<Reference>, specs: SpecTable, r: Reference)
    ensures r in KnownRules(rows, specs) <==> r in rows && Known(r, specs)
  {
  }

  lemma SharesApart(rows: seq<Reference>, specs: SpecTable, p: Reference, q: Reference)
    requires AllocationOk(rows, specs) && p in rows && q in rows && Known(p, specs) && Known(q, specs)
    requires specs[p.ruleId].shardId != specs[q.ruleId].shardId
    ensures p.id != q.id && p.ruleId != q.ruleId && p.url != q.url
  {
    hide AllocationOk;
    if p.id == q.id { OneRuleAnId(rows, specs, p, q); }
    if p.url == q.url { OneOwner(rows, specs, p, q); }
  }

  lemma OneOwner(rows: seq<Reference>, specs: SpecTable, p: Reference, q: Reference)
    requires AllocationOk(rows, specs) && p in rows && q in rows && Known(p, specs) && Known(q, specs) && p.url == q.url
    ensures specs[p.ruleId].shardId == specs[q.ruleId].shardId
  {
    hide KnownRules, RulesOk;
    var rules := KnownRules(rows, specs);
    KnownMembers(rows, specs, p);
    KnownMembers(rows, specs, q);
    var i :| 0 <= i < |rules| && rules[i] == p;
    OneElement(Owners(rules, specs, p.url), specs[p.ruleId].shardId, specs[q.ruleId].shardId);
  }

  lemma OneElement(s: set<string>, a: string, b: string)
    requires |s| == 1 && a in s && b in s
    ensures a == b
  {
    var rest := s - {a};
    assert |rest| == 0;
  }

  // ---- Order does not matter ----

  lemma SameMembers<T>(a: seq<T>, b: seq<T>)
    requires multiset(a) == multiset(b)
    ensures |a| == |b| && forall x :: x in a <==> x in b
  {
    forall x ensures x in a <==> x in b { InMultiset(a, x); InMultiset(b, x); }
    assert |a| == |multiset(a)| && |b| == |multiset(b)|;
  }

  lemma RulesOkRearranged(a: seq<Reference>, b: seq<Reference>, specs: SpecTable)
    requires multiset(a) == multiset(b) && RulesOk(a, specs)
    ensures RulesOk(b, specs)
  {
    hide RuleOk, Known;
    SameMembers(a, b);
    var ruleId, id := (r: Reference) => r.ruleId, (r: Reference) => r.id;
    DistinctRearranged(a, b, ruleId);
    DistinctRearranged(a, b, id);
    forall i | 0 <= i < |b| ensures Known(b[i], specs) && RuleOk(b[i], specs) {
      assert b[i] in a;
    }
    forall i, j | 0 <= i < j < |b| ensures b[i].ruleId != b[j].ruleId && b[i].id != b[j].id {
      assert ruleId(b[i]) != ruleId(b[j]) && id(b[i]) != id(b[j]);
    }
  }

  lemma AllocationRearranged(a: seq<Reference>, b: seq<Reference>, specs: SpecTable)
    requires multiset(a) == multiset(b) && AllocationOk(a, specs)
    ensures AllocationOk(b, specs)
  {
    hide RuleOk, KnownRules, RulesOk, Owners;
    var known := (r: Reference) => Known(r, specs);
    SameMembers(a, b);
    KnownPermutes(a, b, specs);
    var ka, kb := KnownRules(a, specs), KnownRules(b, specs);
    SameMembers(ka, kb);
    RulesOkRearranged(ka, kb, specs);
    forall i | 0 <= i < |b| && IsRule(b[i]) ensures Known(b[i], specs) {
      assert b[i] in a;
    }
    forall i | 0 <= i < |kb| ensures |Owners(kb, specs, kb[i].url)| == 1 {
      assert kb[i] in ka;
      var k :| 0 <= k < |ka| && ka[k] == kb[i];
      SameOwners(ka, kb, specs, kb[i].url);
    }
  }

  lemma SameOwners(a: seq<Reference>, b: seq<Reference>, specs: SpecTable, url: string)
    requires forall x :: x in a <==> x in b
    ensures Owners(a, specs, url) == Owners(b, specs, url)
  {
  }

  lemma KnownPermutes(a: seq<Reference>, b: seq<Reference>, specs: SpecTable)
    requires multiset(a) == multiset(b)
    ensures multiset(KnownRules(a, specs)) == multiset(KnownRules(b, specs))
  {
    FilterPermutes((r: Reference) => Known(r, specs), a, b);
  }

  lemma SharesPermute(a: seq<Reference>, b: seq<Reference>, specs: SpecTable, shard: string)
    requires multiset(a) == multiset(b)
    ensures multiset(Share(a, specs, shard)) == multiset(Share(b, specs, shard))
  {
    FilterPermutes((r: Reference) => Owned(r, specs, shard), a, b);
    MapEachPermutes(Normalised, OwnedBy(a, specs, shard), OwnedBy(b, specs, shard));
  }

  /** The order of the audit rows changes neither whether they can be allocated nor the allocation. */
  lemma AllocationIgnoresOrder(a: seq<Reference>, b: seq<Reference>, specs: SpecTable, order: seq<string>)
    requires multiset(a) == multiset(b)
    ensures AllocationOk(a, specs) <==> AllocationOk(b, specs)
    ensures AllocationOk(a, specs) ==> forall s :: SharedOut(a, specs, s) == SharedOut(b, specs, s)
  {
    hide AllocationOk, Share;
    if AllocationOk(a, specs) { AllocationRearranged(a, b, specs); }
    if AllocationOk(b, specs) { AllocationRearranged(b, a, specs); }
    if AllocationOk(a, specs) {
      forall s ensures SharedOut(a, specs, s) == SharedOut(b, specs, s) {
        SharesPermute(a, b, specs, s);
        ShareKeys(a, specs, s);
        ByKeyIsPreorder(ReferenceId);
        SortIgnoresOrder(Share(a, specs, s), Share(b, specs, s), ByKey(ReferenceId));
      }
    }
  }

  lemma ShareKeys(rows: seq<Reference>, specs: SpecTable, shard: string)
    requires AllocationOk(rows, specs)
    ensures DistinctKeys(Share(rows, specs, shard), ByKey(ReferenceId))
  {
    hide KnownRules, RuleOk;
    var owned, share := OwnedBy(rows, specs, shard), Share(rows, specs, shard);
    forall i, j | 0 <= i < |share| && 0 <= j < |share| && share[i].referenceId == share[j].referenceId ensures share[i] == share[j] {
      assert owned[i] in owned && owned[j] in owned;
      OneRuleAnId(rows, specs, owned[i], owned[j]);
    }
    InjectiveReferences(share);
  }

  lemma OneRuleAnId(rows: seq<Reference>, specs: SpecTable, p: Reference, q: Reference)
    requires AllocationOk(rows, specs) && p in rows && q in rows && Known(p, specs) && Known(q, specs) && p.id == q.id
    ensures p == q
  {
    hide KnownRules, Known, UrlsWhole, NoneUnexpected, RuleIds;
    var rules := KnownRules(rows, specs);
    KnownMembers(rows, specs, p);
    KnownMembers(rows, specs, q);
    var i :| 0 <= i < |rules| && rules[i] == p;
    var j :| 0 <= j < |rules| && rules[j] == q;
  }

  lemma InjectiveReferences(s: seq<RuleReference>)
    requires forall i, j :: 0 <= i < |s| && 0 <= j < |s| && s[i].referenceId == s[j].referenceId ==> s[i] == s[j]
    ensures DistinctKeys(s, ByKey(ReferenceId))
  {
    forall i, j | 0 <= i < |s| && 0 <= j < |s| && ByKey(ReferenceId)(s[i], s[j]) && ByKey(ReferenceId)(s[j], s[i]) ensures s[i] == s[j] {
      StringLeAntisymmetric(ReferenceId(s[i]), ReferenceId(s[j]));
    }
  }
}
