/** Which audits can be allocated, and what each shard is given, said of the audit rows alone. */
module AllocationLaws {
  import opened Sequences
  import opened Sorting
  import opened CacheModel
  import opened Surface
  import opened Projection
  import opened Allocation
  import opened VerdictLaws
  import opened ViewLaws

  /** Sixty-four lower-case hexadecimal digits. */
  predicate Digest(s: string) { |s| == 64 && forall i :: 0 <= i < |s| ==> '0' <= s[i] <= '9' || 'a' <= s[i] <= 'f' }

  predicate RuleRow(r: Reference) { r.kind == "rule" }

  /** The row is planned, well formed, and cites what the plan says. */
  predicate FollowsPlan(r: Reference, specs: SpecTable) {
    && r.ruleId in specs && Digest(r.id) && Digest(r.surface)
    && r.url == specs[r.ruleId].url && r.section == specs[r.ruleId].section
  }

  /** Every rule row follows the plan, no rule or reference ID is used twice, every planned rule has a row, and rules that cite
      one URL belong to one shard. */
  predicate Allocatable(rows: seq<Reference>, specs: SpecTable) {
    && (forall i :: 0 <= i < |rows| && RuleRow(rows[i]) ==> FollowsPlan(rows[i], specs))
    && (forall i, j :: 0 <= i < j < |rows| && RuleRow(rows[i]) && RuleRow(rows[j]) ==>
          rows[i].ruleId != rows[j].ruleId && rows[i].id != rows[j].id)
    && (forall k :: k in specs ==> exists i :: 0 <= i < |rows| && RuleRow(rows[i]) && rows[i].ruleId == k)
    && forall i, j :: 0 <= i < |rows| && 0 <= j < |rows| && RuleRow(rows[i]) && RuleRow(rows[j]) && rows[i].url == rows[j].url
                      && rows[i].ruleId in specs && rows[j].ruleId in specs ==>
         specs[rows[i].ruleId].shardId == specs[rows[j].ruleId].shardId
  }

  function RuleIdOfRow(r: Reference): string { r.ruleId }

  function IdOfRow(r: Reference): string { r.id }

  lemma RuleFollows(r: Reference, specs: SpecTable)
    ensures Known(r, specs) && RuleOk(r, specs) <==> RuleRow(r) && FollowsPlan(r, specs)
  {
  }

  /** The well-formedness half of the plan's checks. */
  lemma RulesFollow(rows: seq<Reference>, specs: SpecTable)
    requires NoneUnexpected(rows, specs)
    ensures RulesOk(KnownRules(rows, specs), specs) <==>
      && (forall i :: 0 <= i < |rows| && RuleRow(rows[i]) ==> FollowsPlan(rows[i], specs))
      && ShownApart(rows, (r: Reference) => Known(r, specs), RuleIdOfRow) && ShownApart(rows, (r: Reference) => Known(r, specs), IdOfRow)
  {
    hide Filter, FollowsPlan, RuleOk, MapEach;
    var p := (r: Reference) => Known(r, specs);
    var rules := KnownRules(rows, specs);
    ApartExactly(p, rows, RuleIdOfRow);
    ApartExactly(p, rows, IdOfRow);
    KeysDiffer(rules, RuleIdOfRow);
    KeysDiffer(rules, IdOfRow);
    forall r: Reference ensures r in rules <==> r in rows && Known(r, specs) { KnownMembers(rows, specs, r); }
    forall r: Reference ensures Known(r, specs) && RuleOk(r, specs) <==> RuleRow(r) && FollowsPlan(r, specs) { RuleFollows(r, specs); }
    EachFollows(rows, rules, specs);
  }

  lemma KeysDiffer(rules: seq<Reference>, key: Reference -> string)
    ensures NoDuplicates(MapEach(key, rules)) <==> forall i, j :: 0 <= i < j < |rules| ==> key(rules[i]) != key(rules[j])
  {
    var keys := MapEach(key, rules);
    assert forall i :: 0 <= i < |rules| ==> keys[i] == key(rules[i]);
    if NoDuplicates(keys) {
      forall i, j | 0 <= i < j < |rules| ensures key(rules[i]) != key(rules[j]) { assert keys[i] != keys[j]; }
    }
  }

  lemma EachFollows(rows: seq<Reference>, rules: seq<Reference>, specs: SpecTable)
    requires NoneUnexpected(rows, specs) && forall r :: r in rules <==> r in rows && Known(r, specs)
    requires forall r :: Known(r, specs) && RuleOk(r, specs) <==> RuleRow(r) && FollowsPlan(r, specs)
    ensures (forall i :: 0 <= i < |rules| ==> Known(rules[i], specs) && RuleOk(rules[i], specs)) <==>
            forall i :: 0 <= i < |rows| && RuleRow(rows[i]) ==> FollowsPlan(rows[i], specs)
  {
    hide RuleOk, FollowsPlan;
    if forall i :: 0 <= i < |rules| ==> Known(rules[i], specs) && RuleOk(rules[i], specs) {
      forall i | 0 <= i < |rows| && RuleRow(rows[i]) ensures FollowsPlan(rows[i], specs) {
        assert rows[i] in rules;
        var k :| 0 <= k < |rules| && rules[k] == rows[i];
      }
    }
    if forall i :: 0 <= i < |rows| && RuleRow(rows[i]) ==> FollowsPlan(rows[i], specs) {
      forall i | 0 <= i < |rules| ensures Known(rules[i], specs) && RuleOk(rules[i], specs) {
        assert rules[i] in rules;
        var k :| 0 <= k < |rows| && rows[k] == rules[i];
      }
    }
  }

  /** With every rule row known, the two ways to ask for different IDs agree. */
  lemma KnownApart(rows: seq<Reference>, specs: SpecTable)
    requires NoneUnexpected(rows, specs)
    ensures ShownApart(rows, (r: Reference) => Known(r, specs), RuleIdOfRow) && ShownApart(rows, (r: Reference) => Known(r, specs), IdOfRow) <==>
            forall i, j :: 0 <= i < j < |rows| && RuleRow(rows[i]) && RuleRow(rows[j]) ==> rows[i].ruleId != rows[j].ruleId && rows[i].id != rows[j].id
  {
    forall i | 0 <= i < |rows| ensures Known(rows[i], specs) <==> RuleRow(rows[i]) { }
    if ShownApart(rows, (r: Reference) => Known(r, specs), RuleIdOfRow) && ShownApart(rows, (r: Reference) => Known(r, specs), IdOfRow) {
      forall i, j | 0 <= i < j < |rows| && RuleRow(rows[i]) && RuleRow(rows[j]) ensures rows[i].ruleId != rows[j].ruleId && rows[i].id != rows[j].id {
        assert RuleIdOfRow(rows[i]) != RuleIdOfRow(rows[j]) && IdOfRow(rows[i]) != IdOfRow(rows[j]);
      }
    }
  }

  lemma RulesCovered(rows: seq<Reference>, specs: SpecTable)
    requires NoneUnexpected(rows, specs)
    ensures specs.Keys == RuleIds(KnownRules(rows, specs)) <==>
            forall k :: k in specs ==> exists i :: 0 <= i < |rows| && RuleRow(rows[i]) && rows[i].ruleId == k
  {
    hide KnownRules;
    var rules := KnownRules(rows, specs);
    forall k ensures k in RuleIds(rules) <==> k in specs && exists i :: 0 <= i < |rows| && RuleRow(rows[i]) && rows[i].ruleId == k {
      if r :| r in rules && r.ruleId == k {
        KnownMembers(rows, specs, r);
        var i :| 0 <= i < |rows| && rows[i] == r;
        assert RuleRow(rows[i]);
      }
      if i :| 0 <= i < |rows| && RuleRow(rows[i]) && rows[i].ruleId == k && k in specs { KnownMembers(rows, specs, rows[i]); }
    }
  }

  lemma UrlsTogether(rows: seq<Reference>, specs: SpecTable)
    ensures UrlsWhole(KnownRules(rows, specs), specs) <==>
            forall p, q :: p in rows && q in rows && Known(p, specs) && Known(q, specs) && p.url == q.url ==>
              specs[p.ruleId].shardId == specs[q.ruleId].shardId
  {
    hide KnownRules, Known;
    var rules := KnownRules(rows, specs);
    if UrlsWhole(rules, specs) {
      forall p, q | p in rows && q in rows && Known(p, specs) && Known(q, specs) && p.url == q.url
        ensures Planned(p, specs) == Planned(q, specs)
      {
        KnownMembers(rows, specs, p);
        KnownMembers(rows, specs, q);
        var i :| 0 <= i < |rules| && rules[i] == p;
        OwnersHave(rules, specs, p, p.url);
        OwnersHave(rules, specs, q, p.url);
        OneElement(Owners(rules, specs, p.url), Planned(p, specs), Planned(q, specs));
      }
    }
    if forall p, q :: p in rows && q in rows && Known(p, specs) && Known(q, specs) && p.url == q.url ==> Planned(p, specs) == Planned(q, specs) {
      forall i | 0 <= i < |rules| ensures |Owners(rules, specs, rules[i].url)| == 1 {
        assert rules[i] in rules;
        KnownMembers(rows, specs, rules[i]);
        OwnersHave(rules, specs, rules[i], rules[i].url);
        forall s | s in Owners(rules, specs, rules[i].url) ensures s == Planned(rules[i], specs) {
          var q := OwnerOf(rules, specs, rules[i].url, s);
          KnownMembers(rows, specs, q);
        }
        assert Owners(rules, specs, rules[i].url) == {Planned(rules[i], specs)};
      }
    }
  }

  function Planned(r: Reference, specs: SpecTable): string
    requires Known(r, specs)
  {
    specs[r.ruleId].shardId
  }

  lemma OwnersHave(rules: seq<Reference>, specs: SpecTable, r: Reference, url: string)
    requires r in rules && r.url == url && Known(r, specs)
    ensures Planned(r, specs) in Owners(rules, specs, url)
  {
  }

  lemma OwnerOf(rules: seq<Reference>, specs: SpecTable, url: string, s: string) returns (q: Reference)
    requires s in Owners(rules, specs, url)
    ensures q in rules && q.url == url && Known(q, specs) && Planned(q, specs) == s
  {
    q :| q in rules && q.url == url && Known(q, specs) && Planned(q, specs) == s;
  }

  /** The allocator accepts exactly the allocatable audits. */
  lemma AllocatesExactly(rows: seq<Reference>, specs: SpecTable)
    ensures AllocationOk(rows, specs) <==> Allocatable(rows, specs)
  {
    hide KnownRules, RulesOk, RuleIds, UrlsWhole, FollowsPlan, ShownApart;
    FollowedIsKnown(rows, specs);
    if NoneUnexpected(rows, specs) {
      RulesFollow(rows, specs);
      KnownApart(rows, specs);
      RulesCovered(rows, specs);
      UrlsTogether(rows, specs);
      TogetherByPlace(rows, specs);
    }
  }

  lemma FollowedIsKnown(rows: seq<Reference>, specs: SpecTable)
    ensures (forall i :: 0 <= i < |rows| && RuleRow(rows[i]) ==> FollowsPlan(rows[i], specs)) ==> NoneUnexpected(rows, specs)
  {
  }

  lemma TogetherByPlace(rows: seq<Reference>, specs: SpecTable)
    requires NoneUnexpected(rows, specs)
    ensures (forall p, q :: p in rows && q in rows && Known(p, specs) && Known(q, specs) && p.url == q.url ==>
               specs[p.ruleId].shardId == specs[q.ruleId].shardId) <==>
            forall i, j :: 0 <= i < |rows| && 0 <= j < |rows| && RuleRow(rows[i]) && RuleRow(rows[j]) && rows[i].url == rows[j].url
                           && rows[i].ruleId in specs && rows[j].ruleId in specs ==>
              specs[rows[i].ruleId].shardId == specs[rows[j].ruleId].shardId
  {
    if forall p, q :: p in rows && q in rows && Known(p, specs) && Known(q, specs) && p.url == q.url ==> specs[p.ruleId].shardId == specs[q.ruleId].shardId {
      forall i, j | 0 <= i < |rows| && 0 <= j < |rows| && RuleRow(rows[i]) && RuleRow(rows[j]) && rows[i].url == rows[j].url
                    && rows[i].ruleId in specs && rows[j].ruleId in specs
        ensures specs[rows[i].ruleId].shardId == specs[rows[j].ruleId].shardId
      {
        assert rows[i] in rows && rows[j] in rows;
      }
    }
  }

  /** What a shard is given: one reference for each of its rule rows, with the row's own fields, and no other, by reference ID. */
  lemma SharesExactly(rows: seq<Reference>, specs: SpecTable, shard: string)
    requires AllocationOk(rows, specs)
    ensures forall x :: x in SharedOut(rows, specs, shard) <==>
              exists r :: r in rows && r.kind == "rule" && r.ruleId in specs && specs[r.ruleId].shardId == shard
                          && x.referenceId == r.id && x.surfaceSha256 == r.surface && x.ruleId == r.ruleId
                          && x.citationUrl == r.url && x.section == r.section
    ensures forall i, j :: 0 <= i < j < |SharedOut(rows, specs, shard)| ==>
              StringLt(SharedOut(rows, specs, shard)[i].referenceId, SharedOut(rows, specs, shard)[j].referenceId)
  {
    hide AllocationOk, SharedOut;
    forall x ensures x in SharedOut(rows, specs, shard) <==>
              exists r :: r in rows && r.kind == "rule" && r.ruleId in specs && specs[r.ruleId].shardId == shard
                          && x.referenceId == r.id && x.surfaceSha256 == r.surface && x.ruleId == r.ruleId
                          && x.citationUrl == r.url && x.section == r.section
    {
      SharedMembers(rows, specs, shard, x);
      if r :| r in rows && Owned(r, specs, shard) && x == Normalised(r) {
        assert r.kind == "rule" && x.referenceId == r.id;
      }
      if r :| r in rows && r.kind == "rule" && r.ruleId in specs && specs[r.ruleId].shardId == shard
              && x.referenceId == r.id && x.surfaceSha256 == r.surface && x.ruleId == r.ruleId && x.citationUrl == r.url && x.section == r.section {
        assert Owned(r, specs, shard) && x == Normalised(r);
      }
    }
    SharesAscend(rows, specs, shard);
  }

  lemma SharesAscend(rows: seq<Reference>, specs: SpecTable, shard: string)
    requires AllocationOk(rows, specs)
    ensures forall i, j :: 0 <= i < j < |SharedOut(rows, specs, shard)| ==>
              StringLt(SharedOut(rows, specs, shard)[i].referenceId, SharedOut(rows, specs, shard)[j].referenceId)
  {
    hide AllocationOk, Filter;
    AllocatesExactly(rows, specs);
    var p := (r: Reference) => Owned(r, specs, shard);
    var owned, share, out := OwnedBy(rows, specs, shard), Share(rows, specs, shard), SharedOut(rows, specs, shard);
    ApartExactly(p, rows, IdOfRow);
    KeysDiffer(owned, IdOfRow);
    forall i, j | 0 <= i < j < |rows| && p(rows[i]) && p(rows[j]) ensures IdOfRow(rows[i]) != IdOfRow(rows[j]) { assert RuleRow(rows[i]) && RuleRow(rows[j]); }
    forall i, j | 0 <= i < j < |share| ensures ReferenceId(share[i]) != ReferenceId(share[j]) {
      assert share[i] == Normalised(owned[i]) && share[j] == Normalised(owned[j]);
      assert IdOfRow(owned[i]) != IdOfRow(owned[j]);
    }
    SortPermutes(share, ByKey(ReferenceId));
    DistinctRearranged(share, out, ReferenceId);
    ByKeyIsPreorder(ReferenceId);
    SortSorts(share, ByKey(ReferenceId));
    forall i, j | 0 <= i < j < |out| ensures StringLt(out[i].referenceId, out[j].referenceId) {
      assert ByKey(ReferenceId)(out[i], out[j]) && ReferenceId(out[i]) != ReferenceId(out[j]);
    }
  }
}
