/** What a shard sees of a pack, row by row and in pack order, and when it sees anything; how bound targets are divided. */
module ViewLaws {
  import opened Sequences
  import opened Sorting
  import opened CacheModel
  import opened Surface
  import opened Projection
  import opened Allocation
  import opened ShardResult
  import opened VerdictLaws
  import opened PackProjection
  import opened SourceProjections

  // ---- Selected rows in order ----

  /** `out` holds one row for each shown row of `s` and no other, in order: `at` gives the positions. */
  ghost predicate Picks<S, T>(s: seq<S>, out: seq<T>, at: seq<nat>, shown: S -> bool, cut: (S, T) -> bool) {
    && |at| == |out|
    && (forall i :: 0 <= i < |at| ==> at[i] < |s| && shown(s[at[i]]) && cut(s[at[i]], out[i]))
    && (forall i, j :: 0 <= i < j < |at| ==> at[i] < at[j])
    && forall k :: 0 <= k < |s| && shown(s[k]) ==> k in at
  }

  /** Each row gives one row when shown, and none otherwise. */
  ghost predicate Cuts<S(!new), T>(f: S -> seq<T>, shown: S -> bool, cut: (S, T) -> bool) {
    forall x :: if shown(x) then |f(x)| == 1 && cut(x, f(x)[0]) else f(x) == []
  }

  lemma PicksNext<S, T>(s: seq<S>, out: seq<T>, at: seq<nat>, x: S, y: T, shown: S -> bool, cut: (S, T) -> bool)
    requires Picks(s, out, at, shown, cut) && shown(x) && cut(x, y)
    ensures Picks(s + [x], out + [y], at + [|s|], shown, cut)
  {
    var all := at + [|s|];
    forall k | 0 <= k < |s + [x]| && shown((s + [x])[k]) ensures k in all {
      if k < |s| { assert k in at; } else { assert all[|at|] == k; }
    }
  }

  lemma PicksSkip<S, T>(s: seq<S>, out: seq<T>, at: seq<nat>, x: S, shown: S -> bool, cut: (S, T) -> bool)
    requires Picks(s, out, at, shown, cut) && !shown(x)
    ensures Picks(s + [x], out, at, shown, cut)
  {
  }

  lemma {:induction false} FlatPicks<S(!new), T>(f: S -> seq<T>, s: seq<S>, shown: S -> bool, cut: (S, T) -> bool) returns (at: seq<nat>)
    requires Cuts(f, shown, cut)
    ensures Picks(s, FlatMap(f, s), at, shown, cut)
  {
    hide Picks;
    if s == [] {
      at := [];
      NothingPicked<S, T>(shown, cut);
    } else {
      var front, last := s[..|s| - 1], s[|s| - 1];
      at := FlatPicks(f, front, shown, cut);
      FlatMapSnoc(f, front, last);
      assert front + [last] == s;
      if shown(last) {
        assert f(last) == [f(last)[0]];
        PicksNext(front, FlatMap(f, front), at, last, f(last)[0], shown, cut);
        at := at + [|front|];
      } else {
        PicksSkip(front, FlatMap(f, front), at, last, shown, cut);
        assert FlatMap(f, front) + [] == FlatMap(f, front);
      }
    }
  }

  lemma NothingPicked<S, T>(shown: S -> bool, cut: (S, T) -> bool)
    ensures Picks<S, T>([], [], [], shown, cut)
  {
  }

  function Same<T(==)>(): (T, T) -> bool { (a, b) => a == b }

  lemma {:induction false} FilterPicks<T(!new)>(p: T -> bool, s: seq<T>) returns (at: seq<nat>)
    ensures Picks(s, Filter(p, s), at, p, Same())
  {
    hide Picks, Filter;
    if s == [] {
      at := [];
      NothingPicked<T, T>(p, Same());
      NothingKept(p);
    } else {
      var front, last := s[..|s| - 1], s[|s| - 1];
      at := FilterPicks(p, front);
      FilterSnoc(p, front, last);
      assert front + [last] == s;
      if p(last) {
        PicksNext(front, Filter(p, front), at, last, last, p, Same());
        at := at + [|front|];
      } else {
        PicksSkip(front, Filter(p, front), at, last, p, Same());
        assert Filter(p, front) + [] == Filter(p, front);
      }
    }
  }

  // ---- One view ----

  predicate AssignedTo(refs: seq<RuleReference>, id: string) { exists r :: r in refs && r.ruleId == id }

  /** A binding of an assigned rule has this ID. */
  predicate SelectedId(pack: Pack, refs: seq<RuleReference>, bindingId: Binding -> string, x: string) {
    exists b :: b in pack.bindings && AssignedTo(refs, b.ruleId) && bindingId(b) == x
  }

  predicate Ascends(s: seq<string>) { forall i, j :: 0 <= i < j < |s| ==> StringLt(s[i], s[j]) }

  ghost predicate RuleShown(refs: seq<RuleReference>, r: Rule) { AssignedTo(refs, r.documentId + ":" + r.documentVersion + ":" + r.ruleId) }

  ghost predicate TargetShown(pack: Pack, refs: seq<RuleReference>, governance: bool, bindingId: Binding -> string, t: TargetEntry) {
    if t.status == "bound" then exists x :: x in t.bindingIds && SelectedId(pack, refs, bindingId, x) else governance
  }

  /** A bound target keeps exactly its selected bindings, ascending; any other row is kept whole. */
  ghost predicate TargetCut(pack: Pack, refs: seq<RuleReference>, bindingId: Binding -> string, t: TargetEntry, row: TargetEntry) {
    if t.status != "bound" then row == t
    else
      && row == TargetEntry("bound", row.bindingIds, t.text) && Ascends(row.bindingIds)
      && forall x :: x in row.bindingIds <==> x in t.bindingIds && SelectedId(pack, refs, bindingId, x)
  }

  ghost predicate EntryShown(refs: seq<RuleReference>, governance: bool, e: CoverageEntry) {
    if e.status == "rule" then exists id :: id in e.ruleIds && AssignedTo(refs, id) else governance
  }

  ghost predicate EntryCut(pack: Pack, refs: seq<RuleReference>, bindingId: Binding -> string, e: CoverageEntry, row: CoverageEntry) {
    if e.status != "rule" then row == e
    else
      && row == CoverageEntry(e.documentId, e.documentVersion, "rule", row.ruleIds, row.bindingIds, e.text)
      && Ascends(row.ruleIds) && Ascends(row.bindingIds)
      && (forall id :: id in row.ruleIds <==> id in e.ruleIds && AssignedTo(refs, id))
      && forall x :: x in row.bindingIds <==> x in e.bindingIds && SelectedId(pack, refs, bindingId, x)
  }

  /** A document is shown when a shown rule or coverage row belongs to it. */
  ghost predicate DocumentShown(v: View, d: Document) {
    || (exists r :: r in v.rules && r.documentId == d.documentId && r.documentVersion == d.documentVersion)
    || (exists e :: e in v.entries && e.documentId == d.documentId && e.documentVersion == d.documentVersion)
  }

  lemma SortedSetAscends(ids: seq<string>)
    ensures Ascends(SortedSet(ids)) && forall x :: x in SortedSet(ids) <==> x in ids
  {
    hide Distinct, SortStrings;
    SortedSetMembers(ids);
    SortedDistinct(Distinct(ids));
  }

  lemma SortedDistinct(ids: seq<string>)
    requires NoDuplicates(ids)
    ensures Ascends(SortStrings(ids))
  {
    var r := SortStrings(ids);
    NoDuplicatesSorted(ids);
    ByKeyIsPreorder(Self);
    SortSorts(ids, ByKey(Self));
    forall i, j | 0 <= i < j < |r| ensures StringLt(r[i], r[j]) { assert ByKey(Self)(r[i], r[j]) && Self(r[i]) == r[i] && Self(r[j]) == r[j]; }
  }

  lemma KeptExactly(ids: seq<string>, allowed: set<string>)
    ensures Ascends(Kept(ids, allowed)) && forall x :: x in Kept(ids, allowed) <==> x in ids && x in allowed
    ensures Kept(ids, allowed) != [] <==> exists x :: x in ids && x in allowed
  {
    hide SortedSet;
    KeptMembers(ids, allowed);
    SortedSetAscends(Filter(x => x in allowed, ids));
  }

  lemma AssignedMembers(refs: seq<RuleReference>)
    ensures var ids := SortedSet(MapEach(RuleIdOf, refs));
      && (forall id :: id in Members(ids) <==> AssignedTo(refs, id)) && (forall id :: id in ids <==> AssignedTo(refs, id))
  {
    hide SortedSet, MapEach;
    var ids := SortedSet(MapEach(RuleIdOf, refs));
    SortedSetMembers(MapEach(RuleIdOf, refs));
    forall id ensures (id in Members(ids) <==> AssignedTo(refs, id)) && (id in ids <==> AssignedTo(refs, id)) {
      AssignedRule(refs, id);
      MembersHas(ids, id);
    }
  }

  lemma SelectedMembers(pack: Pack, refs: seq<RuleReference>, bindingId: Binding -> string)
    ensures var ids := SortedSet(MapEach(RuleIdOf, refs));
      forall x :: x in Members(MapEach(bindingId, PackBindings(pack, ids))) <==> SelectedId(pack, refs, bindingId, x)
  {
    hide SortedSet, MapEach, Members, AssignedTo;
    var ids := SortedSet(MapEach(RuleIdOf, refs));
    AssignedMembers(refs);
    var bindings := PackBindings(pack, ids);
    forall x ensures x in Members(MapEach(bindingId, bindings)) <==> SelectedId(pack, refs, bindingId, x) {
      MembersHas(MapEach(bindingId, bindings), x);
      KeysHave(bindings, bindingId, x);
      if i :| 0 <= i < |bindings| && bindingId(bindings[i]) == x { assert bindings[i] in bindings; }
      if b :| b in pack.bindings && AssignedTo(refs, b.ruleId) && bindingId(b) == x {
        assert b in bindings;
        var i :| 0 <= i < |bindings| && bindings[i] == b;
      }
    }
  }

  lemma TargetCuts(pack: Pack, refs: seq<RuleReference>, governance: bool, bindingId: Binding -> string, bindings: set<string>)
    requires forall x :: x in bindings <==> SelectedId(pack, refs, bindingId, x)
    ensures Cuts((t: TargetEntry) => TargetView(t, bindings, governance),
                 t => TargetShown(pack, refs, governance, bindingId, t), (t, row) => TargetCut(pack, refs, bindingId, t, row))
  {
    hide SelectedId, Kept, Ascends;
    forall t: TargetEntry
      ensures var f := TargetView(t, bindings, governance);
        if TargetShown(pack, refs, governance, bindingId, t) then |f| == 1 && TargetCut(pack, refs, bindingId, t, f[0]) else f == []
    {
      KeptExactly(t.bindingIds, bindings);
    }
  }

  lemma EntryCuts(pack: Pack, refs: seq<RuleReference>, governance: bool, bindingId: Binding -> string, rules: set<string>, bindings: set<string>)
    requires forall x :: x in bindings <==> SelectedId(pack, refs, bindingId, x)
    requires forall id :: id in rules <==> AssignedTo(refs, id)
    ensures Cuts((e: CoverageEntry) => EntryView(e, rules, bindings, governance),
                 e => EntryShown(refs, governance, e), (e, row) => EntryCut(pack, refs, bindingId, e, row))
  {
    hide SelectedId, AssignedTo, Kept, Ascends;
    forall e: CoverageEntry
      ensures var f := EntryView(e, rules, bindings, governance);
        if EntryShown(refs, governance, e) then |f| == 1 && EntryCut(pack, refs, bindingId, e, f[0]) else f == []
    {
      KeptExactly(e.ruleIds, rules);
      KeptExactly(e.bindingIds, bindings);
    }
  }

  /** The targets of a view: one row for each bound target that lists a selected binding, cut down to those, one for each other
      target when the shard governs the pack, and no more, in pack order. */
  lemma TargetsExactly(pack: Pack, packId: string, refs: seq<RuleReference>, governance: bool, bindingId: Binding -> string) returns (at: seq<nat>)
    requires ProjectPack(pack, packId, refs, governance, bindingId).Some?
    ensures Picks(pack.targets, ProjectPack(pack, packId, refs, governance, bindingId).value.targets, at,
                  t => TargetShown(pack, refs, governance, bindingId, t), (t, row) => TargetCut(pack, refs, bindingId, t, row))
  {
    hide Picks, TargetCut, TargetShown, TargetView, SortedSet, MapEach, EntriesView, PackRules, DocumentKeys, PackDocuments, Members;
    var ids := SortedSet(MapEach(RuleIdOf, refs));
    var bindings := Members(MapEach(bindingId, PackBindings(pack, ids)));
    SelectedMembers(pack, refs, bindingId);
    TargetCuts(pack, refs, governance, bindingId, bindings);
    at := FlatPicks((t: TargetEntry) => TargetView(t, bindings, governance), pack.targets,
                    t => TargetShown(pack, refs, governance, bindingId, t), (t, row) => TargetCut(pack, refs, bindingId, t, row));
  }

  /** The coverage rows of a view, in the same terms. */
  lemma EntriesExactly(pack: Pack, packId: string, refs: seq<RuleReference>, governance: bool, bindingId: Binding -> string) returns (at: seq<nat>)
    requires ProjectPack(pack, packId, refs, governance, bindingId).Some?
    ensures Picks(pack.entries, ProjectPack(pack, packId, refs, governance, bindingId).value.entries, at,
                  e => EntryShown(refs, governance, e), (e, row) => EntryCut(pack, refs, bindingId, e, row))
  {
    hide Picks, EntryCut, EntryShown, EntryView, SortedSet, MapEach, TargetsView, PackRules, DocumentKeys, PackDocuments, Members;
    var ids := SortedSet(MapEach(RuleIdOf, refs));
    var bindings := Members(MapEach(bindingId, PackBindings(pack, ids)));
    SelectedMembers(pack, refs, bindingId);
    AssignedMembers(refs);
    EntryCuts(pack, refs, governance, bindingId, Members(ids), bindings);
    at := FlatPicks((e: CoverageEntry) => EntryView(e, Members(ids), bindings, governance), pack.entries,
                    e => EntryShown(refs, governance, e), (e, row) => EntryCut(pack, refs, bindingId, e, row));
  }

  lemma PicksSameRows<T>(s: seq<T>, out: seq<T>, at: seq<nat>, p: T -> bool, q: T -> bool)
    requires Picks(s, out, at, p, Same()) && forall k :: 0 <= k < |s| ==> (p(s[k]) <==> q(s[k]))
    ensures Picks(s, out, at, q, Same())
  {
  }

  /** The rules, bindings and documents of a view, in pack order. */
  lemma PlainRowsExactly(pack: Pack, packId: string, refs: seq<RuleReference>, governance: bool, bindingId: Binding -> string)
    returns (rules: seq<nat>, bindings: seq<nat>, documents: seq<nat>)
    requires ProjectPack(pack, packId, refs, governance, bindingId).Some?
    ensures var v := ProjectPack(pack, packId, refs, governance, bindingId).value;
      && Picks(pack.rules, v.rules, rules, r => RuleShown(refs, r), Same())
      && Picks(pack.bindings, v.bindings, bindings, (b: Binding) => AssignedTo(refs, b.ruleId), Same())
      && Picks(pack.documents, v.documents, documents, d => DocumentShown(v, d), Same())
  {
    hide Picks, AssignedTo, SortedSet, MapEach, TargetsView, EntriesView, Members, Filter;
    var v := ProjectPack(pack, packId, refs, governance, bindingId).value;
    var ids := SortedSet(MapEach(RuleIdOf, refs));
    var keys := DocumentKeys(v.rules, v.entries);
    AssignedMembers(refs);
    rules := FilterPicks((r: Rule) => Qualified(r) in ids, pack.rules);
    PicksSameRows(pack.rules, v.rules, rules, (r: Rule) => Qualified(r) in ids, r => RuleShown(refs, r));
    bindings := FilterPicks((b: Binding) => b.ruleId in ids, pack.bindings);
    PicksSameRows(pack.bindings, v.bindings, bindings, (b: Binding) => b.ruleId in ids, (b: Binding) => AssignedTo(refs, b.ruleId));
    documents := FilterPicks((d: Document) => DocumentKey(d) in keys, pack.documents);
    forall d: Document ensures DocumentKey(d) in keys <==> DocumentShown(v, d) { KeyIsShown(v, d); }
    PicksSameRows(pack.documents, v.documents, documents, (d: Document) => DocumentKey(d) in keys, d => DocumentShown(v, d));
  }

  lemma KeyIsShown(v: View, d: Document)
    ensures DocumentKey(d) in DocumentKeys(v.rules, v.entries) <==> DocumentShown(v, d)
  {
    if DocumentKey(d) in DocumentKeys(v.rules, v.entries) {
      if e :| e in v.entries && EntryKey(e) == DocumentKey(d) {
        assert e in v.entries && e.documentId == d.documentId && e.documentVersion == d.documentVersion;
      } else {
        var r :| r in v.rules && RuleKey(r) == DocumentKey(d);
        assert r in v.rules && r.documentId == d.documentId && r.documentVersion == d.documentVersion;
      }
    }
    if r :| r in v.rules && r.documentId == d.documentId && r.documentVersion == d.documentVersion { assert RuleKey(r) == DocumentKey(d); }
    if e :| e in v.entries && e.documentId == d.documentId && e.documentVersion == d.documentVersion { assert EntryKey(e) == DocumentKey(d); }
  }

  /** The inventory of a view: the assigned rule and reference IDs, each once and ascending, under the pack's own header. */
  lemma ViewInventory(pack: Pack, packId: string, refs: seq<RuleReference>, governance: bool, bindingId: Binding -> string)
    requires ProjectPack(pack, packId, refs, governance, bindingId).Some?
    ensures var v := ProjectPack(pack, packId, refs, governance, bindingId).value;
      && pack.packId == packId && v.header == pack.header
      && Ascends(v.ruleIds) && (forall id :: id in v.ruleIds <==> AssignedTo(refs, id))
      && Ascends(v.referenceIds) && (forall id :: id in v.referenceIds <==> exists r :: r in refs && r.referenceId == id)
  {
    hide AssignedTo, SortedSet, MapEach, TargetsView, EntriesView, Members, Filter, Ascends;
    SortedSetAscends(MapEach(RuleIdOf, refs));
    SortedSetAscends(MapEach(ReferenceId, refs));
    AssignedMembers(refs);
    forall id ensures id in MapEach(ReferenceId, refs) <==> exists r :: r in refs && r.referenceId == id { ReferenceIdIn(refs, id); }
  }

  lemma ReferenceIdIn(refs: seq<RuleReference>, id: string)
    ensures id in MapEach(ReferenceId, refs) <==> exists r :: r in refs && r.referenceId == id
  {
    hide MapEach;
    KeysHave(refs, ReferenceId, id);
    if i :| 0 <= i < |refs| && ReferenceId(refs[i]) == id { assert refs[i] in refs; }
    if r :| r in refs && r.referenceId == id { var i :| 0 <= i < |refs| && refs[i] == r; }
  }

  // ---- When a pack projects ----

  function RuleName(r: Rule): string { r.documentId + ":" + r.documentVersion + ":" + r.ruleId }

  /** The shown rows have different keys. */
  ghost predicate ShownApart<T(!new), K>(s: seq<T>, shown: T -> bool, key: T -> K) {
    forall i, j :: 0 <= i < j < |s| && shown(s[i]) && shown(s[j]) ==> key(s[i]) != key(s[j])
  }

  lemma ApartExactly<T(!new)>(p: T -> bool, s: seq<T>, key: T -> string)
    ensures NoDuplicates(MapEach(key, Filter(p, s))) <==> ShownApart(s, p, key)
  {
    hide Filter, MapEach;
    var kept := Filter(p, s);
    var at := FilterPicks(p, s);
    var keys := MapEach(key, kept);
    forall i | 0 <= i < |kept| ensures keys[i] == key(s[at[i]]) { assert Same<T>()(s[at[i]], kept[i]); }
    if ShownApart(s, p, key) {
      forall i, j | 0 <= i < j < |keys| ensures keys[i] != keys[j] { }
    }
    if NoDuplicates(keys) {
      forall i, j | 0 <= i < j < |s| && p(s[i]) && p(s[j]) ensures key(s[i]) != key(s[j]) {
        var k :| 0 <= k < |at| && at[k] == i;
        var l :| 0 <= l < |at| && at[l] == j;
        assert keys[k] != keys[l];
      }
    }
  }

  lemma SortedIsExactly(names: seq<string>, ids: seq<string>)
    requires Ascends(ids)
    ensures SortStrings(names) == ids <==> NoDuplicates(names) && forall x :: x in names <==> x in ids
  {
    hide Sort;
    AscendsDistinct(ids);
    SortPermutes(names, ByKey(Self));
    SortKeepsMembers(names, ByKey(Self));
    if SortStrings(names) == ids {
      forall i, j | 0 <= i < j < |ids| ensures Self(ids[i]) != Self(ids[j]) { }
      DistinctRearranged(ids, names, Self);
      forall i, j | 0 <= i < j < |names| ensures names[i] != names[j] { assert Self(names[i]) != Self(names[j]); }
    }
    if NoDuplicates(names) && forall x :: x in names <==> x in ids {
      SameMembersSamePermutation(names, ids);
      SameSortedStrings(names, ids);
      forall i, j | 0 <= i < j < |ids| ensures ByKey(Self)(ids[i], ids[j]) {
        assert StringLt(ids[i], ids[j]) && Self(ids[i]) == ids[i] && Self(ids[j]) == ids[j];
      }
      SortFixesSorted(ids, ByKey(Self));
    }
  }

  lemma AscendsDistinct(ids: seq<string>)
    requires Ascends(ids)
    ensures NoDuplicates(ids)
  {
    forall i, j | 0 <= i < j < |ids| ensures ids[i] != ids[j] { assert StringLt(ids[i], ids[j]); }
  }

  /** Every assigned rule is in the pack, once. */
  ghost predicate RulesHeld(pack: Pack, refs: seq<RuleReference>) {
    && (forall r :: r in refs ==> exists k :: 0 <= k < |pack.rules| && RuleName(pack.rules[k]) == r.ruleId)
    && ShownApart(pack.rules, r => RuleShown(refs, r), RuleName)
  }

  lemma RulesHeldExactly(pack: Pack, refs: seq<RuleReference>)
    ensures var ids := SortedSet(MapEach(RuleIdOf, refs));
      SortStrings(MapEach(Qualified, PackRules(pack, ids))) == ids <==> RulesHeld(pack, refs)
  {
    hide SortedSet, MapEach, Filter, AssignedTo, SortStrings, Ascends;
    var ids := SortedSet(MapEach(RuleIdOf, refs));
    SortedSetAscends(MapEach(RuleIdOf, refs));
    AssignedMembers(refs);
    var p := (r: Rule) => Qualified(r) in ids;
    var names := MapEach(Qualified, PackRules(pack, ids));
    SortedIsExactly(names, ids);
    ApartExactly(p, pack.rules, Qualified);
    assert ShownApart(pack.rules, p, Qualified) <==> ShownApart(pack.rules, r => RuleShown(refs, r), RuleName);
    forall x ensures x in names <==> x in ids && exists k :: 0 <= k < |pack.rules| && RuleName(pack.rules[k]) == x { NameHeld(pack, ids, x); }
    AllHeld(pack, refs, ids);
  }

  lemma NameHeld(pack: Pack, ids: seq<string>, x: string)
    ensures x in MapEach(Qualified, PackRules(pack, ids)) <==> x in ids && exists k :: 0 <= k < |pack.rules| && RuleName(pack.rules[k]) == x
  {
    hide MapEach;
    var rules := PackRules(pack, ids);
    KeysHave(rules, Qualified, x);
    if i :| 0 <= i < |rules| && Qualified(rules[i]) == x {
      assert rules[i] in rules;
      var k :| 0 <= k < |pack.rules| && pack.rules[k] == rules[i];
      assert RuleName(pack.rules[k]) == x;
    }
    if x in ids && exists k :: 0 <= k < |pack.rules| && RuleName(pack.rules[k]) == x {
      var k :| 0 <= k < |pack.rules| && RuleName(pack.rules[k]) == x;
      assert pack.rules[k] in rules;
      var i :| 0 <= i < |rules| && rules[i] == pack.rules[k];
    }
  }

  lemma AllHeld(pack: Pack, refs: seq<RuleReference>, ids: seq<string>)
    requires forall id :: id in ids <==> AssignedTo(refs, id)
    ensures (forall x :: x in ids ==> exists k :: 0 <= k < |pack.rules| && RuleName(pack.rules[k]) == x)
       <==> forall r :: r in refs ==> exists k :: 0 <= k < |pack.rules| && RuleName(pack.rules[k]) == r.ruleId
  {
    hide RuleName;
    if forall x :: x in ids ==> exists k :: 0 <= k < |pack.rules| && RuleName(pack.rules[k]) == x {
      forall r | r in refs ensures exists k :: 0 <= k < |pack.rules| && RuleName(pack.rules[k]) == r.ruleId { assert r.ruleId in ids; }
    }
  }

  /** The shown coverage rows list every assigned rule and selected binding, and the rows kept whole list no other. */
  ghost predicate Covered(pack: Pack, refs: seq<RuleReference>, governance: bool, bindingId: Binding -> string) {
    && (forall id :: AssignedTo(refs, id) ==> exists e :: e in pack.entries && EntryShown(refs, governance, e) && id in e.ruleIds)
    && (forall x :: SelectedId(pack, refs, bindingId, x) ==> exists e :: e in pack.entries && EntryShown(refs, governance, e) && x in e.bindingIds)
    && (governance ==> forall e :: e in pack.entries && e.status != "rule" ==>
          (forall id :: id in e.ruleIds ==> AssignedTo(refs, id)) && forall x :: x in e.bindingIds ==> SelectedId(pack, refs, bindingId, x))
  }

  /** What the coverage rows of a view list. */
  lemma ListedExactly(pack: Pack, refs: seq<RuleReference>, governance: bool, bindingId: Binding -> string, rules: set<string>, bindings: set<string>, x: string)
    requires forall y :: y in bindings <==> SelectedId(pack, refs, bindingId, y)
    requires forall id :: id in rules <==> AssignedTo(refs, id)
    ensures var entries := EntriesView(pack.entries, rules, bindings, governance);
      && (x in FlatMap(ListedRules, entries) <==>
            exists e :: e in pack.entries && EntryShown(refs, governance, e) && x in e.ruleIds && (e.status == "rule" ==> x in rules))
      && (x in FlatMap(ListedBindings, entries) <==>
            exists e :: e in pack.entries && EntryShown(refs, governance, e) && x in e.bindingIds && (e.status == "rule" ==> x in bindings))
  {
    hide Picks, SelectedId, AssignedTo, EntryShown, EntryCut, EntryView, FlatMap;
    EntryCuts(pack, refs, governance, bindingId, rules, bindings);
    var shown, cut := (e: CoverageEntry) => EntryShown(refs, governance, e), (e, row) => EntryCut(pack, refs, bindingId, e, row);
    var entries := EntriesView(pack.entries, rules, bindings, governance);
    var at := FlatPicks((e: CoverageEntry) => EntryView(e, rules, bindings, governance), pack.entries, shown, cut);
    FlatMember(ListedRules, entries, x);
    FlatMember(ListedBindings, entries, x);
    ListedRows(pack, refs, governance, bindingId, entries, at, x);
  }

  lemma ListedRows(pack: Pack, refs: seq<RuleReference>, governance: bool, bindingId: Binding -> string, entries: seq<CoverageEntry>, at: seq<nat>, x: string)
    requires Picks(pack.entries, entries, at, (e: CoverageEntry) => EntryShown(refs, governance, e), (e, row) => EntryCut(pack, refs, bindingId, e, row))
    ensures (exists i :: 0 <= i < |entries| && x in ListedRules(entries[i])) <==>
            exists e :: e in pack.entries && EntryShown(refs, governance, e) && x in e.ruleIds && (e.status == "rule" ==> AssignedTo(refs, x))
    ensures (exists i :: 0 <= i < |entries| && x in ListedBindings(entries[i])) <==>
            exists e :: e in pack.entries && EntryShown(refs, governance, e) && x in e.bindingIds && (e.status == "rule" ==> SelectedId(pack, refs, bindingId, x))
  {
    hide *;
    if i :| 0 <= i < |entries| && x in ListedRules(entries[i]) {
      var e := RowSource(pack, refs, governance, bindingId, entries, at, i);
      CutLists(pack, refs, bindingId, e, entries[i], x);
    }
    if i :| 0 <= i < |entries| && x in ListedBindings(entries[i]) {
      var e := RowSource(pack, refs, governance, bindingId, entries, at, i);
      CutLists(pack, refs, bindingId, e, entries[i], x);
    }
    if e :| e in pack.entries && EntryShown(refs, governance, e) && x in e.ruleIds && (e.status == "rule" ==> AssignedTo(refs, x)) {
      var i := ShownRow(pack, refs, governance, bindingId, entries, at, e);
      CutLists(pack, refs, bindingId, e, entries[i], x);
    }
    if e :| e in pack.entries && EntryShown(refs, governance, e) && x in e.bindingIds && (e.status == "rule" ==> SelectedId(pack, refs, bindingId, x)) {
      var i := ShownRow(pack, refs, governance, bindingId, entries, at, e);
      CutLists(pack, refs, bindingId, e, entries[i], x);
    }
  }

  lemma CutLists(pack: Pack, refs: seq<RuleReference>, bindingId: Binding -> string, e: CoverageEntry, row: CoverageEntry, x: string)
    requires EntryCut(pack, refs, bindingId, e, row)
    ensures x in ListedRules(row) <==> x in e.ruleIds && (e.status == "rule" ==> AssignedTo(refs, x))
    ensures x in ListedBindings(row) <==> x in e.bindingIds && (e.status == "rule" ==> SelectedId(pack, refs, bindingId, x))
    ensures EntryKey(e) == EntryKey(row)
  {
    hide AssignedTo, SelectedId, Ascends;
  }

  lemma RowSource(pack: Pack, refs: seq<RuleReference>, governance: bool, bindingId: Binding -> string, entries: seq<CoverageEntry>, at: seq<nat>, i: nat)
    returns (e: CoverageEntry)
    requires Picks(pack.entries, entries, at, (e: CoverageEntry) => EntryShown(refs, governance, e), (e, row) => EntryCut(pack, refs, bindingId, e, row))
    requires i < |entries|
    ensures e in pack.entries && EntryShown(refs, governance, e) && EntryCut(pack, refs, bindingId, e, entries[i])
  {
    hide EntryShown, EntryCut;
    e := pack.entries[at[i]];
  }

  lemma ShownRow(pack: Pack, refs: seq<RuleReference>, governance: bool, bindingId: Binding -> string, entries: seq<CoverageEntry>, at: seq<nat>, e: CoverageEntry)
    returns (i: nat)
    requires Picks(pack.entries, entries, at, (e: CoverageEntry) => EntryShown(refs, governance, e), (e, row) => EntryCut(pack, refs, bindingId, e, row))
    requires e in pack.entries && EntryShown(refs, governance, e)
    ensures i < |entries| && EntryCut(pack, refs, bindingId, e, entries[i])
  {
    hide EntryShown, EntryCut;
    var k :| 0 <= k < |pack.entries| && pack.entries[k] == e;
    i :| 0 <= i < |at| && at[i] == k;
  }

  lemma CoveredExactly(pack: Pack, refs: seq<RuleReference>, governance: bool, bindingId: Binding -> string, rules: set<string>, bindings: set<string>)
    requires forall y :: y in bindings <==> SelectedId(pack, refs, bindingId, y)
    requires forall id :: id in rules <==> AssignedTo(refs, id)
    ensures var entries := EntriesView(pack.entries, rules, bindings, governance);
      (Members(FlatMap(ListedRules, entries)) == rules && Members(FlatMap(ListedBindings, entries)) == bindings) <==>
      Covered(pack, refs, governance, bindingId)
  {
    hide SelectedId, AssignedTo, EntryShown, EntriesView, FlatMap, Members;
    var entries := EntriesView(pack.entries, rules, bindings, governance);
    var listedRules, listedBindings := Members(FlatMap(ListedRules, entries)), Members(FlatMap(ListedBindings, entries));
    forall x
      ensures x in listedRules <==>
                exists e :: e in pack.entries && EntryShown(refs, governance, e) && x in e.ruleIds && (e.status == "rule" ==> x in rules)
      ensures x in listedBindings <==>
                exists e :: e in pack.entries && EntryShown(refs, governance, e) && x in e.bindingIds && (e.status == "rule" ==> x in bindings)
    {
      ListedExactly(pack, refs, governance, bindingId, rules, bindings, x);
      MembersHas(FlatMap(ListedRules, entries), x);
      MembersHas(FlatMap(ListedBindings, entries), x);
    }
    WholeShown(refs, governance);
    SetsCover(pack, refs, governance, bindingId, rules, bindings, listedRules, listedBindings);
  }

  /** Rows that are not about rules are shown exactly to the governing shard. */
  lemma WholeShown(refs: seq<RuleReference>, governance: bool)
    ensures forall e: CoverageEntry :: e.status != "rule" ==> (EntryShown(refs, governance, e) <==> governance)
  {
  }

  lemma SetsCover(pack: Pack, refs: seq<RuleReference>, governance: bool, bindingId: Binding -> string,
                  rules: set<string>, bindings: set<string>, a: set<string>, b: set<string>)
    requires forall y :: y in bindings <==> SelectedId(pack, refs, bindingId, y)
    requires forall id :: id in rules <==> AssignedTo(refs, id)
    requires forall e: CoverageEntry :: e.status != "rule" ==> (EntryShown(refs, governance, e) <==> governance)
    requires forall x :: x in a <==>
               exists e :: e in pack.entries && EntryShown(refs, governance, e) && x in e.ruleIds && (e.status == "rule" ==> x in rules)
    requires forall x :: x in b <==>
               exists e :: e in pack.entries && EntryShown(refs, governance, e) && x in e.bindingIds && (e.status == "rule" ==> x in bindings)
    ensures a == rules && b == bindings <==> Covered(pack, refs, governance, bindingId)
  {
    hide SelectedId, AssignedTo, EntryShown;
    if a == rules && b == bindings {
      forall id | AssignedTo(refs, id) ensures exists e :: e in pack.entries && EntryShown(refs, governance, e) && id in e.ruleIds {
        assert id in a;
      }
      forall x | SelectedId(pack, refs, bindingId, x) ensures exists e :: e in pack.entries && EntryShown(refs, governance, e) && x in e.bindingIds {
        assert x in b;
      }
      if governance {
        forall e | e in pack.entries && e.status != "rule"
          ensures (forall id :: id in e.ruleIds ==> AssignedTo(refs, id)) && forall x :: x in e.bindingIds ==> SelectedId(pack, refs, bindingId, x)
        {
          assert EntryShown(refs, governance, e);
          forall id | id in e.ruleIds ensures AssignedTo(refs, id) { assert id in a; }
          forall x | x in e.bindingIds ensures SelectedId(pack, refs, bindingId, x) { assert x in b; }
        }
      }
    }
    if Covered(pack, refs, governance, bindingId) {
      forall x ensures x in a <==> x in rules { }
      forall x ensures x in b <==> x in bindings { }
    }
  }

  predicate KeyDocumented(pack: Pack, id: string, version: string) {
    exists d :: d in pack.documents && d.documentId == id && d.documentVersion == version
  }

  /** Every shown rule and coverage row belongs to a document of the pack. */
  ghost predicate Documented(pack: Pack, refs: seq<RuleReference>, governance: bool) {
    && (forall r :: r in pack.rules && RuleShown(refs, r) ==> KeyDocumented(pack, r.documentId, r.documentVersion))
    && forall e :: e in pack.entries && EntryShown(refs, governance, e) ==> KeyDocumented(pack, e.documentId, e.documentVersion)
  }

  lemma DocumentedExactly(pack: Pack, refs: seq<RuleReference>, governance: bool, bindingId: Binding -> string, bindings: set<string>)
    requires forall y :: y in bindings <==> SelectedId(pack, refs, bindingId, y)
    ensures var ids := SortedSet(MapEach(RuleIdOf, refs));
      var keys := DocumentKeys(PackRules(pack, ids), EntriesView(pack.entries, Members(ids), bindings, governance));
      (set d | d in PackDocuments(pack, keys) :: DocumentKey(d)) == keys <==> Documented(pack, refs, governance)
  {
    hide SelectedId, AssignedTo, EntryShown, SortedSet, MapEach, Members, Picks, EntryCut, EntryView, FlatMap;
    var ids := SortedSet(MapEach(RuleIdOf, refs));
    AssignedMembers(refs);
    var rules, entries := PackRules(pack, ids), EntriesView(pack.entries, Members(ids), bindings, governance);
    EntryCuts(pack, refs, governance, bindingId, Members(ids), bindings);
    var at := FlatPicks((e: CoverageEntry) => EntryView(e, Members(ids), bindings, governance), pack.entries,
                        (e: CoverageEntry) => EntryShown(refs, governance, e), (e, row) => EntryCut(pack, refs, bindingId, e, row));
    EntryKeys(pack, refs, governance, bindingId, entries, at);
    forall r ensures r in rules <==> r in pack.rules && RuleShown(refs, r) { }
    KeysDocumented(pack, rules, entries);
    EachDocumented(pack, refs, governance, rules, entries);
  }

  lemma EntryKeys(pack: Pack, refs: seq<RuleReference>, governance: bool, bindingId: Binding -> string, entries: seq<CoverageEntry>, at: seq<nat>)
    requires Picks(pack.entries, entries, at, (e: CoverageEntry) => EntryShown(refs, governance, e), (e, row) => EntryCut(pack, refs, bindingId, e, row))
    ensures forall row :: row in entries ==> exists e :: e in pack.entries && EntryShown(refs, governance, e) && EntryKey(e) == EntryKey(row)
    ensures forall e :: e in pack.entries && EntryShown(refs, governance, e) ==> exists row :: row in entries && EntryKey(e) == EntryKey(row)
  {
    hide *;
    forall row | row in entries ensures exists e :: e in pack.entries && EntryShown(refs, governance, e) && EntryKey(e) == EntryKey(row) {
      var i :| 0 <= i < |entries| && entries[i] == row;
      var e := RowSource(pack, refs, governance, bindingId, entries, at, i);
      CutLists(pack, refs, bindingId, e, row, "");
    }
    forall e | e in pack.entries && EntryShown(refs, governance, e) ensures exists row :: row in entries && EntryKey(e) == EntryKey(row) {
      var i := ShownRow(pack, refs, governance, bindingId, entries, at, e);
      CutLists(pack, refs, bindingId, e, entries[i], "");
      assert entries[i] in entries;
    }
  }

  lemma KeysDocumented(pack: Pack, rules: seq<Rule>, entries: seq<CoverageEntry>)
    ensures var keys := DocumentKeys(rules, entries);
      ((set d | d in PackDocuments(pack, keys) :: DocumentKey(d)) == keys) <==>
      forall k :: k in keys ==> KeyDocumented(pack, k.0, k.1)
  {
    hide DocumentKeys;
    var keys := DocumentKeys(rules, entries);
    var held := set d | d in PackDocuments(pack, keys) :: DocumentKey(d);
    forall k ensures k in held <==> k in keys && KeyDocumented(pack, k.0, k.1) {
      if k in keys && KeyDocumented(pack, k.0, k.1) {
        var d :| d in pack.documents && d.documentId == k.0 && d.documentVersion == k.1;
        assert DocumentKey(d) == k && d in PackDocuments(pack, keys);
      }
    }
  }

  lemma EachDocumented(pack: Pack, refs: seq<RuleReference>, governance: bool, rules: seq<Rule>, entries: seq<CoverageEntry>)
    requires forall r :: r in rules <==> r in pack.rules && RuleShown(refs, r)
    requires forall row :: row in entries ==> exists e :: e in pack.entries && EntryShown(refs, governance, e) && EntryKey(e) == EntryKey(row)
    requires forall e :: e in pack.entries && EntryShown(refs, governance, e) ==> exists row :: row in entries && EntryKey(e) == EntryKey(row)
    ensures (forall k :: k in DocumentKeys(rules, entries) ==> KeyDocumented(pack, k.0, k.1)) <==> Documented(pack, refs, governance)
  {
    hide EntryShown, RuleShown, KeyDocumented, DocumentKeys;
    var keys := DocumentKeys(rules, entries);
    KeysAre(rules, entries);
    if forall k :: k in keys ==> KeyDocumented(pack, k.0, k.1) {
      forall r | r in pack.rules && RuleShown(refs, r) ensures KeyDocumented(pack, r.documentId, r.documentVersion) {
        assert r in rules && RuleKey(r) in keys;
      }
      forall e | e in pack.entries && EntryShown(refs, governance, e) ensures KeyDocumented(pack, e.documentId, e.documentVersion) {
        assert EntryKey(e) in keys;
      }
    }
    if Documented(pack, refs, governance) {
      forall k | k in keys ensures KeyDocumented(pack, k.0, k.1) { KeyIsDocumented(pack, refs, governance, rules, entries, k); }
    }
  }

  lemma KeysAre(rules: seq<Rule>, entries: seq<CoverageEntry>)
    ensures forall k :: k in DocumentKeys(rules, entries) <==> (exists r :: r in rules && RuleKey(r) == k) || exists e :: e in entries && EntryKey(e) == k
  {
  }

  lemma KeyIsDocumented(pack: Pack, refs: seq<RuleReference>, governance: bool, rules: seq<Rule>, entries: seq<CoverageEntry>, k: (string, string))
    requires forall r :: r in rules <==> r in pack.rules && RuleShown(refs, r)
    requires forall row :: row in entries ==> exists e :: e in pack.entries && EntryShown(refs, governance, e) && EntryKey(e) == EntryKey(row)
    requires Documented(pack, refs, governance) && k in DocumentKeys(rules, entries)
    ensures KeyDocumented(pack, k.0, k.1)
  {
    hide EntryShown, RuleShown, KeyDocumented, DocumentKeys;
    KeysAre(rules, entries);
    if row :| row in entries && EntryKey(row) == k {
      var e :| e in pack.entries && EntryShown(refs, governance, e) && EntryKey(e) == EntryKey(row);
    } else {
      var r :| r in rules && RuleKey(r) == k;
      assert r in pack.rules && RuleShown(refs, r);
    }
  }

  /** A pack projects for a shard exactly when it is the named pack, the shard has references in it, it holds each assigned rule
      once and no two selected bindings with one ID, its shown coverage lists all of them and nothing else, and the documents
      are there. */
  lemma ProjectsExactly(pack: Pack, packId: string, refs: seq<RuleReference>, governance: bool, bindingId: Binding -> string)
    ensures ProjectPack(pack, packId, refs, governance, bindingId).Some? <==>
      && pack.packId == packId && refs != [] && RulesHeld(pack, refs)
      && ShownApart(pack.bindings, (b: Binding) => AssignedTo(refs, b.ruleId), bindingId)
      && Covered(pack, refs, governance, bindingId) && Documented(pack, refs, governance)
  {
    hide SelectedId, AssignedTo, EntriesView, SortedSet, MapEach, Members, Picks, RulesHeld, Covered, Documented, FlatMap, SortStrings,
      DocumentKeys, PackRules, PackDocuments, TargetsView, NoDuplicates, Filter;
    var ids := SortedSet(MapEach(RuleIdOf, refs));
    var p := (b: Binding) => b.ruleId in ids;
    var bindings := Members(MapEach(bindingId, PackBindings(pack, ids)));
    SortedSetMembers(MapEach(RuleIdOf, refs));
    AssignedMembers(refs);
    SelectedMembers(pack, refs, bindingId);
    RulesHeldExactly(pack, refs);
    ApartExactly(p, pack.bindings, bindingId);
    assert ShownApart(pack.bindings, p, bindingId) <==> ShownApart(pack.bindings, (b: Binding) => AssignedTo(refs, b.ruleId), bindingId);
    CoveredExactly(pack, refs, governance, bindingId, Members(ids), bindings);
    DocumentedExactly(pack, refs, governance, bindingId, bindings);
  }

  // ---- Bound targets over the shards ----

  /** Shard `s` has a row for the bound target `t`, cut down to the bindings it selects, and lists `y` in it. */
  ghost predicate SharesTarget(x: Inputs, s: string, p: string, t: TargetEntry, y: string)
    requires LayoutOk(x.layout, x.specs)
  {
    && ViewAt(x, s, p).Some?
    && exists row :: row in ViewAt(x, s, p).value.targets && y in row.bindingIds && row == TargetEntry("bound", row.bindingIds, t.text)
                     && forall z :: z in row.bindingIds <==> z in t.bindingIds && exists b :: b in ViewAt(x, s, p).value.bindings && x.bindingId(b) == z
  }

  /** The row of a bound target that lists a selected binding. */
  lemma BoundRow(pack: Pack, packId: string, refs: seq<RuleReference>, governance: bool, bindingId: Binding -> string, t: TargetEntry, y: string)
    returns (row: TargetEntry)
    requires ProjectPack(pack, packId, refs, governance, bindingId).Some?
    requires t in pack.targets && t.status == "bound" && y in t.bindingIds && SelectedId(pack, refs, bindingId, y)
    ensures row in ProjectPack(pack, packId, refs, governance, bindingId).value.targets && TargetCut(pack, refs, bindingId, t, row)
  {
    hide ProjectPack, SelectedId, Ascends;
    var at := TargetsExactly(pack, packId, refs, governance, bindingId);
    var k :| 0 <= k < |pack.targets| && pack.targets[k] == t;
    assert TargetShown(pack, refs, governance, bindingId, t);
    var i :| 0 <= i < |at| && at[i] == k;
    row := ProjectPack(pack, packId, refs, governance, bindingId).value.targets[i];
  }

  lemma ViewTarget(x: Inputs, s: string, p: string, t: TargetEntry, b: Binding)
    requires LayoutOk(x.layout, x.specs) && p in x.packs && ViewAt(x, s, p).Some?
    requires t in x.packs[p].targets && t.status == "bound" && x.bindingId(b) in t.bindingIds && b in ViewAt(x, s, p).value.bindings
    ensures SharesTarget(x, s, p, t, x.bindingId(b))
  {
    hide ProjectPack, PackReferences, SelectedId, Ascends;
    var packId := PackIdFor(x.table, p).value;
    var pack, refs, governance := x.packs[p], PackReferences(x, s, packId), x.layout.governance[p] == s;
    SelectedIsShown(pack, packId, refs, governance, x.bindingId);
    var row := BoundRow(pack, packId, refs, governance, x.bindingId, t, x.bindingId(b));
  }

  lemma SelectedIsShown(pack: Pack, packId: string, refs: seq<RuleReference>, governance: bool, bindingId: Binding -> string)
    requires ProjectPack(pack, packId, refs, governance, bindingId).Some?
    ensures forall y :: SelectedId(pack, refs, bindingId, y) <==> exists b :: b in ProjectPack(pack, packId, refs, governance, bindingId).value.bindings && bindingId(b) == y
  {
    hide AssignedTo, Picks, ProjectPack, Ascends;
    ViewRows(pack, packId, refs, governance, bindingId);
    ViewInventory(pack, packId, refs, governance, bindingId);
  }

  /** A shard lists an ID in a bound target's row exactly when it sees a binding of that ID. */
  lemma TargetSharedExactly(x: Inputs, s: string, p: string, t: TargetEntry, y: string)
    requires LayoutOk(x.layout, x.specs) && p in x.packs
    requires t in x.packs[p].targets && t.status == "bound" && y in t.bindingIds
    ensures SharesTarget(x, s, p, t, y) <==> exists a :: a in x.packs[p].bindings && x.bindingId(a) == y && ShowsBinding(x, s, p, a)
  {
    hide ProjectPack, PackReferences;
    if ViewAt(x, s, p).Some? {
      var packId := PackIdFor(x.table, p).value;
      ViewRows(x.packs[p], packId, PackReferences(x, s, packId), x.layout.governance[p] == s, x.bindingId);
      if a :| a in x.packs[p].bindings && x.bindingId(a) == y && ShowsBinding(x, s, p, a) { ViewTarget(x, s, p, t, a); }
    }
  }

  /** Each binding that a bound target lists and the audit plans is in that target's row of exactly one shard, when no binding of
      another rule in the pack has its ID. */
  lemma TargetsAreDivided(x: Inputs, p: string, t: TargetEntry, b: Binding)
    requires LayoutOk(x.layout, x.specs) && Projects(x) && p in x.packs && b in x.packs[p].bindings
    requires t in x.packs[p].targets && t.status == "bound" && x.bindingId(b) in t.bindingIds
    requires forall a :: a in x.packs[p].bindings && x.bindingId(a) == x.bindingId(b) ==> a.ruleId == b.ruleId
    ensures Planned(x, p, b.ruleId) <==> exists s :: s in x.layout.order && p in x.layout.sources[s] && SharesTarget(x, s, p, t, x.bindingId(b))
    ensures forall s, u :: SharesTarget(x, s, p, t, x.bindingId(b)) && SharesTarget(x, u, p, t, x.bindingId(b)) ==> s == u
  {
    hide Projects, ViewAt, Planned, SharesTarget;
    BindingsAreDivided(x, p, b);
    forall s ensures SharesTarget(x, s, p, t, x.bindingId(b)) <==> ShowsBinding(x, s, p, b) {
      TargetSharedExactly(x, s, p, t, x.bindingId(b));
      if a :| a in x.packs[p].bindings && x.bindingId(a) == x.bindingId(b) && ShowsBinding(x, s, p, a) { SameRuleShown(x, s, p, a, b); }
    }
  }

  lemma SameRuleShown(x: Inputs, s: string, p: string, a: Binding, b: Binding)
    requires LayoutOk(x.layout, x.specs) && p in x.packs && b in x.packs[p].bindings && a.ruleId == b.ruleId && ShowsBinding(x, s, p, a)
    ensures ShowsBinding(x, s, p, b)
  {
    hide ProjectPack, PackReferences;
    var packId := PackIdFor(x.table, p).value;
    ViewRows(x.packs[p], packId, PackReferences(x, s, packId), x.layout.governance[p] == s, x.bindingId);
  }

  // ---- When all packs project ----

  /** The pack the audit gives a reference, and where that pack is stored. */
  predicate StoredAt(x: Inputs, r: RuleReference, p: string) {
    r.referenceId in x.table.packOf && x.table.packOf[r.referenceId] in x.table.path && x.table.path[x.table.packOf[r.referenceId]] == p
  }

  /** The first listed pack ID that stands for the path. */
  predicate StandsFor(x: Inputs, p: string, packId: string) {
    exists i :: 0 <= i < |x.table.ids| && x.table.ids[i] == packId && packId in x.table.path && x.table.path[packId] == p
                && forall j :: 0 <= j < i ==> x.table.ids[j] !in x.table.path || x.table.path[x.table.ids[j]] != p
  }

  lemma {:induction false} FirstPackExactly(ids: seq<string>, path: map<string, string>, p: string, packId: string)
    ensures FirstPack(ids, path, p) == Some(packId) <==>
              exists i :: 0 <= i < |ids| && ids[i] == packId && packId in path && path[packId] == p
                          && forall j :: 0 <= j < i ==> ids[j] !in path || path[ids[j]] != p
  {
    if ids != [] {
      var rest := ids[1..];
      FirstPackExactly(rest, path, p, packId);
      if ids[0] !in path || path[ids[0]] != p {
        if i :| 0 <= i < |rest| && rest[i] == packId && packId in path && path[packId] == p
                && forall j :: 0 <= j < i ==> rest[j] !in path || path[rest[j]] != p {
          forall j | 0 <= j < i + 1 ensures ids[j] !in path || path[ids[j]] != p { if j > 0 { assert rest[j - 1] == ids[j]; } }
          assert ids[i + 1] == packId;
        }
        if i :| 0 <= i < |ids| && ids[i] == packId && packId in path && path[packId] == p
                && forall j :: 0 <= j < i ==> ids[j] !in path || path[ids[j]] != p {
          forall j | 0 <= j < i - 1 ensures rest[j] !in path || path[rest[j]] != p { assert rest[j] == ids[j + 1]; }
          assert rest[i - 1] == packId;
        }
      } else {
        assert ids[0] == ids[0];
      }
    }
  }

  /** The pack at `p` projects for shard `s`, from the shard's references in that pack. */
  ghost predicate PackProjects(x: Inputs, s: string, p: string) {
    p in x.packs && p in x.layout.governance && exists packId :: StandsFor(x, p, packId) && PackFits(x, s, p, packId)
  }

  /** The references of the shard in one pack. */
  function ReferencesIn(x: Inputs, s: string, packId: string): seq<RuleReference> {
    Filter((r: RuleReference) => r.referenceId in x.table.packOf && x.table.packOf[r.referenceId] == packId, ShardReferences(x, s))
  }

  ghost predicate PackFits(x: Inputs, s: string, p: string, packId: string)
    requires p in x.packs && p in x.layout.governance
  {
    var pack, refs, governance := x.packs[p], ReferencesIn(x, s, packId), x.layout.governance[p] == s;
    && pack.packId == packId && refs != [] && RulesHeld(pack, refs)
    && ShownApart(pack.bindings, (b: Binding) => AssignedTo(refs, b.ruleId), x.bindingId)
    && Covered(pack, refs, governance, x.bindingId) && Documented(pack, refs, governance)
  }

  lemma ReferencesAre(x: Inputs, s: string, packId: string)
    ensures PackReferences(x, s, packId) == ReferencesIn(x, s, packId)
  {
    FilterSame((r: RuleReference) => InPack(x.table, r, packId),
               (r: RuleReference) => r.referenceId in x.table.packOf && x.table.packOf[r.referenceId] == packId, ShardReferences(x, s));
  }

  lemma {:induction false} FilterSame<T(!new)>(p: T -> bool, q: T -> bool, s: seq<T>)
    requires forall x :: p(x) <==> q(x)
    ensures Filter(p, s) == Filter(q, s)
  {
    if s != [] { FilterSame(p, q, s[1..]); }
  }

  lemma ViewsExactly(x: Inputs, s: string, p: string)
    requires LayoutOk(x.layout, x.specs)
    ensures ViewAt(x, s, p).Some? <==> PackProjects(x, s, p)
  {
    hide LayoutOk, ProjectPack, RulesHeld, Covered, Documented, ShownApart, FirstPack, StandsFor, PackReferences, ReferencesIn;
    forall packId ensures PackIdFor(x.table, p) == Some(packId) <==> StandsFor(x, p, packId) { PackStands(x, p, packId); }
    if p in x.packs && p in x.layout.governance {
      forall packId ensures ProjectPack(x.packs[p], packId, PackReferences(x, s, packId), x.layout.governance[p] == s, x.bindingId).Some? <==> PackFits(x, s, p, packId) {
        ReferencesAre(x, s, packId);
        ProjectsExactly(x.packs[p], packId, PackReferences(x, s, packId), x.layout.governance[p] == s, x.bindingId);
      }
    }
  }

  lemma PackStands(x: Inputs, p: string, packId: string)
    ensures PackIdFor(x.table, p) == Some(packId) <==> StandsFor(x, p, packId)
  {
    FirstPackExactly(x.table.ids, x.table.path, p, packId);
  }

  /** One shard: each of its references is stored at one of its paths, each path stores one of them, and each pack projects. */
  ghost predicate ShardFits(x: Inputs, s: string)
    requires s in x.layout.sources
  {
    && (forall r :: r in ShardReferences(x, s) ==> exists p :: p in x.layout.sources[s] && StoredAt(x, r, p))
    && (forall p :: p in x.layout.sources[s] ==> exists r :: r in ShardReferences(x, s) && StoredAt(x, r, p))
    && forall p :: p in x.layout.sources[s] ==> PackProjects(x, s, p)
  }

  lemma PathOfExactly(x: Inputs, r: RuleReference, p: string)
    ensures PathOf(x.table, r) == Some(p) <==> StoredAt(x, r, p)
  {
  }

  lemma ShardExactly(x: Inputs, s: string)
    requires LayoutOk(x.layout, x.specs) && s in x.layout.sources
    ensures ShardProjects(x, s) <==> ShardFits(x, s)
  {
    hide LayoutOk, ViewAt, PackProjects, StoredAt, ShardReferences, PathOf, Members;
    var refs, paths := ShardReferences(x, s), x.layout.sources[s];
    forall p ensures ViewAt(x, s, p).Some? <==> PackProjects(x, s, p) { ViewsExactly(x, s, p); }
    forall r, p ensures PathOf(x.table, r) == Some(p) <==> StoredAt(x, r, p) { PathOfExactly(x, r, p); }
    EachPath(x, s);
    if PointedAt(x, s).Some? {
      SameMembersExactly(PointedAt(x, s).value, paths);
      PointedExactly(x, s);
    } else {
      NothingPointed(x, s);
    }
  }

  lemma EachPath(x: Inputs, s: string)
    requires LayoutOk(x.layout, x.specs) && s in x.layout.sources
    ensures (forall i :: 0 <= i < |x.layout.sources[s]| ==> ViewAt(x, s, x.layout.sources[s][i]).Some?) <==> forall p :: p in x.layout.sources[s] ==> ViewAt(x, s, p).Some?
  {
    hide LayoutOk, ViewAt;
    var paths := x.layout.sources[s];
    if forall i :: 0 <= i < |paths| ==> ViewAt(x, s, paths[i]).Some? {
      forall p | p in paths ensures ViewAt(x, s, p).Some? { var i :| 0 <= i < |paths| && paths[i] == p; }
    }
    if forall p :: p in paths ==> ViewAt(x, s, p).Some? {
      forall i | 0 <= i < |paths| ensures ViewAt(x, s, paths[i]).Some? { assert paths[i] in paths; }
    }
  }

  lemma PointedExactly(x: Inputs, s: string)
    requires PointedAt(x, s).Some?
    ensures forall p :: p in PointedAt(x, s).value <==> exists r :: r in ShardReferences(x, s) && StoredAt(x, r, p)
    ensures forall r :: r in ShardReferences(x, s) ==> exists p :: p in PointedAt(x, s).value && StoredAt(x, r, p)
  {
    hide ShardReferences, PathOf, StoredAt;
    var refs, pointed := ShardReferences(x, s), PointedAt(x, s).value;
    forall r, p ensures PathOf(x.table, r) == Some(p) <==> StoredAt(x, r, p) { PathOfExactly(x, r, p); }
    forall p | p in pointed ensures exists r :: r in refs && StoredAt(x, r, p) {
      var i :| 0 <= i < |pointed| && pointed[i] == p;
      assert PathOf(x.table, refs[i]) == Some(pointed[i]) && refs[i] in refs;
    }
    forall r, p | r in refs && StoredAt(x, r, p) ensures p in pointed {
      var i :| 0 <= i < |refs| && refs[i] == r;
      assert PathOf(x.table, refs[i]) == Some(pointed[i]);
    }
    forall r | r in refs ensures exists p :: p in pointed && StoredAt(x, r, p) {
      var i :| 0 <= i < |refs| && refs[i] == r;
      assert PathOf(x.table, refs[i]) == Some(pointed[i]);
    }
  }

  lemma NothingPointed(x: Inputs, s: string)
    requires PointedAt(x, s) == None
    ensures exists r :: r in ShardReferences(x, s) && forall p :: !StoredAt(x, r, p)
  {
    hide ShardReferences, PathOf, StoredAt;
    var refs := ShardReferences(x, s);
    forall r, p ensures PathOf(x.table, r) == Some(p) <==> StoredAt(x, r, p) { PathOfExactly(x, r, p); }
    var i :| 0 <= i < |refs| && PathOf(x.table, refs[i]) == None;
    assert refs[i] in refs;
  }

  /** The views are built exactly when the audit can be allocated, its packs are stored at the governed paths, and every shard fits. */
  lemma BuildsExactly(x: Inputs)
    requires LayoutOk(x.layout, x.specs)
    ensures Projects(x) <==>
      && AllocationOk(x.rows, x.specs)
      && (forall p :: p in x.layout.governance <==> exists k :: k in x.table.path && x.table.path[k] == p)
      && forall s :: s in x.layout.order ==> s in x.layout.sources && ShardFits(x, s)
  {
    hide ShardProjects, ShardFits, AllocationOk, LayoutOk;
    GovernedPaths(x);
    forall i | 0 <= i < |x.layout.order| ensures x.layout.order[i] in x.layout.sources && (ShardProjects(x, x.layout.order[i]) <==> ShardFits(x, x.layout.order[i])) {
      InOrder(x, i);
      ShardExactly(x, x.layout.order[i]);
    }
    if forall s :: s in x.layout.order ==> s in x.layout.sources && ShardFits(x, s) {
      forall i | 0 <= i < |x.layout.order| ensures ShardProjects(x, x.layout.order[i]) { assert x.layout.order[i] in x.layout.order; }
    }
    if forall i :: 0 <= i < |x.layout.order| ==> ShardProjects(x, x.layout.order[i]) {
      forall s | s in x.layout.order ensures s in x.layout.sources && ShardFits(x, s) { var i :| 0 <= i < |x.layout.order| && x.layout.order[i] == s; }
    }
  }

  lemma GovernedPaths(x: Inputs)
    ensures x.table.path.Values == x.layout.governance.Keys <==>
              forall p :: p in x.layout.governance <==> exists k :: k in x.table.path && x.table.path[k] == p
  {
    if forall p :: p in x.layout.governance <==> exists k :: k in x.table.path && x.table.path[k] == p {
      forall p ensures p in x.table.path.Values <==> p in x.layout.governance.Keys { }
    }
    if x.table.path.Values == x.layout.governance.Keys {
      forall p ensures p in x.layout.governance <==> exists k :: k in x.table.path && x.table.path[k] == p {
        assert p in x.layout.governance <==> p in x.table.path.Values;
      }
    }
  }
}
