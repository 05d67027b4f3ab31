/** Splitting each knowledge pack over the review shards (`_project_pack_source`,
    `build_model_source_projections`): what every shard sees, and why the shards together see the pack. */
module PackProjection {
  import opened Sequences
  import opened Sorting
  import opened CacheModel
  import opened Surface
  import opened Projection

  datatype Rule = Rule(documentId: string, documentVersion: string, ruleId: string, text: string)

  datatype Binding = Binding(ruleId: string, identity: string)

  datatype CoverageEntry = CoverageEntry(
    documentId: string, documentVersion: string, status: string, ruleIds: seq<string>, bindingIds: seq<string>, text: string)

  datatype TargetEntry = TargetEntry(status: string, bindingIds: seq<string>, text: string)

  datatype Document = Document(documentId: string, documentVersion: string, text: string)

  datatype Pack = Pack(
    packId: string, documents: seq<Document>, rules: seq<Rule>, bindings: seq<Binding>,
    entries: seq<CoverageEntry>, targets: seq<TargetEntry>, header: string)

  /** One shard's view of one pack. */
  datatype View = View(
    ruleIds: seq<string>, referenceIds: seq<string>, documents: seq<Document>, rules: seq<Rule>,
    bindings: seq<Binding>, entries: seq<CoverageEntry>, targets: seq<TargetEntry>, header: string)

  // ---- One pack, one shard ----

  function Qualified(r: Rule): string { r.documentId + ":" + r.documentVersion + ":" + r.ruleId }

  function RuleIdOf(r: RuleReference): string { r.ruleId }

  /** `sorted(set(ids))` */
  function SortedSet(ids: seq<string>): seq<string> { SortStrings(Distinct(ids)) }

  /** `sorted(set(ids) & allowed)` */
  function Kept(ids: seq<string>, allowed: set<string>): seq<string> {
    SortedSet(Filter(x => x in allowed, ids))
  }

  lemma KeptMembers(ids: seq<string>, allowed: set<string>)
    ensures forall x :: x in Kept(ids, allowed) <==> x in ids && x in allowed
    ensures Kept(ids, allowed) == [] <==> forall x :: x in ids ==> x !in allowed
  {
    var kept := Filter(x => x in allowed, ids);
    SortKeepsMembers(Distinct(kept), ByKey(Self));
    if Kept(ids, allowed) != [] { assert Kept(ids, allowed)[0] in Kept(ids, allowed); }
  }

  lemma SortedSetMembers(ids: seq<string>)
    ensures forall x :: x in SortedSet(ids) <==> x in ids
    ensures SortedSet(ids) == [] <==> ids == []
  {
    SortKeepsMembers(Distinct(ids), ByKey(Self));
    if ids != [] { assert ids[0] in SortedSet(ids); }
    if SortedSet(ids) != [] { assert SortedSet(ids)[0] in ids; }
  }

  /** A coverage entry as one shard sees it: its own rules, or the whole entry for the governing shard. */
  function EntryView(e: CoverageEntry, rules: set<string>, bindings: set<string>, governance: bool): seq<CoverageEntry> {
    if e.status == "rule" then
      var kept := Kept(e.ruleIds, rules);
      if kept == [] then [] else [e.(ruleIds := kept, bindingIds := Kept(e.bindingIds, bindings))]
    else if governance then [e]
    else []
  }

  function TargetView(t: TargetEntry, bindings: set<string>, governance: bool): seq<TargetEntry> {
    if t.status == "bound" then
      var kept := Kept(t.bindingIds, bindings);
      if kept == [] then [] else [t.(bindingIds := kept)]
    else if governance then [t]
    else []
  }

  function EntriesView(entries: seq<CoverageEntry>, rules: set<string>, bindings: set<string>, governance: bool): seq<CoverageEntry> {
    FlatMap((e: CoverageEntry) => EntryView(e, rules, bindings, governance), entries)
  }

  function TargetsView(targets: seq<TargetEntry>, bindings: set<string>, governance: bool): seq<TargetEntry> {
    FlatMap((t: TargetEntry) => TargetView(t, bindings, governance), targets)
  }

  function ListedRules(e: CoverageEntry): seq<string> { e.ruleIds }

  function ListedBindings(e: CoverageEntry): seq<string> { e.bindingIds }

  function RuleKey(r: Rule): (string, string) { (r.documentId, r.documentVersion) }

  function EntryKey(e: CoverageEntry): (string, string) { (e.documentId, e.documentVersion) }

  function DocumentKey(d: Document): (string, string) { (d.documentId, d.documentVersion) }

  function DocumentKeys(rules: seq<Rule>, entries: seq<CoverageEntry>): set<(string, string)> {
    (set r | r in rules :: RuleKey(r)) + (set e | e in entries :: EntryKey(e))
  }

  function PackRules(pack: Pack, ids: seq<string>): seq<Rule> { Filter((r: Rule) => Qualified(r) in ids, pack.rules) }

  function PackBindings(pack: Pack, ids: seq<string>): seq<Binding> { Filter((b: Binding) => b.ruleId in ids, pack.bindings) }

  function PackDocuments(pack: Pack, keys: set<(string, string)>): seq<Document> {
    Filter((d: Document) => DocumentKey(d) in keys, pack.documents)
  }

  /** `_project_pack_source`, for the references a shard has in this pack. */
  function ProjectPack(pack: Pack, packId: string, refs: seq<RuleReference>, governance: bool, bindingId: Binding -> string): Option<View> {
    var ids := SortedSet(MapEach(RuleIdOf, refs));
    var rules, bindings := PackRules(pack, ids), PackBindings(pack, ids);
    var bindingIds := MapEach(bindingId, bindings);
    var entries := EntriesView(pack.entries, Members(ids), Members(bindingIds), governance);
    var keys := DocumentKeys(rules, entries);
    var documents := PackDocuments(pack, keys);
    if pack.packId != packId || ids == [] then None
    else if SortStrings(MapEach(Qualified, rules)) != ids then None
    else if !NoDuplicates(bindingIds) then None
    else if Members(FlatMap(ListedRules, entries)) != Members(ids) then None
    else if Members(FlatMap(ListedBindings, entries)) != Members(bindingIds) then None
    else if (set d | d in documents :: DocumentKey(d)) != keys then None
    else Some(View(
      ids, SortedSet(MapEach(ReferenceId, refs)), documents, rules, bindings, entries,
      TargetsView(pack.targets, Members(bindingIds), governance), pack.header))
  }

  /** The loops over rules, coverage entries and targets. */
  method ProjectPackSource(pack: Pack, packId: string, refs: seq<RuleReference>, governance: bool, bindingId: Binding -> string)
    returns (r: Option<View>)
    ensures r == ProjectPack(pack, packId, refs, governance, bindingId)
  {
    hide SortedSet, NoDuplicates, SortStrings, FlatMap, Kept, Members, DocumentKeys;
    if pack.packId != packId { return None; }
    var ids := SortedSet(MapEach(RuleIdOf, refs));
    if ids == [] { return None; }
    var rules := SelectRules(pack, ids);
    if SortStrings(MapEach(Qualified, rules)) != ids { return None; }
    var bindings := PackBindings(pack, ids);
    var bindingIds := MapEach(bindingId, bindings);
    if !NoDuplicates(bindingIds) { return None; }
    var entries := SelectEntries(pack.entries, Members(ids), Members(bindingIds), governance);
    var targets := SelectTargets(pack.targets, Members(bindingIds), governance);
    if Members(FlatMap(ListedRules, entries)) != Members(ids) { return None; }
    if Members(FlatMap(ListedBindings, entries)) != Members(bindingIds) { return None; }
    var keys := DocumentKeys(rules, entries);
    var documents := PackDocuments(pack, keys);
    if (set d | d in documents :: DocumentKey(d)) != keys { return None; }
    return Some(View(ids, SortedSet(MapEach(ReferenceId, refs)), documents, rules, bindings, entries, targets, pack.header));
  }

  method SelectRules(pack: Pack, ids: seq<string>) returns (rules: seq<Rule>)
    ensures rules == PackRules(pack, ids)
  {
    hide Filter;
    rules := [];
    var i := 0;
    NothingKept((r: Rule) => Qualified(r) in ids);
    while i < |pack.rules|
      invariant 0 <= i <= |pack.rules|
      invariant rules == Filter((r: Rule) => Qualified(r) in ids, pack.rules[..i])
    {
      assert pack.rules[..i + 1] == pack.rules[..i] + [pack.rules[i]];
      FilterSnoc((r: Rule) => Qualified(r) in ids, pack.rules[..i], pack.rules[i]);
      if Qualified(pack.rules[i]) in ids { rules := rules + [pack.rules[i]]; }
      i := i + 1;
    }
    assert pack.rules[..i] == pack.rules;
  }

  lemma NothingKept<T(!new)>(p: T -> bool)
    ensures Filter(p, []) == []
  {
  }

  method SelectEntries(entries: seq<CoverageEntry>, rules: set<string>, bindings: set<string>, governance: bool) returns (r: seq<CoverageEntry>)
    ensures r == EntriesView(entries, rules, bindings, governance)
  {
    hide Kept;
    r := [];
    var i := 0;
    while i < |entries|
      invariant 0 <= i <= |entries|
      invariant r == EntriesView(entries[..i], rules, bindings, governance)
    {
      assert entries[..i + 1] == entries[..i] + [entries[i]];
      FlatMapSnoc((e: CoverageEntry) => EntryView(e, rules, bindings, governance), entries[..i], entries[i]);
      if entries[i].status == "rule" {
        var kept := Kept(entries[i].ruleIds, rules);
        if kept != [] { r := r + [entries[i].(ruleIds := kept, bindingIds := Kept(entries[i].bindingIds, bindings))]; }
      } else if governance {
        r := r + [entries[i]];
      }
      i := i + 1;
    }
    assert entries[..i] == entries;
  }

  method SelectTargets(targets: seq<TargetEntry>, bindings: set<string>, governance: bool) returns (r: seq<TargetEntry>)
    ensures r == TargetsView(targets, bindings, governance)
  {
    hide Kept;
    r := [];
    var i := 0;
    while i < |targets|
      invariant 0 <= i <= |targets|
      invariant r == TargetsView(targets[..i], bindings, governance)
    {
      assert targets[..i + 1] == targets[..i] + [targets[i]];
      FlatMapSnoc((t: TargetEntry) => TargetView(t, bindings, governance), targets[..i], targets[i]);
      if targets[i].status == "bound" {
        var kept := Kept(targets[i].bindingIds, bindings);
        if kept != [] { r := r + [targets[i].(bindingIds := kept)]; }
      } else if governance {
        r := r + [targets[i]];
      }
      i := i + 1;
    }
    assert targets[..i] == targets;
  }

  /** Which rows a view of a pack holds, rule by rule and entry by entry. */
  lemma ViewRows(pack: Pack, packId: string, refs: seq<RuleReference>, governance: bool, bindingId: Binding -> string)
    requires ProjectPack(pack, packId, refs, governance, bindingId).Some?
    ensures var v := ProjectPack(pack, packId, refs, governance, bindingId).value;
      && (forall id :: id in v.ruleIds <==> exists r :: r in refs && r.ruleId == id)
      && (forall r :: r in v.rules <==> r in pack.rules && Qualified(r) in v.ruleIds)
      && (forall b :: b in v.bindings <==> b in pack.bindings && b.ruleId in v.ruleIds)
      && Members(MapEach(Qualified, v.rules)) == Members(v.ruleIds)
  {
    hide EntriesView, TargetsView, Members, DocumentKeys, PackDocuments, FlatMap;
    var v := ProjectPack(pack, packId, refs, governance, bindingId).value;
    SortedSetMembers(MapEach(RuleIdOf, refs));
    forall id ensures id in v.ruleIds <==> exists r :: r in refs && r.ruleId == id {
      AssignedRule(refs, id);
    }
    SortKeepsMembers(MapEach(Qualified, v.rules), ByKey(Self));
    SameKeys(MapEach(Qualified, v.rules), v.ruleIds);
  }

  lemma SameKeys(a: seq<string>, b: seq<string>)
    requires forall x :: x in b <==> x in a
    ensures Members(a) == Members(b)
  {
  }

  lemma AssignedRule(refs: seq<RuleReference>, id: string)
    ensures id in MapEach(RuleIdOf, refs) <==> exists r :: r in refs && r.ruleId == id
  {
    if id in MapEach(RuleIdOf, refs) {
      var i :| 0 <= i < |refs| && MapEach(RuleIdOf, refs)[i] == id;
      assert refs[i] in refs;
    }
    if r :| r in refs && r.ruleId == id {
      var i :| 0 <= i < |refs| && refs[i] == r;
      assert MapEach(RuleIdOf, refs)[i] == id;
    }
  }

  /** Every binding a view selects is listed by one of its coverage entries, and no other is. */
  lemma BindingsStayCovered(pack: Pack, packId: string, refs: seq<RuleReference>, governance: bool, bindingId: Binding -> string)
    requires ProjectPack(pack, packId, refs, governance, bindingId).Some?
    ensures var v := ProjectPack(pack, packId, refs, governance, bindingId).value;
      && (forall b :: b in v.bindings ==> exists i :: 0 <= i < |v.entries| && bindingId(b) in v.entries[i].bindingIds)
      && forall i, x :: 0 <= i < |v.entries| && x in v.entries[i].bindingIds ==> exists b :: b in v.bindings && bindingId(b) == x
  {
    hide EntriesView, TargetsView, DocumentKeys, PackDocuments, FlatMap, SortedSet, SortStrings, PackRules, PackBindings;
    var v := ProjectPack(pack, packId, refs, governance, bindingId).value;
    var ids := MapEach(bindingId, v.bindings);
    forall b | b in v.bindings ensures exists i :: 0 <= i < |v.entries| && bindingId(b) in v.entries[i].bindingIds {
      var k :| 0 <= k < |v.bindings| && v.bindings[k] == b;
      assert ids[k] in Members(ids);
      FlatMember(ListedBindings, v.entries, bindingId(b));
    }
    forall i, x | 0 <= i < |v.entries| && x in v.entries[i].bindingIds ensures exists b :: b in v.bindings && bindingId(b) == x {
      FlatMember(ListedBindings, v.entries, x);
      assert x in Members(FlatMap(ListedBindings, v.entries));
      var k :| 0 <= k < |ids| && ids[k] == x;
      assert v.bindings[k] in v.bindings;
    }
  }

  /** Rows that are not about rules go to the governing shard, whole, and to no other. */
  lemma GovernanceRows(pack: Pack, packId: string, refs: seq<RuleReference>, governance: bool, bindingId: Binding -> string)
    requires ProjectPack(pack, packId, refs, governance, bindingId).Some?
    ensures var v := ProjectPack(pack, packId, refs, governance, bindingId).value;
      && (forall e :: e in pack.entries && e.status != "rule" ==> (e in v.entries <==> governance))
      && (forall t :: t in pack.targets && t.status != "bound" ==> (t in v.targets <==> governance))
  {
    hide DocumentKeys, PackDocuments, FlatMap, SortedSet, SortStrings, PackRules, PackBindings, Kept, Members;
    var v := ProjectPack(pack, packId, refs, governance, bindingId).value;
    var bindings := Members(MapEach(bindingId, v.bindings));
    forall e | e in pack.entries && e.status != "rule" ensures e in v.entries <==> governance {
      EntryInView(pack.entries, Members(v.ruleIds), bindings, governance, e);
    }
    forall t | t in pack.targets && t.status != "bound" ensures t in v.targets <==> governance {
      TargetInView(pack.targets, bindings, governance, t);
    }
  }

  lemma EntryInView(entries: seq<CoverageEntry>, rules: set<string>, bindings: set<string>, governance: bool, e: CoverageEntry)
    requires e in entries && e.status != "rule"
    ensures e in EntriesView(entries, rules, bindings, governance) <==> governance
  {
    hide Kept;
    var f := (x: CoverageEntry) => EntryView(x, rules, bindings, governance);
    FlatMember(f, entries, e);
    var k :| 0 <= k < |entries| && entries[k] == e;
    assert governance ==> e in f(entries[k]);
  }

  lemma TargetInView(targets: seq<TargetEntry>, bindings: set<string>, governance: bool, t: TargetEntry)
    requires t in targets && t.status != "bound"
    ensures t in TargetsView(targets, bindings, governance) <==> governance
  {
    hide Kept;
    var f := (x: TargetEntry) => TargetView(x, bindings, governance);
    FlatMember(f, targets, t);
    var k :| 0 <= k < |targets| && targets[k] == t;
    assert governance ==> t in f(targets[k]);
  }

  /** A rule entry appears in a view exactly when it lists one of the view's rules, cut down to them. */
  lemma RuleEntryView(pack: Pack, packId: string, refs: seq<RuleReference>, governance: bool, bindingId: Binding -> string, e: CoverageEntry)
    requires ProjectPack(pack, packId, refs, governance, bindingId).Some?
    requires e in pack.entries && e.status == "rule"
    ensures var v := ProjectPack(pack, packId, refs, governance, bindingId).value;
      forall id :: id in e.ruleIds && id in v.ruleIds ==>
        exists row :: row in v.entries && id in row.ruleIds && row == e.(ruleIds := row.ruleIds, bindingIds := row.bindingIds)
                      && forall x :: x in row.ruleIds <==> x in e.ruleIds && x in v.ruleIds
  {
    hide DocumentKeys, PackDocuments, FlatMap, SortedSet, SortStrings, PackRules, PackBindings, Kept;
    var v := ProjectPack(pack, packId, refs, governance, bindingId).value;
    var bindings := Members(MapEach(bindingId, v.bindings));
    forall id | id in e.ruleIds && id in v.ruleIds
      ensures exists row :: row in v.entries && id in row.ruleIds && row == e.(ruleIds := row.ruleIds, bindingIds := row.bindingIds)
                            && forall x :: x in row.ruleIds <==> x in e.ruleIds && x in v.ruleIds
    {
      KeptMembers(e.ruleIds, Members(v.ruleIds));
      var row := e.(ruleIds := Kept(e.ruleIds, Members(v.ruleIds)), bindingIds := Kept(e.bindingIds, bindings));
      var f := (x: CoverageEntry) => EntryView(x, Members(v.ruleIds), bindings, governance);
      FlatMember(f, pack.entries, row);
      var k :| 0 <= k < |pack.entries| && pack.entries[k] == e;
      assert row in f(pack.entries[k]);
    }
  }
}
