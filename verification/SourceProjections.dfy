/** All views of all packs (`build_model_source_projections`): the shards divide every pack
    between them, and together lose nothing the plan names. */
module SourceProjections {
  import opened Sequences
  import opened Sorting
  import opened CacheModel
  import opened Surface
  import opened Projection
  import opened Allocation
  import opened PackProjection

  /** The fixed layout: shards in order, the packs each may see, and the shard governing each pack. */
  datatype Layout = Layout(order: seq<string>, sources: map<string, seq<string>>, governance: map<string, string>)

  predicate LayoutOk(l: Layout, specs: SpecTable) {
    && TableOk(specs, l.order)
    && l.sources.Keys == Members(l.order)
    && (forall s :: s in l.sources ==> NoDuplicates(l.sources[s]) && forall p :: p in l.sources[s] ==> p in l.governance)
    && forall p :: p in l.governance ==> l.governance[p] in l.sources && p in l.sources[l.governance[p]]
  }

  /** The audit's pack rows as a dictionary in insertion order, and the pack each rule reference belongs to. */
  datatype PackTable = PackTable(ids: seq<string>, path: map<string, string>, packOf: map<string, string>)

  /** The first pack ID recorded for a path. */
  function FirstPack(ids: seq<string>, path: map<string, string>, p: string): (r: Option<string>)
    ensures r.Some? ==> r.value in path && path[r.value] == p
  {
    if ids == [] then None
    else if ids[0] in path && path[ids[0]] == p then Some(ids[0])
    else FirstPack(ids[1..], path, p)
  }

  function PackIdFor(t: PackTable, p: string): Option<string> { FirstPack(t.ids, t.path, p) }

  datatype Inputs = Inputs(
    layout: Layout, specs: SpecTable, rows: seq<Reference>, table: PackTable, packs: map<string, Pack>, bindingId: Binding -> string)

  function ShardReferences(x: Inputs, shard: string): seq<RuleReference> { SharedOut(x.rows, x.specs, shard) }

  predicate InPack(t: PackTable, r: RuleReference, packId: string) {
    r.referenceId in t.packOf && t.packOf[r.referenceId] == packId
  }

  function PackReferences(x: Inputs, shard: string, packId: string): seq<RuleReference> {
    Filter((r: RuleReference) => InPack(x.table, r, packId), ShardReferences(x, shard))
  }

  /** One shard's view of the pack stored at `p`. */
  function ViewAt(x: Inputs, shard: string, p: string): Option<View>
    requires LayoutOk(x.layout, x.specs)
  {
    match PackIdFor(x.table, p)
    case None => None
    case Some(packId) =>
      if p !in x.packs || p !in x.layout.governance then None
      else ProjectPack(x.packs[p], packId, PackReferences(x, shard, packId), x.layout.governance[p] == shard, x.bindingId)
  }

  /** The pack paths a shard's references point at; None when one has no pack. */
  function PointedAt(x: Inputs, shard: string): Option<seq<string>> {
    Collect((r: RuleReference) => PathOf(x.table, r), ShardReferences(x, shard))
  }

  function PathOf(t: PackTable, r: RuleReference): Option<string> {
    if r.referenceId in t.packOf && t.packOf[r.referenceId] in t.path then Some(t.path[t.packOf[r.referenceId]]) else None
  }

  predicate ShardProjects(x: Inputs, shard: string)
    requires LayoutOk(x.layout, x.specs) && shard in x.layout.sources
  {
    && PointedAt(x, shard).Some?
    && Members(PointedAt(x, shard).value) == Members(x.layout.sources[shard])
    && forall i :: 0 <= i < |x.layout.sources[shard]| ==> ViewAt(x, shard, x.layout.sources[shard][i]).Some?
  }

  predicate Projects(x: Inputs)
    requires LayoutOk(x.layout, x.specs)
  {
    && AllocationOk(x.rows, x.specs)
    && x.table.path.Values == x.layout.governance.Keys
    && forall i :: 0 <= i < |x.layout.order| ==> ShardProjects(x, x.layout.order[i])
  }

  // ---- The loop over shards and packs ----

  /** The views gathered so far are the right ones for exactly these shards and packs. */
  predicate Gathered(x: Inputs, views: map<(string, string), View>, done: set<(string, string)>)
    requires LayoutOk(x.layout, x.specs)
  {
    views.Keys == done && forall k :: k in views ==> ViewAt(x, k.0, k.1) == Some(views[k])
  }

  function ShardPairs(shard: string, paths: seq<string>): set<(string, string)> {
    set p | p in paths :: (shard, p)
  }

  lemma ShardPairsSnoc(shard: string, paths: seq<string>, i: nat)
    requires i < |paths|
    ensures ShardPairs(shard, paths[..i + 1]) == ShardPairs(shard, paths[..i]) + {(shard, paths[i])}
  {
    assert paths[..i + 1] == paths[..i] + [paths[i]];
  }

  method ProjectShard(x: Inputs, shard: string, views0: map<(string, string), View>, ghost done: set<(string, string)>)
    returns (r: Option<map<(string, string), View>>)
    requires LayoutOk(x.layout, x.specs) && shard in x.layout.sources && Gathered(x, views0, done)
    ensures r.Some? <==> ShardProjects(x, shard)
    ensures r.Some? ==> Gathered(x, r.value, done + ShardPairs(shard, x.layout.sources[shard]))
  {
    hide ViewAt, Members, SharedOut, PointedAt, ShardPairs;
    var pointed := PointedAt(x, shard);
    if pointed == None || Members(pointed.value) != Members(x.layout.sources[shard]) { return None; }
    var views, i, paths := views0, 0, x.layout.sources[shard];
    NoPairs(shard);
    assert paths[..0] == [];
    while i < |paths|
      invariant 0 <= i <= |paths|
      invariant Gathered(x, views, done + ShardPairs(shard, paths[..i]))
      invariant forall k :: 0 <= k < i ==> ViewAt(x, shard, paths[k]).Some?
    {
      var view := ProjectAt(x, shard, paths[i]);
      if view == None { return None; }
      ShardPairsSnoc(shard, paths, i);
      views := views[(shard, paths[i]) := view.value];
      i := i + 1;
    }
    assert paths[..i] == paths;
    return Some(views);
  }

  lemma NoPairs(shard: string)
    ensures ShardPairs(shard, []) == {}
  {
  }

  method ProjectAt(x: Inputs, shard: string, p: string) returns (r: Option<View>)
    requires LayoutOk(x.layout, x.specs)
    ensures r == ViewAt(x, shard, p)
  {
    hide ProjectPack, PackReferences;
    var packId := PackIdFor(x.table, p);
    if packId == None || p !in x.packs || p !in x.layout.governance { return None; }
    r := ProjectPackSource(x.packs[p], packId.value, PackReferences(x, shard, packId.value), x.layout.governance[p] == shard, x.bindingId);
  }

  function PairsOf(l: Layout, order: seq<string>): set<(string, string)> {
    set s, p | s in order && s in l.sources && p in l.sources[s] :: (s, p)
  }

  lemma PairsSnoc(l: Layout, order: seq<string>, i: nat)
    requires i < |order| && order[i] in l.sources
    ensures PairsOf(l, order[..i + 1]) == PairsOf(l, order[..i]) + ShardPairs(order[i], l.sources[order[i]])
  {
    assert order[..i + 1] == order[..i] + [order[i]];
  }

  /** `build_model_source_projections`, for the packs. */
  method BuildSourceProjections(x: Inputs) returns (r: Option<map<(string, string), View>>)
    requires LayoutOk(x.layout, x.specs)
    ensures r.Some? <==> Projects(x)
    ensures r.Some? ==> Gathered(x, r.value, PairsOf(x.layout, x.layout.order))
  {
    hide AllocationOk, ShardProjects, PairsOf, ShardPairs, Gathered, ViewAt, SharedOut, TableOk, LayoutOk;
    LayoutTable(x);
    var shares := AllocateRuleReferences(x.rows, x.specs, x.layout.order);
    if shares == None || x.table.path.Values != x.layout.governance.Keys { return None; }
    var views: map<(string, string), View>, i, order := map[], 0, x.layout.order;
    NothingGathered(x);
    forall k | 0 <= k < |order| ensures order[k] in x.layout.sources { InOrder(x, k); }
    assert order[..0] == [];
    while i < |order|
      invariant 0 <= i <= |order|
      invariant forall k :: 0 <= k < i ==> ShardProjects(x, order[k])
      invariant Gathered(x, views, PairsOf(x.layout, order[..i]))
    {
      var next := ProjectShard(x, order[i], views, PairsOf(x.layout, order[..i]));
      if next == None { return None; }
      PairsSnoc(x.layout, order, i);
      views := next.value;
      i := i + 1;
    }
    assert order[..i] == order;
    return Some(views);
  }

  lemma LayoutTable(x: Inputs)
    requires LayoutOk(x.layout, x.specs)
    ensures TableOk(x.specs, x.layout.order)
  {
  }

  lemma InOrder(x: Inputs, i: nat)
    requires LayoutOk(x.layout, x.specs) && i < |x.layout.order|
    ensures x.layout.order[i] in x.layout.sources
  {
    assert x.layout.order[i] in Members(x.layout.order);
  }

  lemma NothingGathered(x: Inputs)
    requires LayoutOk(x.layout, x.specs)
    ensures Gathered(x, map[], PairsOf(x.layout, []))
  {
  }

  // ---- Rules ----

  /** A reference's pack is the one its path stands for. */
  predicate PackIsFirst(x: Inputs, r: RuleReference) {
    match PathOf(x.table, r)
    case None => false
    case Some(p) => PackIdFor(x.table, p) == Some(x.table.packOf[r.referenceId])
  }

  lemma ViewRules(x: Inputs, s: string, p: string, id: string)
    requires LayoutOk(x.layout, x.specs) && ViewAt(x, s, p).Some?
    ensures id in ViewAt(x, s, p).value.ruleIds <==>
              exists r :: r in ShardReferences(x, s) && InPack(x.table, r, PackIdFor(x.table, p).value) && r.ruleId == id
  {
    hide SharedOut, ProjectPack, InPack;
    var packId := PackIdFor(x.table, p).value;
    ViewRows(x.packs[p], packId, PackReferences(x, s, packId), x.layout.governance[p] == s, x.bindingId);
  }

  /** No rule is visible to two shards. */
  lemma RulesAreDisjoint(x: Inputs, s: string, p: string, t: string, q: string, id: string)
    requires LayoutOk(x.layout, x.specs) && Projects(x) && ViewAt(x, s, p).Some? && ViewAt(x, t, q).Some?
    requires id in ViewAt(x, s, p).value.ruleIds && id in ViewAt(x, t, q).value.ruleIds
    ensures s == t && p == q
  {
    hide SharedOut, ViewAt, InPack, AllocationOk, ShardProjects;
    ViewRules(x, s, p, id);
    ViewRules(x, t, q, id);
    HasPack(x, s, p);
    HasPack(x, t, q);
    var a :| a in ShardReferences(x, s) && InPack(x.table, a, PackIdFor(x.table, p).value) && a.ruleId == id;
    var b :| b in ShardReferences(x, t) && InPack(x.table, b, PackIdFor(x.table, q).value) && b.ruleId == id;
    if s != t {
      SharesDisjoint(x.rows, x.specs, s, t, a, b);
    } else {
      OneReferenceARule(x, s, a, b);
      assert InPack(x.table, a, PackIdFor(x.table, q).value);
      SamePack(x.table, a, PackIdFor(x.table, p).value, PackIdFor(x.table, q).value);
    }
  }

  lemma SamePack(t: PackTable, r: RuleReference, a: string, b: string)
    requires InPack(t, r, a) && InPack(t, r, b)
    ensures a == b
  {
  }

  lemma OneReferenceARule(x: Inputs, s: string, a: RuleReference, b: RuleReference)
    requires AllocationOk(x.rows, x.specs) && a in ShardReferences(x, s) && b in ShardReferences(x, s) && a.ruleId == b.ruleId
    ensures a == b
  {
    hide SharedOut, AllocationOk, Owned;
    SharedMembers(x.rows, x.specs, s, a);
    SharedMembers(x.rows, x.specs, s, b);
    var p :| p in x.rows && Owned(p, x.specs, s) && a == Normalised(p);
    var q :| q in x.rows && Owned(q, x.specs, s) && b == Normalised(q);
    OneRowARule(x.rows, x.specs, s, p, q);
  }

  lemma OneRowARule(rows: seq<Reference>, specs: SpecTable, s: string, p: Reference, q: Reference)
    requires AllocationOk(rows, specs) && p in rows && q in rows && Owned(p, specs, s) && Owned(q, specs, s) && p.ruleId == q.ruleId
    ensures p == q
  {
    hide KnownRules, RuleOk, UrlsWhole, NoneUnexpected, RuleIds;
    var rules := KnownRules(rows, specs);
    KnownMembers(rows, specs, p);
    KnownMembers(rows, specs, q);
    var i :| 0 <= i < |rules| && rules[i] == p;
    var j :| 0 <= j < |rules| && rules[j] == q;
  }

  /** A shard's reference reaches the shard's view of its pack exactly when that pack's path stands for it. */
  lemma ReferenceReachesView(x: Inputs, s: string, r: RuleReference)
    requires LayoutOk(x.layout, x.specs) && Projects(x) && s in x.layout.order && r in ShardReferences(x, s)
    ensures PathOf(x.table, r).Some? && PathOf(x.table, r).value in x.layout.sources[s]
    ensures ViewAt(x, s, PathOf(x.table, r).value).Some?
    ensures PackIsFirst(x, r) <==> exists p :: p in x.layout.sources[s] && ViewAt(x, s, p).Some? && r.ruleId in ViewAt(x, s, p).value.ruleIds
  {
    hide SharedOut, AllocationOk, ViewAt;
    var k :| 0 <= k < |x.layout.order| && x.layout.order[k] == s;
    assert ShardProjects(x, s);
    PointedMember(x, s, r);
    var p := PathOf(x.table, r).value;
    assert p in Members(x.layout.sources[s]);
    var i :| 0 <= i < |x.layout.sources[s]| && x.layout.sources[s][i] == p;
    if PackIsFirst(x, r) {
      ViewRules(x, s, p, r.ruleId);
      assert InPack(x.table, r, PackIdFor(x.table, p).value);
    }
    if q :| q in x.layout.sources[s] && ViewAt(x, s, q).Some? && r.ruleId in ViewAt(x, s, q).value.ruleIds {
      ViewRules(x, s, q, r.ruleId);
      HasPack(x, s, q);
      var b :| b in ShardReferences(x, s) && InPack(x.table, b, PackIdFor(x.table, q).value) && b.ruleId == r.ruleId;
      OneReferenceARule(x, s, r, b);
    }
  }

  lemma HasPack(x: Inputs, s: string, p: string)
    requires LayoutOk(x.layout, x.specs) && ViewAt(x, s, p).Some?
    ensures PackIdFor(x.table, p).Some? && p in x.packs && p in x.layout.governance
  {
    hide ProjectPack;
  }

  lemma PointedMember(x: Inputs, s: string, r: RuleReference)
    requires PointedAt(x, s).Some? && r in ShardReferences(x, s)
    ensures PathOf(x.table, r).Some? && PathOf(x.table, r).value in Members(PointedAt(x, s).value)
  {
    hide SharedOut, PathOf;
    var refs := ShardReferences(x, s);
    var i :| 0 <= i < |refs| && refs[i] == r;
    assert PathOf(x.table, refs[i]) == Some(PointedAt(x, s).value[i]);
  }

  /** Shard `s` sees rule `id` in the pack at `p`. */
  predicate Visible(x: Inputs, s: string, p: string, id: string)
    requires LayoutOk(x.layout, x.specs)
  {
    s in x.layout.order && s in x.layout.sources && p in x.layout.sources[s] && ViewAt(x, s, p).Some? && id in ViewAt(x, s, p).value.ruleIds
  }

  ghost predicate CoversPlan(x: Inputs)
    requires LayoutOk(x.layout, x.specs)
  {
    forall id :: id in x.specs ==> exists s, p :: Visible(x, s, p, id)
  }

  predicate PacksAreFirst(x: Inputs) {
    forall s, r :: s in x.layout.order && r in ShardReferences(x, s) ==> PackIsFirst(x, r)
  }

  lemma FirstPacksCover(x: Inputs, id: string)
    requires LayoutOk(x.layout, x.specs) && Projects(x) && PacksAreFirst(x) && id in x.specs
    ensures exists s, p :: Visible(x, s, p, id)
  {
    hide SharedOut, AllocationOk, Visible, PackIsFirst, ShardProjects;
    var s, r := SharedRule(x.rows, x.specs, x.layout.order, id);
    ReferenceVisible(x, s, r);
  }

  lemma CoverNeedsFirst(x: Inputs, s: string, r: RuleReference)
    requires LayoutOk(x.layout, x.specs) && Projects(x) && CoversPlan(x) && s in x.layout.order && r in ShardReferences(x, s)
    ensures PackIsFirst(x, r)
  {
    hide ShardReferences, Projects, Visible, PackIsFirst, LayoutOk;
    PlannedRule(x, s, r);
    var t, p :| Visible(x, t, p, r.ruleId);
    VisibleIsOwn(x, s, r, t, p);
    ReferenceVisible(x, s, r);
  }

  /** The shards' visible rules cover the plan exactly when every planned reference's pack is the one its path stands for. */
  lemma RulesCoverPlan(x: Inputs)
    requires LayoutOk(x.layout, x.specs) && Projects(x)
    ensures CoversPlan(x) <==> PacksAreFirst(x)
  {
    hide ShardReferences, Projects, Visible, PackIsFirst, LayoutOk;
    if PacksAreFirst(x) {
      forall id | id in x.specs ensures exists s, p :: Visible(x, s, p, id) { FirstPacksCover(x, id); }
    }
    if CoversPlan(x) {
      forall s, r | s in x.layout.order && r in ShardReferences(x, s) ensures PackIsFirst(x, r) { CoverNeedsFirst(x, s, r); }
    }
  }

  // ---- Two packs on one path lose a rule ----

  function RowFor(rule: string, c: char): Reference { Reference(Hex(c), Hex(c), "rule", rule, "url", "section") }

  function SharedPack(): Pack {
    Pack("k1", [Document("d", "v", "")], [Rule("d", "v", "a", ""), Rule("d", "v", "b", "")], [],
         [CoverageEntry("d", "v", "rule", ["d:v:a", "d:v:b"], [], "")], [], "")
  }

  /** One shard, one path, and two rules that the audit gives to two packs stored there. */
  function SharedPath(): Inputs {
    Inputs(Layout(["s"], map["s" := ["p"]], map["p" := "s"]),
           map["d:v:a" := RuleSpec("s", "url", "section"), "d:v:b" := RuleSpec("s", "url", "section")],
           [RowFor("d:v:a", 'a'), RowFor("d:v:b", 'b')],
           PackTable(["k1", "k2"], map["k1" := "p", "k2" := "p"], map[Hex('a') := "k1", Hex('b') := "k2"]),
           map["p" := SharedPack()], (b: Binding) => b.identity)
  }

  lemma HexesDiffer()
    ensures Hex('a') != Hex('b') && IsSha256(Hex('a')) && IsSha256(Hex('b'))
    ensures StringLe(Hex('a'), Hex('b'))
  {
    assert Hex('a')[0] != Hex('b')[0];
  }

  lemma SharedAllocation()
    ensures AllocationOk(SharedPath().rows, SharedPath().specs)
  {
    hide Sort, Hex, RulesOk, Owners;
    var x := SharedPath();
    var a, b := RowFor("d:v:a", 'a'), RowFor("d:v:b", 'b');
    assert x.rows == [a] + [b] && [a][1..] == [] && x.rows[1..] == [b] && [b][1..] == [];
    assert KnownRules(x.rows, x.specs) == x.rows;
    SharedRules();
    SharedOwners();
  }

  lemma SharedRules()
    ensures RulesOk(SharedPath().rows, SharedPath().specs)
  {
    hide Hex;
    HexesDiffer();
  }

  lemma SharedOwners()
    ensures Owners(SharedPath().rows, SharedPath().specs, "url") == {"s"}
  {
    hide Hex;
    assert SharedPath().rows[0] in SharedPath().rows;
  }

  lemma SharedReferences()
    ensures ShardReferences(SharedPath(), "s") == [Normalised(RowFor("d:v:a", 'a')), Normalised(RowFor("d:v:b", 'b'))]
  {
    hide Sort, StringLe, Hex;
    var x := SharedPath();
    var a, b := RowFor("d:v:a", 'a'), RowFor("d:v:b", 'b');
    HexesDiffer();
    assert x.rows == [a] + [b] && [a][1..] == [] && x.rows[1..] == [b] && [b][1..] == [];
    assert Owned(a, x.specs, "s") && Owned(b, x.specs, "s");
    assert OwnedBy(x.rows, x.specs, "s") == x.rows;
    var share := [Normalised(a), Normalised(b)];
    assert Share(x.rows, x.specs, "s") == share;
    assert ReferenceId(share[0]) == Hex('a') && ReferenceId(share[1]) == Hex('b');
    assert StringLe(ReferenceId(share[0]), ReferenceId(share[1]));
    assert ByKey(ReferenceId)(share[0], share[1]);
    SortFixesSorted(share, ByKey(ReferenceId));
  }

  lemma SharedView()
    ensures ViewAt(SharedPath(), "s", "p").Some?
  {
    hide Hex, ProjectPack, SharedOut, SharedPack, TableOk;
    var x := SharedPath();
    var a, b := Normalised(RowFor("d:v:a", 'a')), Normalised(RowFor("d:v:b", 'b'));
    HexesDiffer();
    SharedReferences();
    assert [a, b][1..] == [b] && [b][1..] == [];
    assert PackReferences(x, "s", "k1") == [a];
    assert PackIdFor(x.table, "p") == Some("k1");
    OneRuleView([a], x.bindingId);
  }

  lemma OneRuleView(refs: seq<RuleReference>, bindingId: Binding -> string)
    requires |refs| == 1 && refs[0].ruleId == "d:v:a"
    ensures ProjectPack(SharedPack(), "k1", refs, true, bindingId).Some?
  {
    hide SortedSet, SortStrings, EntriesView, PackRules, TargetsView;
    var pack, ids := SharedPack(), ["d:v:a"];
    SingleSorted(ids[0]);
    assert MapEach(RuleIdOf, refs) == ids;
    OneRule();
    var rules := PackRules(pack, ids);
    assert MapEach(Qualified, rules) == ids;
    assert PackBindings(pack, ids) == [];
    assert Members(ids) == {ids[0]} && Members(MapEach(bindingId, [])) == {};
    OneEntry();
    var row := pack.entries[0].(ruleIds := ids);
    FlatMapOne(ListedRules, row);
    FlatMapOne(ListedBindings, row);
    assert rules[0] in rules && RuleKey(rules[0]) == ("d", "v") == EntryKey(row);
    assert DocumentKeys(rules, [row]) == {("d", "v")};
    assert pack.documents[1..] == [];
    assert PackDocuments(pack, {("d", "v")}) == pack.documents;
  }

  lemma OneRule()
    ensures PackRules(SharedPack(), ["d:v:a"]) == [SharedPack().rules[0]] && Qualified(SharedPack().rules[0]) == "d:v:a"
  {
    var rules := SharedPack().rules;
    assert rules[1..] == [rules[1]] && rules[1..][1..] == [];
    assert Qualified(rules[0]) == "d:v:a";
    assert Qualified(rules[1]) == "d:v:b" && "d:v:b"[4] != "d:v:a"[4];
  }

  lemma OneEntry()
    ensures EntriesView(SharedPack().entries, {"d:v:a"}, {}, true) == [SharedPack().entries[0].(ruleIds := ["d:v:a"])]
  {
    hide SortedSet;
    var entry, id := SharedPack().entries[0], "d:v:a";
    assert entry.ruleIds[1..] == ["d:v:b"] && ["d:v:b"][1..] == [] && "d:v:b"[4] != "d:v:a"[4];
    assert Filter(x => x in {id}, entry.ruleIds) == [id];
    SingleSorted(id);
    assert SharedPack().entries == [entry];
    FlatMapOne((e: CoverageEntry) => EntryView(e, {id}, {}, true), entry);
  }

  lemma SingleSorted(id: string)
    ensures SortedSet([id]) == [id] && SortStrings([id]) == [id] && SortedSet([]) == []
  {
    SortOne(id, ByKey(Self));
    assert [id][..0] == [] && Distinct([id]) == [id];
  }

  /** A plan that projects and yet is not covered: the rule of the second pack is visible nowhere. */
  lemma SharedPathLosesRule()
    ensures LayoutOk(SharedPath().layout, SharedPath().specs) && Projects(SharedPath())
    ensures !PacksAreFirst(SharedPath()) && !CoversPlan(SharedPath())
    ensures "d:v:b" in SharedPath().specs && forall s, p :: !Visible(SharedPath(), s, p, "d:v:b")
  {
    hide ViewAt, SharedOut, AllocationOk, SharedPack, Hex, Visible;
    var x := SharedPath();
    var b := Normalised(RowFor("d:v:b", 'b'));
    SharedProjects();
    SharedReferences();
    HexesDiffer();
    assert ShardReferences(x, "s")[1] == b && !PackIsFirst(x, b);
    RulesCoverPlan(x);
    ReferenceVisible(x, "s", b);
    forall s, p ensures !Visible(x, s, p, "d:v:b") {
      if Visible(x, s, p, "d:v:b") { VisibleIsOwn(x, "s", b, s, p); }
    }
  }

  lemma SharedPaths()
    ensures PathOf(SharedPath().table, Normalised(RowFor("d:v:a", 'a'))) == Some("p")
    ensures PathOf(SharedPath().table, Normalised(RowFor("d:v:b", 'b'))) == Some("p")
  {
    hide Hex;
    HexesDiffer();
  }

  lemma SharedLayout()
    ensures LayoutOk(SharedPath().layout, SharedPath().specs)
  {
    hide Hex, SharedPack;
  }

  lemma SharedProjects()
    ensures LayoutOk(SharedPath().layout, SharedPath().specs) && Projects(SharedPath())
  {
    hide ViewAt, SharedOut, AllocationOk, SharedPack, Hex, PathOf, LayoutOk;
    var x := SharedPath();
    SharedLayout();
    SharedAllocation();
    SharedReferences();
    SharedView();
    HexesDiffer();
    var refs := ShardReferences(x, "s");
    SharedPaths();
    CollectIs((r: RuleReference) => PathOf(x.table, r), refs, ["p", "p"]);
    assert x.table.path.Values == {"p"} by { assert "k1" in x.table.path && "k2" in x.table.path; }
  }

  lemma ReferenceVisible(x: Inputs, s: string, r: RuleReference)
    requires LayoutOk(x.layout, x.specs) && Projects(x) && s in x.layout.order && r in ShardReferences(x, s)
    ensures PackIsFirst(x, r) <==> exists p :: Visible(x, s, p, r.ruleId)
  {
    hide ShardReferences, Projects, ViewAt, PackIsFirst;
    assert s in Members(x.layout.order);
    ReferenceReachesView(x, s, r);
    if PackIsFirst(x, r) {
      var p :| p in x.layout.sources[s] && ViewAt(x, s, p).Some? && r.ruleId in ViewAt(x, s, p).value.ruleIds;
      assert Visible(x, s, p, r.ruleId);
    }
  }

  /** Only the shard that owns a reference can see its rule. */
  lemma VisibleIsOwn(x: Inputs, s: string, r: RuleReference, t: string, p: string)
    requires LayoutOk(x.layout, x.specs) && Projects(x) && r in ShardReferences(x, s) && Visible(x, t, p, r.ruleId)
    ensures s == t
  {
    hide SharedOut, AllocationOk, ViewAt, ShardProjects, LayoutOk;
    ViewRules(x, t, p, r.ruleId);
    HasPack(x, t, p);
    var b :| b in ShardReferences(x, t) && InPack(x.table, b, PackIdFor(x.table, p).value) && b.ruleId == r.ruleId;
    if s != t { SharesDisjoint(x.rows, x.specs, s, t, r, b); }
  }

  lemma PlannedRule(x: Inputs, s: string, r: RuleReference)
    requires r in ShardReferences(x, s)
    ensures r.ruleId in x.specs
  {
    SharedMembers(x.rows, x.specs, s, r);
  }

  // ---- Coverage entries, bindings and targets ----

  /** The audit allocates rule `id`, and the pack it gives that rule to is the one the path `p` stands for. */
  predicate Planned(x: Inputs, p: string, id: string) {
    exists s, r :: s in x.layout.order && r in ShardReferences(x, s) && PlannedBy(x, r, p, id)
  }

  predicate PlannedBy(x: Inputs, r: RuleReference, p: string, id: string) {
    r.ruleId == id && PathOf(x.table, r) == Some(p) && PackIsFirst(x, r)
  }

  /** Some shard sees a rule at `p` exactly when the audit plans it there. */
  lemma PlannedIsVisible(x: Inputs, p: string, id: string)
    requires LayoutOk(x.layout, x.specs) && Projects(x)
    ensures Planned(x, p, id) <==> exists s :: s in x.layout.order && Visible(x, s, p, id)
  {
    hide SharedOut, ViewAt, Projects;
    if Planned(x, p, id) {
      var s, r :| s in x.layout.order && r in ShardReferences(x, s) && PlannedBy(x, r, p, id);
      assert s in Members(x.layout.order);
      ReferenceReachesView(x, s, r);
      ViewRules(x, s, p, id);
      assert InPack(x.table, r, PackIdFor(x.table, p).value);
      assert Visible(x, s, p, id);
    }
    if s :| s in x.layout.order && Visible(x, s, p, id) {
      ViewRules(x, s, p, id);
      HasPack(x, s, p);
      var r :| r in ShardReferences(x, s) && InPack(x.table, r, PackIdFor(x.table, p).value) && r.ruleId == id;
      assert PlannedBy(x, r, p, id);
    }
  }

  /** The row that shard `s` sees of the rule entry `e`, cut down to the rules of that shard. */
  ghost predicate SharesEntry(x: Inputs, s: string, p: string, e: CoverageEntry, id: string)
    requires LayoutOk(x.layout, x.specs)
  {
    && ViewAt(x, s, p).Some?
    && exists row :: row in ViewAt(x, s, p).value.entries && id in row.ruleIds
                     && row == e.(ruleIds := row.ruleIds, bindingIds := row.bindingIds)
                     && forall y :: y in row.ruleIds <==> y in e.ruleIds && y in ViewAt(x, s, p).value.ruleIds
  }

  /** Each rule ID of a rule entry that the audit plans in its pack is listed by that entry's row in exactly one
      shard; any other by none, so the entry is divided without loss exactly when all its IDs are planned. */
  lemma EntryIsDivided(x: Inputs, p: string, e: CoverageEntry, id: string)
    requires LayoutOk(x.layout, x.specs) && Projects(x) && p in x.packs
    requires e in x.packs[p].entries && e.status == "rule" && id in e.ruleIds
    ensures Planned(x, p, id) <==> exists s :: s in x.layout.order && p in x.layout.sources[s] && SharesEntry(x, s, p, e, id)
    ensures forall s, t :: SharesEntry(x, s, p, e, id) && SharesEntry(x, t, p, e, id) ==> s == t
  {
    hide Projects, ViewAt, Planned;
    PlannedIsVisible(x, p, id);
    if Planned(x, p, id) {
      var s :| s in x.layout.order && Visible(x, s, p, id);
      EntryShared(x, s, p, e, id);
    }
    forall s, t | SharesEntry(x, s, p, e, id) && SharesEntry(x, t, p, e, id) ensures s == t {
      RulesAreDisjoint(x, s, p, t, p, id);
    }
  }

  lemma EntryShared(x: Inputs, s: string, p: string, e: CoverageEntry, id: string)
    requires LayoutOk(x.layout, x.specs) && p in x.packs && ViewAt(x, s, p).Some? && id in ViewAt(x, s, p).value.ruleIds
    requires e in x.packs[p].entries && e.status == "rule" && id in e.ruleIds
    ensures SharesEntry(x, s, p, e, id)
  {
    hide ProjectPack, PackReferences;
    var packId := PackIdFor(x.table, p).value;
    RuleEntryView(x.packs[p], packId, PackReferences(x, s, packId), x.layout.governance[p] == s, x.bindingId, e);
  }

  /** Each binding of a planned rule reaches exactly one shard, where a coverage entry lists it. */
  lemma BindingsAreDivided(x: Inputs, p: string, b: Binding)
    requires LayoutOk(x.layout, x.specs) && Projects(x) && p in x.packs && b in x.packs[p].bindings
    ensures Planned(x, p, b.ruleId) <==> exists s :: s in x.layout.order && p in x.layout.sources[s] && ShowsBinding(x, s, p, b)
    ensures forall s, t :: ShowsBinding(x, s, p, b) && ShowsBinding(x, t, p, b) ==> s == t
    ensures forall s :: ShowsBinding(x, s, p, b) ==>
              exists i :: 0 <= i < |ViewAt(x, s, p).value.entries| && x.bindingId(b) in ViewAt(x, s, p).value.entries[i].bindingIds
  {
    hide Projects, ViewAt, Planned;
    PlannedIsVisible(x, p, b.ruleId);
    if Planned(x, p, b.ruleId) {
      var s :| s in x.layout.order && Visible(x, s, p, b.ruleId);
      BindingRows(x, s, p, b);
    }
    forall s | ShowsBinding(x, s, p, b)
      ensures b.ruleId in ViewAt(x, s, p).value.ruleIds
      ensures exists i :: 0 <= i < |ViewAt(x, s, p).value.entries| && x.bindingId(b) in ViewAt(x, s, p).value.entries[i].bindingIds
    {
      BindingRows(x, s, p, b);
    }
    forall s, t | ShowsBinding(x, s, p, b) && ShowsBinding(x, t, p, b) ensures s == t {
      RulesAreDisjoint(x, s, p, t, p, b.ruleId);
    }
  }

  predicate ShowsBinding(x: Inputs, s: string, p: string, b: Binding)
    requires LayoutOk(x.layout, x.specs)
  {
    ViewAt(x, s, p).Some? && b in ViewAt(x, s, p).value.bindings
  }

  lemma BindingRows(x: Inputs, s: string, p: string, b: Binding)
    requires LayoutOk(x.layout, x.specs) && p in x.packs && ViewAt(x, s, p).Some? && b in x.packs[p].bindings
    ensures b in ViewAt(x, s, p).value.bindings <==> b.ruleId in ViewAt(x, s, p).value.ruleIds
    ensures b in ViewAt(x, s, p).value.bindings ==>
              exists i :: 0 <= i < |ViewAt(x, s, p).value.entries| && x.bindingId(b) in ViewAt(x, s, p).value.entries[i].bindingIds
  {
    hide ProjectPack, PackReferences;
    var packId := PackIdFor(x.table, p).value;
    ViewRows(x.packs[p], packId, PackReferences(x, s, packId), x.layout.governance[p] == s, x.bindingId);
    BindingsStayCovered(x.packs[p], packId, PackReferences(x, s, packId), x.layout.governance[p] == s, x.bindingId);
  }

  /** Every other coverage entry and every unbound target of a pack reaches its governing shard and no other. */
  lemma GovernanceRowsReachOneShard(x: Inputs, p: string)
    requires LayoutOk(x.layout, x.specs) && Projects(x) && p in x.packs && p in x.layout.governance
    ensures x.layout.governance[p] in x.layout.order && p in x.layout.sources[x.layout.governance[p]]
    ensures ViewAt(x, x.layout.governance[p], p).Some?
    ensures forall s, e :: ViewAt(x, s, p).Some? && e in x.packs[p].entries && e.status != "rule" ==>
              (e in ViewAt(x, s, p).value.entries <==> s == x.layout.governance[p])
    ensures forall s, t :: ViewAt(x, s, p).Some? && t in x.packs[p].targets && t.status != "bound" ==>
              (t in ViewAt(x, s, p).value.targets <==> s == x.layout.governance[p])
  {
    hide ViewAt, AllocationOk, PointedAt;
    var g := x.layout.governance[p];
    assert g in Members(x.layout.order);
    var k :| 0 <= k < |x.layout.order| && x.layout.order[k] == g;
    assert ShardProjects(x, g);
    var i :| 0 <= i < |x.layout.sources[g]| && x.layout.sources[g][i] == p;
    assert ViewAt(x, g, x.layout.sources[g][i]).Some?;
    forall s, e | ViewAt(x, s, p).Some? && e in x.packs[p].entries && e.status != "rule"
      ensures e in ViewAt(x, s, p).value.entries <==> s == g
    {
      ViewGovernance(x, s, p);
    }
    forall s, t | ViewAt(x, s, p).Some? && t in x.packs[p].targets && t.status != "bound"
      ensures t in ViewAt(x, s, p).value.targets <==> s == g
    {
      ViewGovernance(x, s, p);
    }
  }

  lemma ViewGovernance(x: Inputs, s: string, p: string)
    requires LayoutOk(x.layout, x.specs) && p in x.packs && p in x.layout.governance && ViewAt(x, s, p).Some?
    ensures forall e :: e in x.packs[p].entries && e.status != "rule" ==>
              (e in ViewAt(x, s, p).value.entries <==> s == x.layout.governance[p])
    ensures forall t :: t in x.packs[p].targets && t.status != "bound" ==>
              (t in ViewAt(x, s, p).value.targets <==> s == x.layout.governance[p])
  {
    hide ProjectPack, PackReferences;
    var packId := PackIdFor(x.table, p).value;
    GovernanceRows(x.packs[p], packId, PackReferences(x, s, packId), x.layout.governance[p] == s, x.bindingId);
  }
}
