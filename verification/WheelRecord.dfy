/** Putting the SBOM into a wheel and its RECORD (`_inject_sbom`), and the release auditor's own
    reading of RECORD (`_audit_wheel`). */
module WheelRecord {
  import opened Sequences
  import opened Sorting
  import opened Utf8
  import opened Surface
  import opened Projection
  import opened ChunkInventory

  /** What survives of a member's ZIP metadata: its time, whether it came from a Unix tool, and whether it
      is an executable regular file. */
  datatype Info = Info(time: int, unix: bool, executable: bool)

  datatype Member = Member(name: string, payload: Bytes, info: Info)

  type Wheel = seq<Member>

  type CsvRow = seq<string>

  /** Reading and writing CSV text as UTF-8; None when it cannot be read. */
  datatype Csv = Csv(parse: Bytes -> Option<seq<CsvRow>>, write: seq<CsvRow> -> Bytes)

  predicate NonEmptyRows(rows: seq<CsvRow>) {
    forall i :: 0 <= i < |rows| ==> rows[i] != []
  }

  ghost predicate CsvRoundTrips(csv: Csv) {
    forall rows :: NonEmptyRows(rows) ==> csv.parse(csv.write(rows)) == Some(rows)
  }

  function NameOf(m: Member): string { m.name }

  function Names(w: Wheel): seq<string> { MapEach(NameOf, w) }

  function Find(w: Wheel, name: string): (r: Option<Member>)
    ensures r.Some? ==> r.value in w && r.value.name == name
    ensures r.None? ==> forall m :: m in w ==> m.name != name
  {
    if w == [] then None else if w[0].name == name then Some(w[0]) else Find(w[1..], name)
  }

  lemma FindMember(w: Wheel, m: Member)
    requires NoDuplicates(Names(w)) && m in w
    ensures Find(w, m.name) == Some(m)
  {
    var found := Find(w, m.name).value;
    var i :| 0 <= i < |w| && w[i] == m;
    var j :| 0 <= j < |w| && w[j] == found;
    assert Names(w)[i] == Names(w)[j];
  }

  // ---- Injection ----

  const METADATA_SUFFIX := ".dist-info/METADATA"

  /** `name.split("/", 1)[0]` */
  function Root(name: string): string {
    if name == "" || name[0] == '/' then "" else [name[0]] + Root(name[1..])
  }

  function Roots(names: seq<string>): set<string> {
    set n | n in names && EndsWith(n, METADATA_SUFFIX) :: Root(n)
  }

  function RecordName(root: string): string { root + "/RECORD" }

  function SbomName(root: string): string { root + "/sboms/sbom.spdx.json" }

  predicate Ours(root: string, name: string) { name == RecordName(root) || name == SbomName(root) }

  function Text(payload: Bytes, digest: Bytes -> string): CsvRow { [digest(payload), Decimal(|payload|)] }

  /** The RECORD row of a file. */
  function RecordRow(name: string, payload: Bytes, digest: Bytes -> string): CsvRow {
    [name] + Text(payload, digest)
  }

  predicate RowKept(root: string, row: CsvRow) { row != [] && !Ours(root, row[0]) }

  function RowName(row: CsvRow): string { if row == [] then "" else row[0] }

  /** Sorting by `(row[0] == record_name, row[0])`: RECORD last, the rest by name. */
  predicate RowLe(root: string, a: CsvRow, b: CsvRow) {
    var x, y := RowName(a) == RecordName(root), RowName(b) == RecordName(root);
    (!x && y) || (x == y && StringLe(RowName(a), RowName(b)))
  }

  function NewRows(root: string, sbom: Bytes, digest: Bytes -> string): seq<CsvRow> {
    [RecordRow(SbomName(root), sbom, digest), [RecordName(root), "", ""]]
  }

  function KeptRows(root: string, rows: seq<CsvRow>): seq<CsvRow> { Filter((r: CsvRow) => RowKept(root, r), rows) }

  function OutputRows(root: string, rows: seq<CsvRow>, sbom: Bytes, digest: Bytes -> string): seq<CsvRow> {
    Sort(KeptRows(root, rows) + NewRows(root, sbom, digest), (a, b) => RowLe(root, a, b))
  }

  /** Sorting by `(name.startswith(root + "/"), name)`: package files first. */
  predicate NameLe(root: string, a: string, b: string) {
    var x, y := StartsWith(a, root + "/"), StartsWith(b, root + "/");
    (!x && y) || (x == y && StringLe(a, b))
  }

  function KeptNames(root: string, names: seq<string>): seq<string> { Filter((n: string) => !Ours(root, n), names) }

  function OutputNames(root: string, names: seq<string>): seq<string> {
    Sort(KeptNames(root, names) + [SbomName(root), RecordName(root)], (a, b) => NameLe(root, a, b))
  }

  /** `_normalized_info` */
  function NormalisedInfo(name: string, original: Option<Member>, time: int): Info {
    Info(time, true, !EndsWith(name, "/") && original.Some? && original.value.info.unix && original.value.info.executable)
  }

  datatype Setup = Setup(sbom: Bytes, digest: Bytes -> string, csv: Csv, configured: Option<int>)

  function OutputMember(x: Setup, w: Wheel, root: string, record: Member, recordText: Bytes, name: string): Member {
    var original := Find(w, name);
    var time := if x.configured.Some? then x.configured.value else if original.Some? then original.value.info.time else record.info.time;
    var payload :=
      if name == SbomName(root) then x.sbom
      else if name == RecordName(root) then recordText
      else if original.Some? then original.value.payload else [];
    Member(name, payload, NormalisedInfo(name, original, time))
  }

  /** The dist-info directory of a wheel with distinct members and exactly one metadata file. */
  function DistInfo(w: Wheel): Option<string> {
    var roots := Roots(Names(w));
    if !NoDuplicates(Names(w)) || |roots| != 1 then None else Some(OnlyOne(roots))
  }

  lemma OneRoot(roots: set<string>)
    requires |roots| == 1
    ensures exists r :: r in roots && forall q :: q in roots ==> q == r
  {
    var r :| r in roots;
    var rest := roots - {r};
    assert |rest| == 0;
  }

  function OnlyOne(roots: set<string>): (r: string)
    requires |roots| == 1
    ensures roots == {r}
  {
    OneRoot(roots);
    var r :| r in roots && forall q :: q in roots ==> q == r;
    r
  }

  /** `_inject_sbom` */
  function Inject(x: Setup, w: Wheel): Option<Wheel> {
    match DistInfo(w)
    case None => None
    case Some(root) =>
      match Find(w, RecordName(root))
      case None => None
      case Some(record) =>
        match x.csv.parse(record.payload)
        case None => None
        case Some(rows) =>
          var text := x.csv.write(OutputRows(root, rows, x.sbom, x.digest));
          Some(MapEach((n: string) => OutputMember(x, w, root, record, text, n), OutputNames(root, Names(w))))
  }

  // ---- The auditor ----

  /** Names that are equal, or equal once case is folded. */
  predicate NoFoldedDuplicates(names: seq<string>, fold: string -> string) {
    forall i, j :: 0 <= i < j < |names| ==> fold(names[i]) != fold(names[j])
  }

  predicate HasName(row: CsvRow) { row != [] }

  function RecordedNames(rows: seq<CsvRow>): seq<string> { MapEach(RowName, Filter(HasName, rows)) }

  /** `{row[0]: row for row in rows if row}` looked up. */
  function RecordedRow(rows: seq<CsvRow>, name: string): (r: Option<CsvRow>)
    ensures r.Some? ==> r.value in rows && r.value != [] && r.value[0] == name
    ensures r.None? ==> forall row :: row in rows && row != [] ==> row[0] != name
  {
    if rows == [] then None
    else
      var last := rows[|rows| - 1];
      assert rows == rows[..|rows| - 1] + [last];
      if last != [] && last[0] == name then Some(last) else RecordedRow(rows[..|rows| - 1], name)
  }

  predicate EntryOk(rows: seq<CsvRow>, m: Member, digest: Bytes -> string) {
    var row := RecordedRow(rows, m.name);
    row.Some? && |row.value| >= 3 && row.value[1] == digest(m.payload) && row.value[2] == Decimal(|m.payload|)
  }

  /** The RECORD section: parses, no duplicates, names only members, and covers every other member. */
  predicate RecordPasses(x: Setup, w: Wheel, root: string, fold: string -> string) {
    && Find(w, RecordName(root)).Some?
    && match x.csv.parse(Find(w, RecordName(root)).value.payload)
       case None => false
       case Some(rows) =>
         && NoFoldedDuplicates(RecordedNames(rows), fold)
         && (forall i :: 0 <= i < |RecordedNames(rows)| ==> RecordedNames(rows)[i] in Names(w))
         && forall i :: 0 <= i < |w| && w[i].name != RecordName(root) ==> EntryOk(rows, w[i], x.digest)
  }

  /** The names of the rows that injection keeps, and the two it adds, differ when case is folded. */
  predicate NoClash(root: string, rows: seq<CsvRow>, fold: string -> string) {
    && fold(SbomName(root)) != fold(RecordName(root))
    && forall i :: 0 <= i < |KeptRows(root, rows)| ==>
         fold(RowName(KeptRows(root, rows)[i])) !in {fold(SbomName(root)), fold(RecordName(root))}
  }

  // ---- Sorting again ----

  lemma {:induction false} SortAppend<T(!new)>(a: seq<T>, b: seq<T>, le: (T, T) -> bool)
    requires TotalPreorder(le)
    ensures Sort(Sort(a, le) + b, le) == Sort(a + b, le)
  {
    if b == [] {
      assert a + b == a && Sort(a, le) + b == Sort(a, le);
      SortSorts(a, le);
      SortFixesSorted(Sort(a, le), le);
    } else {
      var front, last := b[..|b| - 1], b[|b| - 1];
      SortAppend(a, front, le);
      assert a + b == (a + front) + [last] && Sort(a, le) + b == (Sort(a, le) + front) + [last];
      SortSnoc(a + front, last, le);
      SortSnoc(Sort(a, le) + front, last, le);
    }
  }

  lemma SortSnoc<T>(s: seq<T>, x: T, le: (T, T) -> bool)
    ensures Sort(s + [x], le) == Insert(x, Sort(s, le), le)
  {
    assert (s + [x])[..|s|] == s;
  }

  lemma InsertHead<T>(x: T, h: T, t: seq<T>, le: (T, T) -> bool)
    ensures Insert(x, [h] + t, le) == if le(h, x) then [h] + Insert(x, t, le) else [x] + ([h] + t)
  {
    assert ([h] + t)[1..] == t;
  }

  lemma {:induction false} FilterInsert<T(!new)>(p: T -> bool, x: T, s: seq<T>, le: (T, T) -> bool)
    requires TotalPreorder(le) && Sorted(s, le)
    ensures Filter(p, Insert(x, s, le)) == if p(x) then Insert(x, Filter(p, s), le) else Filter(p, s)
  {
    if s == [] {
      FilterHead(p, x, []);
    } else {
      var h, t := s[0], s[1..];
      assert s == [h] + t;
      InsertHead(x, h, t, le);
      FilterHead(p, h, t);
      if le(h, x) {
        FilterInsert(p, x, t, le);
        FilterHead(p, h, Insert(x, t, le));
        InsertHead(x, h, Filter(p, t), le);
        assert [] + Filter(p, t) == Filter(p, t) && [] + Filter(p, Insert(x, t, le)) == Filter(p, Insert(x, t, le));
      } else {
        FilterHead(p, x, s);
        AllAfter(p, x, s, le);
      }
    }
  }

  /** What survives of a sorted list still comes after an element before its head. */
  lemma AllAfter<T(!new)>(p: T -> bool, x: T, s: seq<T>, le: (T, T) -> bool)
    requires TotalPreorder(le) && Sorted(s, le) && s != [] && !le(s[0], x)
    ensures Insert(x, Filter(p, s), le) == [x] + Filter(p, s)
  {
    hide Filter;
    var kept := Filter(p, s);
    if kept != [] {
      assert kept[0] in kept;
      var k :| 0 <= k < |s| && s[k] == kept[0];
      assert k == 0 || le(s[0], s[k]);
      assert !le(s[k], x);
    }
  }

  lemma {:induction false} FilterSort<T(!new)>(p: T -> bool, s: seq<T>, le: (T, T) -> bool)
    requires TotalPreorder(le)
    ensures Filter(p, Sort(s, le)) == Sort(Filter(p, s), le)
  {
    hide Filter, TotalPreorder, Sorted, Insert;
    if s == [] {
      FilterNone(p, []);
    } else {
      var front, last := s[..|s| - 1], s[|s| - 1];
      assert front + [last] == s;
      FilterSort(p, front, le);
      SortSorts(front, le);
      SortSnoc(front, last, le);
      FilterInsert(p, last, Sort(front, le), le);
      FilterSnoc(p, front, last);
      if p(last) { SortSnoc(Filter(p, front), last, le); } else { assert Filter(p, front) + [] == Filter(p, front); }
    }
  }

  lemma {:induction false} FilterAll<T(!new)>(p: T -> bool, s: seq<T>)
    requires forall i :: 0 <= i < |s| ==> p(s[i])
    ensures Filter(p, s) == s
  {
    if s != [] {
      FilterAll(p, s[1..]);
      assert s == [s[0]] + s[1..];
    }
  }

  lemma {:induction false} FilterNone<T(!new)>(p: T -> bool, s: seq<T>)
    requires forall i :: 0 <= i < |s| ==> !p(s[i])
    ensures Filter(p, s) == []
  {
    if s != [] { FilterNone(p, s[1..]); }
  }

  /** Dropping the added elements, adding them again and sorting changes nothing. */
  lemma ResortIsStable<T(!new)>(p: T -> bool, kept: seq<T>, added: seq<T>, le: (T, T) -> bool)
    requires TotalPreorder(le) && (forall i :: 0 <= i < |kept| ==> p(kept[i])) && forall i :: 0 <= i < |added| ==> !p(added[i])
    ensures Filter(p, Sort(kept + added, le)) == Sort(kept, le)
    ensures Sort(Filter(p, Sort(kept + added, le)) + added, le) == Sort(kept + added, le)
  {
    FilterSort(p, kept + added, le);
    FilterConcat(p, kept, added);
    FilterAll(p, kept);
    FilterNone(p, added);
    assert kept + [] == kept;
    SortSorts(kept, le);
    SortFixesSorted(Sort(kept, le), le);
    SortAppend(kept, added, le);
  }

  // ---- The orders ----

  lemma KeyedOrder<T(!new)>(late: T -> bool, key: T -> string, le: (T, T) -> bool)
    requires forall a, b :: le(a, b) <==> (!late(a) && late(b)) || (late(a) == late(b) && StringLe(key(a), key(b)))
    ensures TotalPreorder(le)
  {
    forall a, b ensures le(a, b) || le(b, a) { StringLeTotal(key(a), key(b)); }
    forall a, b, c | le(a, b) && le(b, c) ensures le(a, c) {
      if late(a) == late(b) == late(c) { StringLeTransitive(key(a), key(b), key(c)); }
    }
  }

  lemma RowOrder(root: string)
    ensures TotalPreorder((a, b) => RowLe(root, a, b))
  {
    KeyedOrder((r: CsvRow) => RowName(r) == RecordName(root), RowName, (a, b) => RowLe(root, a, b));
  }

  lemma NameOrder(root: string)
    ensures TotalPreorder((a, b) => NameLe(root, a, b))
  {
    KeyedOrder((n: string) => StartsWith(n, root + "/"), Self, (a, b) => NameLe(root, a, b));
  }

  // ---- The members of the output ----

  lemma AddedNames(root: string)
    ensures SbomName(root) != RecordName(root)
    ensures !EndsWith(SbomName(root), METADATA_SUFFIX) && !EndsWith(RecordName(root), METADATA_SUFFIX)
  {
    var a, b := SbomName(root), RecordName(root);
    assert a[|a| - 1] == 'n' && b[|b| - 1] == 'D' && METADATA_SUFFIX[|METADATA_SUFFIX| - 1] == 'A';
  }

  lemma OutputNamesMembers(root: string, names: seq<string>)
    requires NoDuplicates(names)
    ensures NoDuplicates(OutputNames(root, names))
    ensures forall n :: n in OutputNames(root, names) <==> n in names || Ours(root, n)
  {
    hide Ours;
    var kept, le := KeptNames(root, names), (a, b) => NameLe(root, a, b);
    var all := kept + [SbomName(root), RecordName(root)];
    AddedNames(root);
    KeptDistinct(root, names);
    SortKeepsMembers(all, le);
    SortPermutes(all, le);
    AllDistinct(root, names);
    forall i, j | 0 <= i < j < |all| ensures Self(all[i]) != Self(all[j]) { assert all[i] != all[j]; }
    DistinctRearranged(all, Sort(all, le), Self);
    var r := OutputNames(root, names);
    forall i, j | 0 <= i < j < |r| ensures r[i] != r[j] { assert Self(r[i]) != Self(r[j]); }
    forall n ensures n in r <==> n in names || Ours(root, n) { OursNamed(root, n); }
  }

  lemma OursNamed(root: string, n: string)
    ensures Ours(root, n) <==> n in [SbomName(root), RecordName(root)]
  {
  }

  lemma KeptDistinct(root: string, names: seq<string>)
    requires NoDuplicates(names)
    ensures NoDuplicates(KeptNames(root, names))
  {
    forall i, j | 0 <= i < j < |names| ensures Self(names[i]) != Self(names[j]) { }
    FilterKeepsDistinct((n: string) => !Ours(root, n), names, Self);
    var kept := KeptNames(root, names);
    forall i, j | 0 <= i < j < |kept| ensures kept[i] != kept[j] { assert Self(kept[i]) != Self(kept[j]); }
  }

  lemma AllDistinct(root: string, names: seq<string>)
    requires NoDuplicates(names)
    ensures NoDuplicates(KeptNames(root, names) + [SbomName(root), RecordName(root)])
  {
    var kept := KeptNames(root, names);
    KeptDistinct(root, names);
    AddedNames(root);
    forall k | 0 <= k < |kept| ensures !Ours(root, kept[k]) { assert kept[k] in kept; }
  }

  /** The pieces a successful injection is made of. */
  lemma Injected(x: Setup, w: Wheel)
    requires Inject(x, w).Some?
    ensures DistInfo(w).Some? && NoDuplicates(Names(w))
    ensures var root := DistInfo(w).value;
      && Find(w, RecordName(root)).Some? && x.csv.parse(Find(w, RecordName(root)).value.payload).Some?
      && Roots(Names(w)) == {root}
      && var record := Find(w, RecordName(root)).value;
         var rows := x.csv.parse(record.payload).value;
         var text := x.csv.write(OutputRows(root, rows, x.sbom, x.digest));
         var out := Inject(x, w).value;
         && |out| == |OutputNames(root, Names(w))| && Names(out) == OutputNames(root, Names(w))
         && forall i :: 0 <= i < |out| ==> out[i] == OutputMember(x, w, root, record, text, OutputNames(root, Names(w))[i])
  {
    hide OutputNames, OutputRows, Roots;
    var root := DistInfo(w).value;
    var out, names := Inject(x, w).value, OutputNames(root, Names(w));
    assert forall i :: 0 <= i < |out| ==> out[i].name == names[i];
    assert Names(out) == names;
  }

  lemma OutputFound(x: Setup, w: Wheel, n: string)
    requires Inject(x, w).Some?
    ensures var root := DistInfo(w).value;
      var record := Find(w, RecordName(root)).value;
      var text := x.csv.write(OutputRows(root, x.csv.parse(record.payload).value, x.sbom, x.digest));
      && (n in Names(w) || Ours(root, n) <==> Find(Inject(x, w).value, n).Some?)
      && (Find(Inject(x, w).value, n).Some? ==> Find(Inject(x, w).value, n) == Some(OutputMember(x, w, root, record, text, n)))
  {
    hide OutputNames, OutputRows, Roots, Inject, DistInfo;
    Injected(x, w);
    var root := DistInfo(w).value;
    var out := Inject(x, w).value;
    OutputNamesMembers(root, Names(w));
    NamesListed(out, n);
    if Find(out, n).Some? {
      var m := Find(out, n).value;
      var i :| 0 <= i < |out| && out[i] == m;
      assert Names(out)[i] == n;
    }
  }

  lemma NamesListed(w: Wheel, n: string)
    ensures n in Names(w) <==> Find(w, n).Some?
  {
    if Find(w, n).Some? {
      var i :| 0 <= i < |w| && w[i] == Find(w, n).value;
      assert Names(w)[i] == n;
    }
  }

  // ---- Injecting twice ----

  lemma RowsResort(root: string, rows: seq<CsvRow>, sbom: Bytes, digest: Bytes -> string)
    ensures OutputRows(root, OutputRows(root, rows, sbom, digest), sbom, digest) == OutputRows(root, rows, sbom, digest)
    ensures NonEmptyRows(OutputRows(root, rows, sbom, digest))
  {
    var kept, added, le := KeptRows(root, rows), NewRows(root, sbom, digest), (a, b) => RowLe(root, a, b);
    var p := (r: CsvRow) => RowKept(root, r);
    RowOrder(root);
    forall i | 0 <= i < |kept| ensures p(kept[i]) { assert kept[i] in kept; }
    ResortIsStable(p, kept, added, le);
    SortKeepsMembers(kept + added, le);
    var out := OutputRows(root, rows, sbom, digest);
    forall i | 0 <= i < |out| ensures out[i] != [] { assert out[i] in out; }
  }

  lemma NamesResort(root: string, names: seq<string>)
    ensures OutputNames(root, OutputNames(root, names)) == OutputNames(root, names)
  {
    var kept, added, le := KeptNames(root, names), [SbomName(root), RecordName(root)], (a, b) => NameLe(root, a, b);
    var p := (n: string) => !Ours(root, n);
    NameOrder(root);
    forall i | 0 <= i < |kept| ensures p(kept[i]) { assert kept[i] in kept; }
    ResortIsStable(p, kept, added, le);
  }

  lemma SameRoots(root: string, names: seq<string>)
    requires NoDuplicates(names)
    ensures Roots(OutputNames(root, names)) == Roots(names)
  {
    hide OutputNames;
    OutputNamesMembers(root, names);
    AddedNames(root);
    forall r ensures r in Roots(OutputNames(root, names)) <==> r in Roots(names) {
      if n :| n in names && EndsWith(n, METADATA_SUFFIX) && Root(n) == r { assert n in OutputNames(root, names); }
    }
  }

  lemma OutputDistInfo(x: Setup, w: Wheel)
    requires Inject(x, w).Some?
    ensures DistInfo(Inject(x, w).value) == DistInfo(w)
  {
    hide OutputNames, OutputRows, Roots, Inject;
    Injected(x, w);
    var root := DistInfo(w).value;
    OutputNamesMembers(root, Names(w));
    SameRoots(root, Names(w));
    assert OnlyOne({root}) == root;
  }

  lemma OutputRecord(x: Setup, w: Wheel)
    requires CsvRoundTrips(x.csv) && Inject(x, w).Some?
    ensures var root := DistInfo(w).value;
      var rows := x.csv.parse(Find(w, RecordName(root)).value.payload).value;
      var record := Find(Inject(x, w).value, RecordName(root));
      record.Some? && x.csv.parse(record.value.payload) == Some(OutputRows(root, rows, x.sbom, x.digest))
  {
    hide OutputNames, OutputRows, Roots, Inject, DistInfo;
    Injected(x, w);
    var root := DistInfo(w).value;
    OutputFound(x, w, RecordName(root));
    AddedNames(root);
    RowsResort(root, x.csv.parse(Find(w, RecordName(root)).value.payload).value, x.sbom, x.digest);
  }

  /** A member written twice is written once: its metadata is already normal. */
  lemma MemberSettles(x: Setup, w: Wheel, out: Wheel, root: string, record: Member, again: Member, text: Bytes, n: string)
    requires Find(out, n) == Some(OutputMember(x, w, root, record, text, n))
    ensures OutputMember(x, out, root, again, text, n) == OutputMember(x, w, root, record, text, n)
  {
  }

  /** Injecting the SBOM again changes nothing: rows, members, order, times and modes are as they were. */
  lemma InjectionIsIdempotent(x: Setup, w: Wheel)
    requires CsvRoundTrips(x.csv) && Inject(x, w).Some?
    ensures Inject(x, Inject(x, w).value) == Inject(x, w)
  {
    hide OutputNames, OutputRows, Roots, DistInfo, OutputMember;
    var out := Inject(x, w).value;
    Injected(x, w);
    OutputDistInfo(x, w);
    OutputRecord(x, w);
    var root := DistInfo(w).value;
    var record, again := Find(w, RecordName(root)).value, Find(out, RecordName(root)).value;
    var rows := x.csv.parse(record.payload).value;
    var text := x.csv.write(OutputRows(root, rows, x.sbom, x.digest));
    RowsResort(root, rows, x.sbom, x.digest);
    NamesResort(root, Names(w));
    assert Names(out) == OutputNames(root, Names(w));
    var names := OutputNames(root, Names(w));
    var twice := MapEach((n: string) => OutputMember(x, out, root, again, text, n), names);
    forall i | 0 <= i < |names| ensures twice[i] == out[i] {
      OutputFound(x, w, names[i]);
      OutputNamesMembers(root, Names(w));
      assert names[i] in names;
      MemberSettles(x, w, out, root, record, again, text, names[i]);
    }
    assert twice == out;
  }

  // ---- The auditor reads the output ----

  lemma {:induction false} FilterTwice<T(!new)>(p: T -> bool, q: T -> bool, s: seq<T>)
    requires forall x :: p(x) ==> q(x)
    ensures Filter(p, Filter(q, s)) == Filter(p, s)
  {
    if s != [] {
      FilterTwice(p, q, s[1..]);
      if q(s[0]) { FilterHead(p, s[0], Filter(q, s[1..])); }
      assert Filter(q, s) == (if q(s[0]) then [s[0]] else []) + Filter(q, s[1..]);
      assert [] + Filter(q, s[1..]) == Filter(q, s[1..]) && [] + Filter(p, s[1..]) == Filter(p, s[1..]);
    }
  }

  /** The names that injection keeps are still apart. */
  lemma KeptApart(root: string, rows: seq<CsvRow>, fold: string -> string)
    requires NoFoldedDuplicates(RecordedNames(rows), fold)
    ensures NoFoldedDuplicates(MapEach(RowName, KeptRows(root, rows)), fold)
  {
    var named, p, key := Filter(HasName, rows), (r: CsvRow) => RowKept(root, r), (r: CsvRow) => fold(RowName(r));
    forall i, j | 0 <= i < j < |named| ensures key(named[i]) != key(named[j]) {
      assert RecordedNames(rows)[i] == RowName(named[i]) && RecordedNames(rows)[j] == RowName(named[j]);
    }
    FilterKeepsDistinct(p, named, key);
    FilterTwice(p, HasName, rows);
    var kept := KeptRows(root, rows);
    forall i, j | 0 <= i < j < |kept| ensures fold(RowName(kept[i])) != fold(RowName(kept[j])) {
      assert key(kept[i]) != key(kept[j]);
    }
  }

  lemma ApartRearranged(a: seq<string>, b: seq<string>, fold: string -> string)
    requires multiset(a) == multiset(b)
    ensures NoFoldedDuplicates(a, fold) <==> NoFoldedDuplicates(b, fold)
  {
    if NoFoldedDuplicates(a, fold) { DistinctRearranged(a, b, fold); }
    if NoFoldedDuplicates(b, fold) { DistinctRearranged(b, a, fold); }
  }

  lemma ApartWith(a: seq<string>, x: string, y: string, fold: string -> string)
    requires NoFoldedDuplicates(a, fold)
    ensures NoFoldedDuplicates(a + [x, y], fold) <==>
              fold(x) != fold(y) && forall i :: 0 <= i < |a| ==> fold(a[i]) !in {fold(x), fold(y)}
  {
    var all := a + [x, y];
    assert all[|a|] == x && all[|a| + 1] == y && forall i :: 0 <= i < |a| ==> all[i] == a[i];
    if NoFoldedDuplicates(all, fold) {
      forall i | 0 <= i < |a| ensures fold(a[i]) !in {fold(x), fold(y)} {
        assert fold(all[i]) != fold(all[|a|]) && fold(all[i]) != fold(all[|a| + 1]);
      }
      assert fold(all[|a|]) != fold(all[|a| + 1]);
    }
  }

  lemma OutputRecordedNames(root: string, rows: seq<CsvRow>, sbom: Bytes, digest: Bytes -> string)
    ensures multiset(RecordedNames(OutputRows(root, rows, sbom, digest)))
         == multiset(MapEach(RowName, KeptRows(root, rows)) + [SbomName(root), RecordName(root)])
  {
    hide RowLe, KeptRows, NewRows, MapEach;
    var kept, added, le := KeptRows(root, rows), NewRows(root, sbom, digest), (a, b) => RowLe(root, a, b);
    AllNamed(root, rows, sbom, digest);
    SortPermutes(kept + added, le);
    MapEachPermutes(RowName, Sort(kept + added, le), kept + added);
    MapEachConcat(RowName, kept, added);
    AddedRowNames(root, sbom, digest);
  }

  lemma AllNamed(root: string, rows: seq<CsvRow>, sbom: Bytes, digest: Bytes -> string)
    ensures RecordedNames(OutputRows(root, rows, sbom, digest)) == MapEach(RowName, OutputRows(root, rows, sbom, digest))
  {
    hide OutputRows;
    RowsResort(root, rows, sbom, digest);
    FilterAll(HasName, OutputRows(root, rows, sbom, digest));
  }

  lemma AddedRowNames(root: string, sbom: Bytes, digest: Bytes -> string)
    ensures MapEach(RowName, NewRows(root, sbom, digest)) == [SbomName(root), RecordName(root)]
  {
  }

  /** The output's RECORD has no duplicate exactly when the kept and added names do not clash. */
  lemma DuplicatesExactly(root: string, rows: seq<CsvRow>, sbom: Bytes, digest: Bytes -> string, fold: string -> string)
    requires NoFoldedDuplicates(RecordedNames(rows), fold)
    ensures NoFoldedDuplicates(RecordedNames(OutputRows(root, rows, sbom, digest)), fold) <==> NoClash(root, rows, fold)
  {
    hide OutputRows, RecordedNames, NoFoldedDuplicates, KeptRows;
    var names := MapEach(RowName, KeptRows(root, rows));
    KeptApart(root, rows, fold);
    OutputRecordedNames(root, rows, sbom, digest);
    ApartRearranged(RecordedNames(OutputRows(root, rows, sbom, digest)), names + [SbomName(root), RecordName(root)], fold);
    ApartWith(names, SbomName(root), RecordName(root), fold);
  }

  lemma OutputRowOrigin(root: string, rows: seq<CsvRow>, sbom: Bytes, digest: Bytes -> string, row: CsvRow)
    ensures row in OutputRows(root, rows, sbom, digest) <==> row in NewRows(root, sbom, digest) || (row in rows && RowKept(root, row))
  {
    SortKeepsMembers(KeptRows(root, rows) + NewRows(root, sbom, digest), (a, b) => RowLe(root, a, b));
  }

  lemma RecordedNameRow(rows: seq<CsvRow>, i: nat)
    requires i < |RecordedNames(rows)|
    ensures exists row :: row in rows && row != [] && row[0] == RecordedNames(rows)[i]
  {
    var named := Filter(HasName, rows);
    assert named[i] in named;
  }

  lemma RowRecorded(rows: seq<CsvRow>, row: CsvRow)
    requires row in rows && row != []
    ensures row[0] in RecordedNames(rows)
  {
    var named := Filter(HasName, rows);
    assert row in named;
    var i :| 0 <= i < |named| && named[i] == row;
    assert RecordedNames(rows)[i] == row[0];
  }

  /** The output's RECORD names only members of the output. */
  lemma OutputNamesPresent(x: Setup, w: Wheel, root: string, rows: seq<CsvRow>)
    requires Inject(x, w).Some? && DistInfo(w) == Some(root)
    requires forall i :: 0 <= i < |RecordedNames(rows)| ==> RecordedNames(rows)[i] in Names(w)
    ensures var out := OutputRows(root, rows, x.sbom, x.digest);
      forall i :: 0 <= i < |RecordedNames(out)| ==> RecordedNames(out)[i] in Names(Inject(x, w).value)
  {
    hide OutputRows, OutputNames, RecordedNames, Inject, DistInfo, Roots;
    Injected(x, w);
    OutputNamesMembers(root, Names(w));
    var out := OutputRows(root, rows, x.sbom, x.digest);
    forall i | 0 <= i < |RecordedNames(out)| ensures RecordedNames(out)[i] in Names(Inject(x, w).value) {
      RecordedNameRow(out, i);
      var row :| row in out && row != [] && row[0] == RecordedNames(out)[i];
      OutputRowOrigin(root, rows, x.sbom, x.digest, row);
      if row in rows && RowKept(root, row) { RowRecorded(rows, row); }
    }
  }

  lemma OneRowAName(rows: seq<CsvRow>, a: CsvRow, b: CsvRow, fold: string -> string)
    requires NoFoldedDuplicates(RecordedNames(rows), fold)
    requires a in rows && b in rows && a != [] && b != [] && a[0] == b[0]
    ensures a == b
  {
    var named := Filter(HasName, rows);
    assert a in named && b in named;
    var i :| 0 <= i < |named| && named[i] == a;
    var j :| 0 <= j < |named| && named[j] == b;
    assert RecordedNames(rows)[i] == RecordedNames(rows)[j];
  }

  /** The row of a kept file is the row it had; the row of the SBOM is the new one. */
  lemma OutputEntry(x: Setup, w: Wheel, root: string, rows: seq<CsvRow>, m: Member, fold: string -> string)
    requires NoFoldedDuplicates(RecordedNames(rows), fold) && m.name != RecordName(root)
    requires m.name == SbomName(root) ==> m.payload == x.sbom
    requires m.name != SbomName(root) ==> EntryOk(rows, m, x.digest)
    ensures EntryOk(OutputRows(root, rows, x.sbom, x.digest), m, x.digest)
  {
    hide OutputRows, RecordedNames, NoFoldedDuplicates;
    var out := OutputRows(root, rows, x.sbom, x.digest);
    var found := RecordedRow(out, m.name);
    var added := RecordRow(SbomName(root), x.sbom, x.digest);
    if m.name == SbomName(root) {
      OutputRowOrigin(root, rows, x.sbom, x.digest, added);
      OutputRowOrigin(root, rows, x.sbom, x.digest, found.value);
      AddedNames(root);
    } else {
      var before := RecordedRow(rows, m.name).value;
      OutputRowOrigin(root, rows, x.sbom, x.digest, before);
      OutputRowOrigin(root, rows, x.sbom, x.digest, found.value);
      OneRowAName(rows, before, found.value, fold);
    }
  }

  lemma OutputEntries(x: Setup, w: Wheel, root: string, rows: seq<CsvRow>, fold: string -> string)
    requires Inject(x, w).Some? && DistInfo(w) == Some(root)
    requires NoFoldedDuplicates(RecordedNames(rows), fold)
    requires forall i :: 0 <= i < |w| && w[i].name != RecordName(root) ==> EntryOk(rows, w[i], x.digest)
    ensures var out := Inject(x, w).value;
      forall i :: 0 <= i < |out| && out[i].name != RecordName(root) ==> EntryOk(OutputRows(root, rows, x.sbom, x.digest), out[i], x.digest)
  {
    hide OutputRows, OutputNames, RecordedNames, NoFoldedDuplicates, Inject, DistInfo, Roots, EntryOk;
    Injected(x, w);
    OutputNamesMembers(root, Names(w));
    var out := Inject(x, w).value;
    forall i | 0 <= i < |out| && out[i].name != RecordName(root) ensures EntryOk(OutputRows(root, rows, x.sbom, x.digest), out[i], x.digest) {
      assert Names(out)[i] in Names(out);
      if out[i].name != SbomName(root) {
        NamesListed(w, out[i].name);
        var before := Find(w, out[i].name).value;
        var k :| 0 <= k < |w| && w[k] == before;
        EntrySame(rows, before, out[i], x.digest);
      }
      OutputEntry(x, w, root, rows, out[i], fold);
    }
  }

  lemma EntrySame(rows: seq<CsvRow>, a: Member, b: Member, digest: Bytes -> string)
    requires a.name == b.name && a.payload == b.payload
    ensures EntryOk(rows, a, digest) <==> EntryOk(rows, b, digest)
  {
  }

  /** If the auditor accepts the RECORD of a wheel, it accepts the RECORD after injection, which covers the
      SBOM too, exactly when no kept name clashes with an added one once case is folded. */
  lemma InjectionPassesExactly(x: Setup, w: Wheel, fold: string -> string)
    requires CsvRoundTrips(x.csv) && Inject(x, w).Some? && RecordPasses(x, w, DistInfo(w).value, fold)
    ensures var root := DistInfo(w).value;
      var rows := x.csv.parse(Find(w, RecordName(root)).value.payload).value;
      RecordPasses(x, Inject(x, w).value, root, fold) <==> NoClash(root, rows, fold)
    ensures SbomName(DistInfo(w).value) in Names(Inject(x, w).value)
  {
    hide OutputRows, OutputNames, RecordedNames, NoFoldedDuplicates, NoClash, Inject, DistInfo, EntryOk;
    Injected(x, w);
    var root := DistInfo(w).value;
    var rows := x.csv.parse(Find(w, RecordName(root)).value.payload).value;
    OutputRecord(x, w);
    DuplicatesExactly(root, rows, x.sbom, x.digest, fold);
    OutputNamesPresent(x, w, root, rows);
    OutputEntries(x, w, root, rows, fold);
    OutputFound(x, w, SbomName(root));
    NamesListed(Inject(x, w).value, SbomName(root));
  }

  // ---- A wheel whose RECORD stops passing ----

  const P := "p.dist-info"

  const TWIN := "p.dist-info/SBOMS/sbom.spdx.json"

  function TwinRows(digest: Bytes -> string): seq<CsvRow> {
    [RecordRow(P + "/METADATA", [], digest), RecordRow(TWIN, [], digest)]
  }

  /** A metadata file, a file whose name differs from the SBOM's only in case, and a RECORD of both. */
  function TwinWheel(x: Setup): Wheel {
    var info := Info(0, true, false);
    [Member(P + "/METADATA", [], info), Member(TWIN, [], info), Member(RecordName(P), x.csv.write(TwinRows(x.digest)), info)]
  }

  lemma {:induction false} RootIs(a: string, rest: string)
    requires '/' !in a
    ensures Root(a + ("/" + rest)) == a
  {
    if a != "" {
      RootIs(a[1..], rest);
      assert (a + ("/" + rest))[1..] == a[1..] + ("/" + rest);
    }
  }

  function TwinList(): seq<string> { [P + "/METADATA", TWIN, RecordName(P)] }

  lemma TwinsDiffer()
    ensures NoDuplicates(TwinList())
  {
    var a, c := P + "/METADATA", RecordName(P);
    assert |a| == 20 && |TWIN| == 32 && |c| == 18;
  }

  lemma TwinMetadata()
    ensures EndsWith(P + "/METADATA", METADATA_SUFFIX) && Root(P + "/METADATA") == P
  {
    RootIs(P, "METADATA");
    assert P + "/METADATA" == P + ("/" + "METADATA");
    assert (P + "/METADATA")[1..] == METADATA_SUFFIX;
  }

  lemma TwinRoots()
    ensures Roots(TwinList()) == {P}
  {
    hide Root, EndsWith;
    TwinMetadata();
    TwinEnds();
    AddedNames(P);
  }

  lemma TwinNames(x: Setup)
    ensures Names(TwinWheel(x)) == TwinList()
    ensures NoDuplicates(Names(TwinWheel(x))) && DistInfo(TwinWheel(x)) == Some(P)
  {
    hide Roots, NoDuplicates;
    assert Names(TwinWheel(x)) == TwinList();
    TwinsDiffer();
    TwinRoots();
    assert OnlyOne({P}) == P;
  }

  lemma TwinEnds()
    ensures !EndsWith(TWIN, METADATA_SUFFIX)
  {
    assert TWIN[|TWIN| - 1] == 'n' && METADATA_SUFFIX[|METADATA_SUFFIX| - 1] == 'A';
    assert TWIN[|TWIN| - |METADATA_SUFFIX|..][|METADATA_SUFFIX| - 1] == 'n';
  }

  lemma TwinPasses(x: Setup, fold: string -> string)
    requires CsvRoundTrips(x.csv) && fold(P + "/METADATA") != fold(TWIN)
    ensures RecordPasses(x, TwinWheel(x), P, fold) && Find(TwinWheel(x), RecordName(P)).Some?
    ensures x.csv.parse(Find(TwinWheel(x), RecordName(P)).value.payload) == Some(TwinRows(x.digest))
  {
    hide CsvRoundTrips, DistInfo;
    var w, rows := TwinWheel(x), TwinRows(x.digest);
    TwinNames(x);
    TwinRead(x);
    FindMember(w, w[2]);
    FilterAll(HasName, rows);
    assert RecordedNames(rows) == [P + "/METADATA", TWIN];
    assert RecordedRow(rows, TWIN) == Some(rows[1]);
    assert rows[..1] == [rows[0]] && rows[0][0] == P + "/METADATA";
    assert TWIN != P + "/METADATA";
    assert RecordedRow(rows, P + "/METADATA") == Some(rows[0]);
  }

  lemma TwinRead(x: Setup)
    requires CsvRoundTrips(x.csv)
    ensures x.csv.parse(x.csv.write(TwinRows(x.digest))) == Some(TwinRows(x.digest))
  {
    assert NonEmptyRows(TwinRows(x.digest));
  }

  /** A recorded file whose name equals the SBOM's once case is folded: the input's RECORD passes, the output's does not. */
  lemma FoldedTwinBreaksRecord(x: Setup, fold: string -> string)
    requires CsvRoundTrips(x.csv) && fold(TWIN) == fold(SbomName(P)) != fold(P + "/METADATA")
    ensures RecordPasses(x, TwinWheel(x), P, fold)
    ensures Inject(x, TwinWheel(x)).Some? && !RecordPasses(x, Inject(x, TwinWheel(x)).value, P, fold)
  {
    hide RecordPasses, DistInfo, OutputNames, OutputRows, CsvRoundTrips;
    TwinNames(x);
    TwinPasses(x, fold);
    var rows := TwinRows(x.digest);
    assert Inject(x, TwinWheel(x)).Some?;
    InjectionPassesExactly(x, TwinWheel(x), fold);
    TwinKept(x.digest);
    var kept := KeptRows(P, rows);
    var i :| 0 <= i < |kept| && kept[i] == rows[1];
    assert RowName(kept[i]) == TWIN;
  }

  lemma TwinKept(digest: Bytes -> string)
    ensures TwinRows(digest)[1] in KeptRows(P, TwinRows(digest))
  {
    var row := TwinRows(digest)[1];
    assert row[0] == TWIN && TWIN[12] == 'S' && SbomName(P)[12] == 's' && |RecordName(P)| != |TWIN|;
  }

  // ---- The steps in order ----

  method InjectSbom(x: Setup, w: Wheel) returns (r: Option<Wheel>)
    ensures r == Inject(x, w)
  {
    hide OutputMember, DistInfo;
    var dist := DistInfo(w);
    if dist == None { return None; }
    var root := dist.value;
    var record := Find(w, RecordName(root));
    if record == None { return None; }
    var parsed := x.csv.parse(record.value.payload);
    if parsed == None { return None; }
    var rows := KeepRows(root, parsed.value);
    rows := rows + [RecordRow(SbomName(root), x.sbom, x.digest)];
    rows := rows + [[RecordName(root), "", ""]];
    TwoAppends(KeptRows(root, parsed.value), RecordRow(SbomName(root), x.sbom, x.digest), [RecordName(root), "", ""]);
    rows := Sort(rows, (a, b) => RowLe(root, a, b));
    var text := x.csv.write(rows);
    var names := OutputNames(root, Names(w));
    var members: Wheel, i := [], 0;
    while i < |names|
      invariant 0 <= i <= |names| && |members| == i
      invariant forall k :: 0 <= k < i ==> members[k] == OutputMember(x, w, root, record.value, text, names[k])
    {
      members := members + [OutputMember(x, w, root, record.value, text, names[i])];
      i := i + 1;
    }
    assert members == MapEach((n: string) => OutputMember(x, w, root, record.value, text, n), names);
    return Some(members);
  }

  lemma TwoAppends<T>(s: seq<T>, a: T, b: T)
    ensures s + [a] + [b] == s + [a, b]
  {
  }

  method KeepRows(root: string, rows: seq<CsvRow>) returns (kept: seq<CsvRow>)
    ensures kept == KeptRows(root, rows)
  {
    hide Filter;
    var p := (r: CsvRow) => RowKept(root, r);
    kept := [];
    FilterNone(p, []);
    var i := 0;
    assert rows[..0] == [];
    while i < |rows|
      invariant 0 <= i <= |rows|
      invariant kept == Filter(p, rows[..i])
    {
      assert rows[..i + 1] == rows[..i] + [rows[i]];
      FilterSnoc(p, rows[..i], rows[i]);
      if RowKept(root, rows[i]) { kept := kept + [rows[i]]; }
      i := i + 1;
    }
    assert rows[..i] == rows;
    KeptBy(root, rows, p);
  }

  lemma KeptBy(root: string, rows: seq<CsvRow>, p: CsvRow -> bool)
    requires forall r :: p(r) == RowKept(root, r)
    ensures KeptRows(root, rows) == Filter(p, rows)
  {
    FilterSame((r: CsvRow) => RowKept(root, r), p, rows);
  }

  lemma {:induction false} FilterSame<T(!new)>(p: T -> bool, q: T -> bool, s: seq<T>)
    requires forall x :: p(x) == q(x)
    ensures Filter(p, s) == Filter(q, s)
  {
    if s != [] { FilterSame(p, q, s[1..]); }
  }
}
