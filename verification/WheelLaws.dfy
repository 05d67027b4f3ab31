/** What `_inject_sbom` writes, said of the names, rows and metadata of the wheel: when it succeeds, in which order, and with
    which modes. */
module WheelLaws {
  import opened Sequences
  import opened Sorting
  import opened Utf8
  import opened Surface
  import opened Projection
  import opened ChunkInventory
  import opened WheelRecord

  // ---- RECORD ----

  /** A row of neither the SBOM nor RECORD itself. */
  predicate OtherRow(root: string, row: CsvRow) {
    row != [] && row[0] != root + "/RECORD" && row[0] != root + "/sboms/sbom.spdx.json"
  }

  /** The rows written: the other rows as they were, the SBOM's with its digest and size, and RECORD's own, last; all others by name. */
  predicate RecordWritten(root: string, rows: seq<CsvRow>, out: seq<CsvRow>, sbom: Bytes, digest: Bytes -> string) {
    var last: CsvRow := [root + "/RECORD", "", ""];
    && out != [] && out[|out| - 1] == last
    && multiset(out) == multiset(Filter((row: CsvRow) => OtherRow(root, row), rows))
                        + multiset{[root + "/sboms/sbom.spdx.json", digest(sbom), Decimal(|sbom|)], last}
    && (forall i :: 0 <= i < |out| - 1 ==> out[i] != [] && out[i][0] != root + "/RECORD")
    && forall i, j :: 0 <= i < j < |out| - 1 ==> out[i] != [] && out[j] != [] && StringLe(out[i][0], out[j][0])
  }

  lemma {:induction false} FilterSame<T(!new)>(p: T -> bool, q: T -> bool, s: seq<T>)
    requires forall x :: p(x) <==> q(x)
    ensures Filter(p, s) == Filter(q, s)
  {
    if s != [] { FilterSame(p, q, s[1..]); }
  }

  lemma NewRowsAre(root: string, sbom: Bytes, digest: Bytes -> string)
    ensures NewRows(root, sbom, digest) == [[root + "/sboms/sbom.spdx.json", digest(sbom), Decimal(|sbom|)], [root + "/RECORD", "", ""]]
  {
    hide Decimal;
    assert RecordRow(SbomName(root), sbom, digest) == [root + "/sboms/sbom.spdx.json", digest(sbom), Decimal(|sbom|)];
  }

  lemma LastRow(root: string, rows: seq<CsvRow>, sbom: Bytes, digest: Bytes -> string, i: nat)
    requires i < |OutputRows(root, rows, sbom, digest)|
    ensures var row := OutputRows(root, rows, sbom, digest)[i];
      row != [] && (row[0] == root + "/RECORD" ==> row == [root + "/RECORD", "", ""])
  {
    hide OutputRows, NewRows;
    var out := OutputRows(root, rows, sbom, digest);
    assert out[i] in out;
    OutputRowOrigin(root, rows, sbom, digest, out[i]);
    NewRowsAre(root, sbom, digest);
    AddedNames(root);
  }

  /** RECORD's own row is the last of the rows and the only one of its name. */
  lemma RecordLast(root: string, rows: seq<CsvRow>, sbom: Bytes, digest: Bytes -> string)
    ensures RecordWritten(root, rows, OutputRows(root, rows, sbom, digest), sbom, digest)
  {
    hide NewRows, Decimal;
    var kept, added, le := KeptRows(root, rows), NewRows(root, sbom, digest), (a: CsvRow, b: CsvRow) => RowLe(root, a, b);
    var out := OutputRows(root, rows, sbom, digest);
    var last: CsvRow := [root + "/RECORD", "", ""];
    NewRowsAre(root, sbom, digest);
    FilterSame((row: CsvRow) => RowKept(root, row), (row: CsvRow) => OtherRow(root, row), rows);
    RowOrder(root);
    SortSorts(kept + added, le);
    SortPermutes(kept + added, le);
    assert multiset(kept + added) == multiset(kept) + multiset(added);
    forall i | 0 <= i < |out| ensures out[i] != [] && (out[i][0] == root + "/RECORD" ==> out[i] == last) {
      LastRow(root, rows, sbom, digest, i);
    }
    OneRecord(root, rows, sbom, digest);
    RecordPlaced(root, out);
  }

  lemma OneRecord(root: string, rows: seq<CsvRow>, sbom: Bytes, digest: Bytes -> string)
    ensures multiset(OutputRows(root, rows, sbom, digest))[[root + "/RECORD", "", ""]] == 1
  {
    hide Decimal;
    var kept, added := KeptRows(root, rows), NewRows(root, sbom, digest);
    SortPermutes(kept + added, (a, b) => RowLe(root, a, b));
    assert multiset(kept + added) == multiset(kept) + multiset(added);
    AddedNames(root);
    assert [root + "/RECORD", "", ""] !in kept;
    assert added[0][0] != added[1][0];
  }

  /** In rows ordered with RECORD late, the one row of that name is the last. */
  lemma RecordPlaced(root: string, out: seq<CsvRow>)
    requires Sorted(out, (a, b) => RowLe(root, a, b)) && multiset(out)[[root + "/RECORD", "", ""]] == 1
    requires forall i :: 0 <= i < |out| ==> out[i] != [] && (out[i][0] == root + "/RECORD" ==> out[i] == [root + "/RECORD", "", ""])
    ensures out != [] && out[|out| - 1] == [root + "/RECORD", "", ""]
    ensures forall i :: 0 <= i < |out| - 1 ==> out[i][0] != root + "/RECORD"
    ensures forall i, j :: 0 <= i < j < |out| - 1 ==> StringLe(out[i][0], out[j][0])
  {
    var last: CsvRow := [root + "/RECORD", "", ""];
    var k := Occurs(out, last);
    if k < |out| - 1 {
      assert RowLe(root, out[k], out[|out| - 1]);
      TwiceInMultiset(out, k, |out| - 1);
    }
    forall i | 0 <= i < |out| - 1 ensures out[i][0] != root + "/RECORD" {
      if out[i][0] == root + "/RECORD" { TwiceInMultiset(out, i, |out| - 1); }
    }
    forall i, j | 0 <= i < j < |out| - 1 ensures StringLe(out[i][0], out[j][0]) { assert RowLe(root, out[i], out[j]); }
  }

  // ---- Members ----

  predicate InDistInfo(root: string, name: string) { StartsWith(name, root + "/") }

  /** Package files before dist-info files, each group by name. */
  predicate NameBefore(root: string, a: string, b: string) {
    if InDistInfo(root, a) == InDistInfo(root, b) then a != b && StringLe(a, b) else InDistInfo(root, b)
  }

  lemma NamesAscend(root: string, names: seq<string>)
    requires NoDuplicates(names)
    ensures var out := OutputNames(root, names);
      && (forall i, j :: 0 <= i < j < |out| ==> NameBefore(root, out[i], out[j]))
      && forall n :: n in out <==> n in names || n == root + "/RECORD" || n == root + "/sboms/sbom.spdx.json"
  {
    OutputNamesMembers(root, names);
    NameOrder(root);
    SortSorts(KeptNames(root, names) + [SbomName(root), RecordName(root)], (a, b) => NameLe(root, a, b));
    var out := OutputNames(root, names);
    forall i, j | 0 <= i < j < |out| ensures NameBefore(root, out[i], out[j]) { assert NameLe(root, out[i], out[j]) && out[i] != out[j]; }
  }

  /** A member written: which bytes, and what of the old metadata survives. */
  predicate MemberWritten(x: Setup, w: Wheel, root: string, m: Member) {
    && (m.name == root + "/sboms/sbom.spdx.json" ==> m.payload == x.sbom)
    && (m.name !in [root + "/sboms/sbom.spdx.json", root + "/RECORD"] ==> exists o :: o in w && o.name == m.name && o.payload == m.payload)
    && m.info.unix
    && (m.info.executable <==> !EndsWith(m.name, "/") && exists o :: o in w && o.name == m.name && o.info.unix && o.info.executable)
    && (x.configured.Some? ==> m.info.time == x.configured.value)
    && (x.configured == None ==> exists o :: o in w && m.info.time == o.info.time && o.name == TimedBy(w, root, m.name))
  }

  /** A member the wheel did not have takes the time of RECORD. */
  function TimedBy(w: Wheel, root: string, name: string): string {
    if exists o :: o in w && o.name == name then name else root + "/RECORD"
  }

  lemma MemberIs(x: Setup, w: Wheel, root: string, record: Member, text: Bytes, n: string)
    requires NoDuplicates(Names(w)) && Find(w, RecordName(root)) == Some(record)
    requires n in Names(w) || Ours(root, n)
    ensures MemberWritten(x, w, root, OutputMember(x, w, root, record, text, n))
  {
    hide Names, SbomName, RecordName;
    NamesListed(w, n);
    AddedNames(root);
    RecordPaths(root);
    var m := OutputMember(x, w, root, record, text, n);
    forall o | o in w && o.name == n ensures Find(w, n) == Some(o) { FindMember(w, o); }
    assert record in w && record.name == RecordName(root);
  }

  lemma RecordPaths(root: string)
    ensures SbomName(root) == root + "/sboms/sbom.spdx.json" && RecordName(root) == root + "/RECORD"
  {
  }

  // ---- The wheel ----

  /** `root` is the part of the name before its first slash. */
  predicate RootedAt(root: string, name: string) {
    '/' !in root && (name == root || StartsWith(name, root + "/"))
  }

  lemma {:induction false} RootExactly(name: string, root: string)
    ensures Root(name) == root <==> RootedAt(root, name)
  {
    if name != "" && name[0] != '/' {
      if root != "" && root[0] == name[0] {
        RootExactly(name[1..], root[1..]);
        assert root == [root[0]] + root[1..] && name == [name[0]] + name[1..];
        StartsTail(name, root + "/");
        assert (root + "/")[1..] == root[1..] + "/";
        assert '/' in root <==> '/' in root[1..];
      } else {
        assert !StartsWith(name, root + "/") by { assert name[0] != (root + "/")[0]; }
      }
    } else if StartsWith(name, root + "/") {
      assert name[0] == (root + "/")[0];
    }
  }

  lemma StartsTail(name: string, prefix: string)
    requires name != "" && prefix != "" && name[0] == prefix[0]
    ensures StartsWith(name, prefix) <==> StartsWith(name[1..], prefix[1..])
  {
    if |prefix| <= |name| {
      assert name[..|prefix|] == [name[0]] + name[1..][..|prefix| - 1];
      assert prefix == [prefix[0]] + prefix[1..];
    }
  }

  /** All metadata files stand under one directory, and there is one. */
  predicate OneMetadata(w: Wheel, root: string) {
    && (exists m :: m in w && EndsWith(m.name, ".dist-info/METADATA") && RootedAt(root, m.name))
    && forall m :: m in w && EndsWith(m.name, ".dist-info/METADATA") ==> RootedAt(root, m.name)
  }

  lemma RootsExactly(w: Wheel, root: string)
    ensures Roots(Names(w)) == {root} <==> OneMetadata(w, root)
  {
    hide Root, RootedAt;
    var names := Names(w);
    forall m | m in w ensures m.name in names {
      var i :| 0 <= i < |w| && w[i] == m;
      assert names[i] == m.name;
    }
    forall n | n in names ensures exists m :: m in w && m.name == n {
      var i :| 0 <= i < |w| && names[i] == n;
      assert w[i] in w;
    }
    forall m | m in w ensures Root(m.name) == root <==> RootedAt(root, m.name) { RootExactly(m.name, root); }
    if Roots(names) == {root} {
      assert root in Roots(names);
      var n :| n in names && EndsWith(n, METADATA_SUFFIX) && Root(n) == root;
      var m :| m in w && m.name == n;
      forall q | q in w && EndsWith(q.name, METADATA_SUFFIX) ensures RootedAt(root, q.name) { assert Root(q.name) in Roots(names); }
    }
    if OneMetadata(w, root) {
      var m :| m in w && EndsWith(m.name, METADATA_SUFFIX) && RootedAt(root, m.name);
      assert Root(m.name) in Roots(names);
      forall r | r in Roots(names) ensures r == root {
        var n :| n in names && EndsWith(n, METADATA_SUFFIX) && Root(n) == r;
        var q :| q in w && q.name == n;
      }
    }
  }

  predicate HasMember(w: Wheel, name: string) { exists m :: m in w && m.name == name }

  predicate DistinctNames(w: Wheel) { forall i, j :: 0 <= i < j < |w| ==> w[i].name != w[j].name }

  lemma DistinctNamesAre(w: Wheel)
    ensures NoDuplicates(Names(w)) <==> DistinctNames(w)
  {
    assert forall i :: 0 <= i < |w| ==> Names(w)[i] == w[i].name;
    if NoDuplicates(Names(w)) {
      forall i, j | 0 <= i < j < |w| ensures w[i].name != w[j].name { assert Names(w)[i] != Names(w)[j]; }
    }
  }

  lemma DistInfoIs(w: Wheel, root: string)
    ensures DistInfo(w) == Some(root) <==> DistinctNames(w) && OneMetadata(w, root)
  {
    hide Roots, OneMetadata, Names;
    RootsExactly(w, root);
    DistinctNamesAre(w);
    if Roots(Names(w)) == {root} { assert |{root}| == 1 && root in {OnlyOne(Roots(Names(w)))}; }
  }

  /** Injection succeeds exactly on a wheel with distinct member names, one metadata directory, and a readable RECORD in it. */
  lemma InjectsExactly(x: Setup, w: Wheel, root: string)
    ensures Inject(x, w).Some? && DistInfo(w) == Some(root) <==>
      && DistinctNames(w) && OneMetadata(w, root)
      && exists record :: record in w && record.name == root + "/RECORD" && x.csv.parse(record.payload).Some?
  {
    hide OutputNames, OutputRows, OutputMember, DistInfo, OneMetadata;
    DistInfoIs(w, root);
    DistinctNamesAre(w);
    if DistinctNames(w) && exists record :: record in w && record.name == root + "/RECORD" && x.csv.parse(record.payload).Some? {
      var record :| record in w && record.name == root + "/RECORD" && x.csv.parse(record.payload).Some?;
      FindMember(w, record);
    }
  }

  /** The wheel written: the old members and the SBOM, package files first and each group by name, RECORD rewritten. */
  lemma WheelWritten(x: Setup, w: Wheel, root: string)
    requires CsvRoundTrips(x.csv) && Inject(x, w).Some? && DistInfo(w) == Some(root)
    ensures var out := Inject(x, w).value;
      && (forall i, j :: 0 <= i < j < |out| ==> NameBefore(root, out[i].name, out[j].name))
      && (forall n :: HasMember(out, n) <==> n == root + "/RECORD" || n == root + "/sboms/sbom.spdx.json" || HasMember(w, n))
      && (forall i :: 0 <= i < |out| ==> MemberWritten(x, w, root, out[i]))
      && exists before, after, rows, written ::
           && before in w && before.name == root + "/RECORD" && x.csv.parse(before.payload) == Some(rows)
           && after in out && after.name == root + "/RECORD" && x.csv.parse(after.payload) == Some(written)
           && RecordWritten(root, rows, written, x.sbom, x.digest)
  {
    hide OutputNames, OutputRows, OutputMember, Roots, Inject, MemberWritten, RecordWritten, NameBefore, DistInfo, CsvRoundTrips;
    Injected(x, w);
    var out := Inject(x, w).value;
    var record := Find(w, RecordName(root)).value;
    var rows := x.csv.parse(record.payload).value;
    var text := x.csv.write(OutputRows(root, rows, x.sbom, x.digest));
    NamesAscend(root, Names(w));
    OutputNamesMembers(root, Names(w));
    forall i | 0 <= i < |out| ensures out[i].name == OutputNames(root, Names(w))[i] && MemberWritten(x, w, root, out[i]) {
      assert Names(out)[i] == out[i].name && Names(out)[i] in OutputNames(root, Names(w));
      MemberIs(x, w, root, record, text, Names(out)[i]);
    }
    forall n ensures HasMember(out, n) <==> n == root + "/RECORD" || n == root + "/sboms/sbom.spdx.json" || HasMember(w, n) {
      MemberNamed(out, n);
      MemberNamed(w, n);
    }
    OutputRecord(x, w);
    RecordLast(root, rows, x.sbom, x.digest);
    RecordPaths(root);
    var after := Find(out, RecordName(root)).value;
    assert record in w && after in out;
  }

  lemma MemberNamed(w: Wheel, n: string)
    ensures n in Names(w) <==> HasMember(w, n)
  {
    NamesListed(w, n);
  }

  // ---- The auditor ----

  /** RECORD rows name different members, also once case is folded. */
  predicate RowsApart(rows: seq<CsvRow>, fold: string -> string) {
    forall i, j :: 0 <= i < j < |rows| && rows[i] != [] && rows[j] != [] ==> fold(rows[i][0]) != fold(rows[j][0])
  }

  /** Some row gives the member's digest and size. */
  predicate Listed(rows: seq<CsvRow>, m: Member, digest: Bytes -> string) {
    exists i :: 0 <= i < |rows| && |rows[i]| >= 3 && rows[i][0] == m.name && rows[i][1] == digest(m.payload) && rows[i][2] == Decimal(|m.payload|)
  }

  lemma {:induction false} ApartFiltered(rows: seq<CsvRow>, fold: string -> string)
    ensures NoFoldedDuplicates(RecordedNames(rows), fold) <==> RowsApart(rows, fold)
  {
    hide NoFoldedDuplicates, RecordedNames, RowsApart, NamesOf;
    if rows == [] {
      NothingApart(fold);
    } else {
      var rest := rows[1..];
      ApartFiltered(rest, fold);
      ApartRest(rows, fold);
      NamesRest(rows);
      if rows[0] == [] {
        assert [] + RecordedNames(rest) == RecordedNames(rest);
      } else {
        HeadApart(rows[0][0], RecordedNames(rest), fold);
        TailNames(rest);
        ApartTail(rows, RecordedNames(rest), fold);
      }
    }
  }

  lemma NothingApart(fold: string -> string)
    ensures NoFoldedDuplicates(RecordedNames([]), fold) && RowsApart([], fold)
  {
  }

  lemma NamesRest(rows: seq<CsvRow>)
    requires rows != []
    ensures RecordedNames(rows) == (if rows[0] == [] then [] else [rows[0][0]]) + RecordedNames(rows[1..])
  {
    assert rows == [rows[0]] + rows[1..];
    FilterHead(HasName, rows[0], rows[1..]);
    MapEachConcat(RowName, if HasName(rows[0]) then [rows[0]] else [], Filter(HasName, rows[1..]));
  }

  /** The listed names are those of the rows. */
  predicate NamesOf(rest: seq<CsvRow>, tail: seq<string>) {
    && (forall x :: x in tail ==> exists i :: 0 <= i < |rest| && rest[i] != [] && rest[i][0] == x)
    && forall i :: 0 <= i < |rest| && rest[i] != [] ==> rest[i][0] in tail
  }

  lemma TailNames(rest: seq<CsvRow>)
    ensures NamesOf(rest, RecordedNames(rest))
  {
    var tail := RecordedNames(rest);
    forall x | x in tail ensures exists i :: 0 <= i < |rest| && rest[i] != [] && rest[i][0] == x { NameRow(rest, x); }
    forall i | 0 <= i < |rest| && rest[i] != [] ensures rest[i][0] in tail { RowRecorded(rest, rest[i]); }
  }

  lemma NameRow(rest: seq<CsvRow>, x: string)
    requires x in RecordedNames(rest)
    ensures exists i :: 0 <= i < |rest| && rest[i] != [] && rest[i][0] == x
  {
    var k :| 0 <= k < |RecordedNames(rest)| && RecordedNames(rest)[k] == x;
    RecordedNameRow(rest, k);
    var row :| row in rest && row != [] && row[0] == x;
    var i :| 0 <= i < |rest| && rest[i] == row;
  }

  lemma HeadApart(x: string, tail: seq<string>, fold: string -> string)
    ensures NoFoldedDuplicates([x] + tail, fold) <==> NoFoldedDuplicates(tail, fold) && forall y :: y in tail ==> fold(x) != fold(y)
  {
    var all := [x] + tail;
    assert forall i :: 0 <= i < |tail| ==> all[i + 1] == tail[i];
    if NoFoldedDuplicates(all, fold) {
      forall i, j | 0 <= i < j < |tail| ensures fold(tail[i]) != fold(tail[j]) { assert fold(all[i + 1]) != fold(all[j + 1]); }
      forall y | y in tail ensures fold(x) != fold(y) {
        var i :| 0 <= i < |tail| && tail[i] == y;
        assert fold(all[0]) != fold(all[i + 1]);
      }
    }
    if NoFoldedDuplicates(tail, fold) && forall y :: y in tail ==> fold(x) != fold(y) {
      forall i, j | 0 <= i < j < |all| ensures fold(all[i]) != fold(all[j]) {
        assert all[j] == tail[j - 1];
        if i > 0 { assert all[i] == tail[i - 1]; }
      }
    }
  }

  /** Splitting off the first row. */
  lemma ApartRest(rows: seq<CsvRow>, fold: string -> string)
    requires rows != []
    ensures RowsApart(rows, fold) <==>
      && RowsApart(rows[1..], fold)
      && (rows[0] != [] ==> forall i :: 0 <= i < |rows[1..]| && rows[1..][i] != [] ==> fold(rows[0][0]) != fold(rows[1..][i][0]))
  {
    var rest := rows[1..];
    assert forall i :: 0 <= i < |rest| ==> rest[i] == rows[i + 1];
    if RowsApart(rest, fold) && (rows[0] != [] ==> forall i :: 0 <= i < |rest| && rest[i] != [] ==> fold(rows[0][0]) != fold(rest[i][0])) {
      forall i, j | 0 <= i < j < |rows| && rows[i] != [] && rows[j] != [] ensures fold(rows[i][0]) != fold(rows[j][0]) {
        assert rest[j - 1] == rows[j];
        if i > 0 { assert rest[i - 1] == rows[i]; }
      }
    }
  }

  lemma ApartTail(rows: seq<CsvRow>, tail: seq<string>, fold: string -> string)
    requires rows != [] && rows[0] != []
    requires NamesOf(rows[1..], tail)
    ensures (forall y :: y in tail ==> fold(rows[0][0]) != fold(y)) <==>
            forall i :: 0 <= i < |rows[1..]| && rows[1..][i] != [] ==> fold(rows[0][0]) != fold(rows[1..][i][0])
  {
    var rest := rows[1..];
    if forall i :: 0 <= i < |rest| && rest[i] != [] ==> fold(rows[0][0]) != fold(rest[i][0]) {
      forall y | y in tail ensures fold(rows[0][0]) != fold(y) {
        var i :| 0 <= i < |rest| && rest[i] != [] && rest[i][0] == y;
      }
    }
  }

  lemma ListedExactly(rows: seq<CsvRow>, m: Member, digest: Bytes -> string, fold: string -> string)
    requires RowsApart(rows, fold)
    ensures EntryOk(rows, m, digest) <==> Listed(rows, m, digest)
  {
    hide RowsApart, RecordedNames, NoFoldedDuplicates, Decimal;
    ApartFiltered(rows, fold);
    var found := RecordedRow(rows, m.name);
    if EntryOk(rows, m, digest) {
      var i :| 0 <= i < |rows| && rows[i] == found.value;
    }
    if i :| 0 <= i < |rows| && |rows[i]| >= 3 && rows[i][0] == m.name && rows[i][1] == digest(m.payload) && rows[i][2] == Decimal(|m.payload|) {
      assert rows[i] in rows && rows[i] != [];
      OneRowAName(rows, rows[i], found.value, fold);
    }
  }

  /** Every row names a member. */
  lemma NamesExactly(w: Wheel, rows: seq<CsvRow>)
    ensures (forall i :: 0 <= i < |RecordedNames(rows)| ==> RecordedNames(rows)[i] in Names(w)) <==>
            forall row :: row in rows && row != [] ==> HasMember(w, row[0])
  {
    hide Names, RecordedNames, HasMember;
    var recorded := RecordedNames(rows);
    if forall i :: 0 <= i < |recorded| ==> recorded[i] in Names(w) {
      forall row | row in rows && row != [] ensures HasMember(w, row[0]) {
        RowRecorded(rows, row);
        var i :| 0 <= i < |recorded| && recorded[i] == row[0];
        MemberNamed(w, row[0]);
      }
    }
    if forall row :: row in rows && row != [] ==> HasMember(w, row[0]) {
      forall i | 0 <= i < |recorded| ensures recorded[i] in Names(w) {
        RecordedNameRow(rows, i);
        MemberNamed(w, recorded[i]);
      }
    }
  }

  /** What the auditor demands of RECORD: distinct rows, members only, and every other member with its digest and size. */
  predicate RecordSound(x: Setup, w: Wheel, root: string, rows: seq<CsvRow>, fold: string -> string) {
    && RowsApart(rows, fold)
    && (forall row :: row in rows && row != [] ==> HasMember(w, row[0]))
    && forall i :: 0 <= i < |w| && w[i].name != root + "/RECORD" ==> Listed(rows, w[i], x.digest)
  }

  /** The auditor passes RECORD exactly when it can be read and is sound. */
  lemma AuditsExactly(x: Setup, w: Wheel, root: string, fold: string -> string)
    requires DistinctNames(w)
    ensures RecordPasses(x, w, root, fold) <==>
              exists record, rows :: record in w && record.name == root + "/RECORD" && x.csv.parse(record.payload) == Some(rows)
                                     && RecordSound(x, w, root, rows, fold)
  {
    hide Names, RecordedNames, NoFoldedDuplicates, RowsApart, HasMember, Listed, EntryOk;
    DistinctNamesAre(w);
    forall record | record in w && record.name == root + "/RECORD" ensures Find(w, root + "/RECORD") == Some(record) { FindMember(w, record); }
    if Find(w, RecordName(root)).Some? && x.csv.parse(Find(w, RecordName(root)).value.payload).Some? {
      var record := Find(w, RecordName(root)).value;
      var rows := x.csv.parse(record.payload).value;
      RowsSound(x, w, root, rows, fold);
      assert record in w;
    }
  }

  lemma RowsSound(x: Setup, w: Wheel, root: string, rows: seq<CsvRow>, fold: string -> string)
    ensures RecordSound(x, w, root, rows, fold) <==>
      && NoFoldedDuplicates(RecordedNames(rows), fold)
      && (forall i :: 0 <= i < |RecordedNames(rows)| ==> RecordedNames(rows)[i] in Names(w))
      && forall i :: 0 <= i < |w| && w[i].name != RecordName(root) ==> EntryOk(rows, w[i], x.digest)
  {
    hide Names, RecordedNames, NoFoldedDuplicates, RowsApart, HasMember, Listed, EntryOk;
    ApartFiltered(rows, fold);
    NamesExactly(w, rows);
    if RowsApart(rows, fold) {
      forall i | 0 <= i < |w| ensures EntryOk(rows, w[i], x.digest) <==> Listed(rows, w[i], x.digest) { ListedExactly(rows, w[i], x.digest, fold); }
    }
  }
}
