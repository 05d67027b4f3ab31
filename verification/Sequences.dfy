/** Optional values and the joins that `"".join` and `bytearray.extend` build. */
module Sequences {
  datatype Option<+T> = None | Some(value: T)

  lemma ConcatAssociates<T>(a: seq<T>, b: seq<T>, c: seq<T>)
    ensures (a + b) + c == a + (b + c)
  {
  }

  function FlatMap<S, T>(f: S -> seq<T>, s: seq<S>): seq<T> {
    if s == [] then [] else f(s[0]) + FlatMap(f, s[1..])
  }

  lemma FlatMapCons<S, T>(f: S -> seq<T>, x: S, s: seq<S>)
    ensures FlatMap(f, [x] + s) == f(x) + FlatMap(f, s)
  {
    assert ([x] + s)[1..] == s;
  }

  lemma FlatMapOne<S, T>(f: S -> seq<T>, x: S)
    ensures FlatMap(f, [x]) == f(x)
  {
    assert [x][1..] == [];
  }

  lemma {:induction false} FlatMapConcat<S, T>(f: S -> seq<T>, a: seq<S>, b: seq<S>)
    ensures FlatMap(f, a + b) == FlatMap(f, a) + FlatMap(f, b)
  {
    if a == [] {
      assert a + b == b;
    } else {
      FlatMapConcat(f, a[1..], b);
      ConcatAssociates(f(a[0]), FlatMap(f, a[1..]), FlatMap(f, b));
      assert (a + b)[1..] == a[1..] + b;
    }
  }

  lemma FlatMapSnoc<S, T>(f: S -> seq<T>, s: seq<S>, x: S)
    ensures FlatMap(f, s + [x]) == FlatMap(f, s) + f(x)
  {
    FlatMapConcat(f, s, [x]);
    assert [x][1..] == [];
  }

  lemma {:induction false} FlatMapAgrees<S, T>(f: S -> seq<T>, g: S -> seq<T>, s: seq<S>)
    requires forall x :: x in s ==> f(x) == g(x)
    ensures FlatMap(f, s) == FlatMap(g, s)
  {
    if s != [] { FlatMapAgrees(f, g, s[1..]); }
  }

  predicate StartsWith<T(==)>(s: seq<T>, prefix: seq<T>) {
    |prefix| <= |s| && s[..|prefix|] == prefix
  }

  predicate EndsWith<T(==)>(s: seq<T>, suffix: seq<T>) {
    |suffix| <= |s| && s[|s| - |suffix|..] == suffix
  }

  predicate NoDuplicates<T(==)>(s: seq<T>) {
    forall i, j :: 0 <= i < j < |s| ==> s[i] != s[j]
  }

  function MapEach<S, T>(f: S -> T, s: seq<S>): (r: seq<T>)
    ensures |r| == |s| && forall i :: 0 <= i < |s| ==> r[i] == f(s[i])
  {
    if s == [] then [] else [f(s[0])] + MapEach(f, s[1..])
  }

  lemma MapEachConcat<S, T>(f: S -> T, a: seq<S>, b: seq<S>)
    ensures MapEach(f, a + b) == MapEach(f, a) + MapEach(f, b)
  {
  }

  /** Mapping a prefix one element longer. */
  lemma MapEachPrefix<S, T>(f: S -> T, s: seq<S>, i: nat)
    requires i < |s|
    ensures MapEach(f, s[..i + 1]) == MapEach(f, s[..i]) + [f(s[i])]
  {
    hide MapEach;
    var a, b := MapEach(f, s[..i + 1]), MapEach(f, s[..i]) + [f(s[i])];
    assert |a| == |b|;
    forall k | 0 <= k < |a| ensures a[k] == b[k] { }
  }

  lemma MapEachSplit<S, T>(f: S -> T, s: seq<S>, i: nat)
    requires i <= |s|
    ensures MapEach(f, s) == MapEach(f, s[..i]) + MapEach(f, s[i..])
  {
    hide MapEach;
    assert s == s[..i] + s[i..];
    MapEachConcat(f, s[..i], s[i..]);
  }

  lemma RemoveAt<T>(s: seq<T>, k: nat)
    requires k < |s|
    ensures multiset(s) == multiset(s[..k] + s[k + 1..]) + multiset{s[k]}
  {
    assert s == s[..k] + [s[k]] + s[k + 1..];
  }

  lemma MapEachRemove<S, T>(f: S -> T, s: seq<S>, k: nat)
    requires k < |s|
    ensures multiset(MapEach(f, s)) == multiset(MapEach(f, s[..k] + s[k + 1..])) + multiset{f(s[k])}
  {
    var m := MapEach(f, s);
    MapEachConcat(f, s[..k], s[k + 1..]);
    assert m[..k] == MapEach(f, s[..k]) && m[k + 1..] == MapEach(f, s[k + 1..]);
    RemoveAt(m, k);
  }

  lemma Occurs<T>(s: seq<T>, x: T) returns (k: nat)
    requires x in multiset(s)
    ensures k < |s| && s[k] == x
  {
    k :| 0 <= k < |s| && s[k] == x;
  }

  /** Taking the first element of `a` out of a rearrangement `b` of it. */
  lemma TakeFirst<T>(a: seq<T>, b: seq<T>) returns (k: nat)
    requires multiset(a) == multiset(b) && a != []
    ensures k < |b| && b[k] == a[0]
    ensures multiset(a[1..]) == multiset(b[..k] + b[k + 1..])
  {
    assert a[0] in multiset(a);
    k := Occurs(b, a[0]);
    RemoveAt(b, k);
    RemoveAt(a, 0);
    assert a[..0] + a[1..] == a[1..];
    assert multiset(a[1..]) == multiset(a) - multiset{a[0]};
    assert multiset(b[..k] + b[k + 1..]) == multiset(b) - multiset{a[0]};
  }

  /** Mapping respects rearrangement. */
  lemma {:induction false} MapEachPermutes<S, T>(f: S -> T, a: seq<S>, b: seq<S>)
    requires multiset(a) == multiset(b)
    ensures multiset(MapEach(f, a)) == multiset(MapEach(f, b))
  {
    if a == [] {
      assert |b| == |multiset(b)| == 0;
    } else {
      var k := TakeFirst(a, b);
      MapEachPermutes(f, a[1..], b[..k] + b[k + 1..]);
      MapEachRemove(f, b, k);
      assert MapEach(f, a) == [f(a[0])] + MapEach(f, a[1..]);
    }
  }

  /** The first occurrence of each element, in order. */
  function Distinct<T(==,!new)>(s: seq<T>): (r: seq<T>)
    ensures NoDuplicates(r) && forall x :: x in r <==> x in s
  {
    if s == [] then []
    else
      var front := Distinct(s[..|s| - 1]);
      assert s == s[..|s| - 1] + [s[|s| - 1]];
      if s[|s| - 1] in front then front else front + [s[|s| - 1]]
  }

  function Filter<T(!new)>(p: T -> bool, s: seq<T>): (r: seq<T>)
    ensures forall x :: x in r <==> x in s && p(x)
  {
    if s == [] then [] else (if p(s[0]) then [s[0]] else []) + Filter(p, s[1..])
  }

  /** `set(s)` */
  function Members<T(==)>(s: seq<T>): set<T> { set x | x in s }

  lemma MembersConcat<T>(a: seq<T>, b: seq<T>)
    ensures Members(a + b) == Members(a) + Members(b)
  {
  }

  lemma MembersHas<T>(s: seq<T>, x: T)
    ensures x in Members(s) <==> x in s
  {
  }

  lemma MembersSnoc<T>(s: seq<T>, x: T)
    ensures Members(s + [x]) == Members(s) + {x}
  {
  }

  lemma {:induction false} FlatMember<S, T>(f: S -> seq<T>, s: seq<S>, x: T)
    ensures x in FlatMap(f, s) <==> exists i :: 0 <= i < |s| && x in f(s[i])
  {
    if s != [] {
      FlatMember(f, s[1..], x);
      if i :| 0 <= i < |s[1..]| && x in f(s[1..][i]) { assert s[i + 1] == s[1..][i]; }
      if i :| 0 <= i < |s| && x in f(s[i]) {
        if i > 0 { assert s[1..][i - 1] == s[i]; }
      }
    }
  }

  /** Equal concatenations whose heads have the same length have the same parts. */
  lemma SplitAt<T>(a: seq<T>, b: seq<T>, x: seq<T>, y: seq<T>)
    requires a + x == b + y && |a| == |b|
    ensures a == b && x == y
  {
    assert (a + x)[..|a|] == a && (b + y)[..|b|] == b;
    assert (a + x)[|a|..] == x && (b + y)[|b|..] == y;
  }

  lemma NoDuplicatesSnoc<T>(s: seq<T>, x: T)
    ensures NoDuplicates(s + [x]) <==> NoDuplicates(s) && x !in s
  {
    var all := s + [x];
    assert all[|s|] == x && forall i :: 0 <= i < |s| ==> all[i] == s[i];
    if NoDuplicates(all) {
      forall i, j | 0 <= i < j < |s| ensures s[i] != s[j] { assert all[i] != all[j]; }
    }
  }

  lemma NoDuplicatesPrefix<T>(a: seq<T>, b: seq<T>)
    requires NoDuplicates(a + b)
    ensures NoDuplicates(a)
  {
    forall i, j | 0 <= i < j < |a| ensures a[i] != a[j] { assert (a + b)[i] == a[i] && (a + b)[j] == a[j]; }
  }

  lemma NoDuplicatesConcat<T>(a: seq<T>, b: seq<T>)
    requires NoDuplicates(a) && NoDuplicates(b) && forall x :: x in b ==> x !in a
    ensures NoDuplicates(a + b)
  {
    forall i, j | 0 <= i < j < |a + b| ensures (a + b)[i] != (a + b)[j] {
      if i < |a| <= j { assert b[j - |a|] in b; }
    }
  }

  function Minimum(a: int, b: int): int { if a <= b then a else b }
}
