/** Digests over framed tables (`_payload_digest`, `implementation_surface_sha256`, the rank table of
    `tokenizer_contract_payload`): the framing can be read back, so equal digests mean equal tables. */
module FramedDigest {
  import opened Sequences
  import opened Sorting
  import opened Utf8
  import opened Surface
  import opened Projection

  const HASH_SIZE := 32

  // ---- name, NUL, hash, NUL ----

  /** One file: its name and the raw hash of its bytes. */
  datatype Row = Row(name: string, hash: Bytes)

  predicate NulFree(s: string) { forall i :: 0 <= i < |s| ==> s[i] as int != 0 }

  predicate RowOk(r: Row) { NulFree(r.name) && |r.hash| == HASH_SIZE }

  function Frame(r: Row): Bytes { Encode(r.name) + ([0] + (r.hash + [0])) }

  function Frames(rows: seq<Row>): Bytes { FlatMap(Frame, rows) }

  lemma {:induction false} EncodedNulFree(s: string)
    requires NulFree(s)
    ensures 0 !in Encode(s)
  {
    if s != "" {
      EncodedNulFree(s[1..]);
      assert Encode(s) == EncodeChar(s[0]) + Encode(s[1..]);
    }
  }

  /** A byte string splits at its first zero in one way. */
  lemma {:induction false} FirstZero(a: Bytes, b: Bytes, x: Bytes, y: Bytes)
    requires 0 !in a && 0 !in b && a + ([0] + x) == b + ([0] + y)
    ensures a == b && x == y
  {
    HeadAndTail(a, x);
    HeadAndTail(b, y);
    if a != [] && b != [] { FirstZero(a[1..], b[1..], x, y); }
  }

  lemma HeadAndTail(a: Bytes, x: Bytes)
    ensures (a + ([0] + x))[0] == if a == [] then 0 else a[0]
    ensures (a + ([0] + x))[1..] == if a == [] then x else a[1..] + ([0] + x)
  {
  }

  lemma SameText(a: string, b: string)
    requires Encode(a) == Encode(b)
    ensures a == b
  {
    DecodeEncode(a);
    DecodeEncode(b);
  }

  lemma FrameThen(r: Row, rest: Bytes)
    ensures Frame(r) + rest == Encode(r.name) + ([0] + (r.hash + ([0] + rest)))
  {
    hide Encode;
  }

  /** The first row can be read back, and so can the rest. */
  lemma FrameReadsBack(r: Row, q: Row, x: Bytes, y: Bytes)
    requires RowOk(r) && RowOk(q) && Frame(r) + x == Frame(q) + y
    ensures r == q && x == y
  {
    hide Frame, Encode;
    FrameThen(r, x);
    FrameThen(q, y);
    EncodedNulFree(r.name);
    EncodedNulFree(q.name);
    FirstZero(Encode(r.name), Encode(q.name), r.hash + ([0] + x), q.hash + ([0] + y));
    SplitAt(r.hash, q.hash, [0] + x, [0] + y);
    SplitAt([0], [0], x, y);
    SameText(r.name, q.name);
  }

  /** Equal framings are framings of the same rows. */
  lemma {:induction false} FramesInjective(a: seq<Row>, b: seq<Row>)
    requires forall i :: 0 <= i < |a| ==> RowOk(a[i])
    requires forall i :: 0 <= i < |b| ==> RowOk(b[i])
    requires Frames(a) == Frames(b)
    ensures a == b
  {
    hide Frame, RowOk;
    if a == [] || b == [] {
      if a != [] { FrameNotEmpty(a[0]); }
      if b != [] { FrameNotEmpty(b[0]); }
    } else {
      FrameReadsBack(a[0], b[0], Frames(a[1..]), Frames(b[1..]));
      FramesInjective(a[1..], b[1..]);
      assert a == [a[0]] + a[1..] && b == [b[0]] + b[1..];
    }
  }

  lemma FrameNotEmpty(r: Row)
    ensures Frame(r) != []
  {
  }

  /** A hash whose every byte is a printable letter, so that it can also be part of a name. */
  function Letters(): Bytes { seq(HASH_SIZE, i => 120) }

  /** Names with a NUL inside break it: one long name frames like two rows. */
  lemma NulNamesCollide()
    ensures var name := "a" + [0 as char] + seq(HASH_SIZE, i => 'x') + [0 as char] + "b";
      Frames([Row(name, Letters())]) == Frames([Row("a", Letters()), Row("b", Letters())])
  {
    var xs := seq(HASH_SIZE, i => 'x');
    var name := "a" + [0 as char] + xs + [0 as char] + "b";
    EncodeJoins("a" + [0 as char] + xs + [0 as char], "b");
    EncodeJoins("a" + [0 as char] + xs, [0 as char]);
    EncodeJoins("a" + [0 as char], xs);
    EncodeJoins("a", [0 as char]);
    EncodeOne('a');
    EncodeOne('b');
    EncodeOne(0 as char);
    EncodeLetters(xs);
    assert Encode(name) == [97, 0] + Letters() + [0, 98];
    assert Frames([Row(name, Letters())]) == Frame(Row(name, Letters())) by { OneRow(Row(name, Letters())); }
    TwoRows(Row("a", Letters()), Row("b", Letters()));
  }

  lemma EncodeJoins(a: string, b: string)
    ensures Encode(a + b) == Encode(a) + Encode(b)
  {
    FlatMapConcat(EncodeChar, a, b);
  }

  lemma EncodeOne(c: char)
    requires c as int < 0x80
    ensures Encode([c]) == [c as int]
  {
    FlatMapOne(EncodeChar, c);
  }

  lemma {:induction false} EncodeLetters(s: string)
    requires forall i :: 0 <= i < |s| ==> s[i] == 'x'
    ensures Encode(s) == seq(|s|, i => 120)
  {
    if s != "" {
      EncodeLetters(s[1..]);
      assert Encode(s) == [120] + Encode(s[1..]);
    }
  }

  lemma OneRow(r: Row)
    ensures Frames([r]) == Frame(r)
  {
    FlatMapOne(Frame, r);
  }

  lemma TwoRows(r: Row, q: Row)
    ensures Frames([r, q]) == Frame(r) + Frame(q)
  {
    hide Frame;
    assert [r, q][1..] == [q];
    OneRow(q);
  }

  // ---- The payload digest ----

  type Payload = map<string, Bytes>

  ghost predicate FixedSize(sha: Bytes -> Bytes) {
    forall b :: |sha(b)| == HASH_SIZE
  }

  /** Everything hashed on the way to the digest of a payload. */
  function Hashed(payload: Payload, names: seq<string>, sha: Bytes -> Bytes): set<Bytes> {
    payload.Values + {Frames(Rows(payload, names, sha))}
  }

  /** The names of the payload, sorted. */
  predicate SortedNames(payload: Payload, names: seq<string>) {
    && Members(names) == payload.Keys
    && forall i, j :: 0 <= i < j < |names| ==> StringLt(names[i], names[j])
  }

  function RowOf(payload: Payload, sha: Bytes -> Bytes, name: string): Row {
    Row(name, sha(if name in payload then payload[name] else []))
  }

  function Rows(payload: Payload, names: seq<string>, sha: Bytes -> Bytes): seq<Row> {
    MapEach((n: string) => RowOf(payload, sha, n), names)
  }

  /** A payload has one sorted list of names. */
  lemma SortedNamesUnique(payload: Payload, a: seq<string>, b: seq<string>)
    requires SortedNames(payload, a) && SortedNames(payload, b)
    ensures a == b
  {
    forall x ensures x in a <==> x in b {
      assert x in a <==> x in Members(a);
      assert x in b <==> x in Members(b);
    }
    SameMembersSamePermutation(a, b);
    ByKeyIsPreorder(Self);
    forall i, j | 0 <= i < j < |a| ensures ByKey(Self)(a[i], a[j]) { assert StringLt(a[i], a[j]) && Self(a[i]) == a[i] && Self(a[j]) == a[j]; }
    forall i, j | 0 <= i < j < |b| ensures ByKey(Self)(b[i], b[j]) { assert StringLt(b[i], b[j]) && Self(b[i]) == b[i] && Self(b[j]) == b[j]; }
    SortFixesSorted(a, ByKey(Self));
    SortFixesSorted(b, ByKey(Self));
    SameSortedStrings(a, b);
  }

  /** `_payload_digest`: the digest is fed one frame after another. */
  method PayloadDigest(payload: Payload, names: seq<string>, sha: Bytes -> Bytes) returns (digest: Bytes)
    requires SortedNames(payload, names)
    ensures digest == sha(Frames(Rows(payload, names, sha)))
  {
    hide Encode, RowOf;
    var fed: Bytes, i := [], 0;
    while i < |names|
      invariant 0 <= i <= |names|
      invariant fed == Frames(Rows(payload, names[..i], sha))
    {
      assert names[i] in Members(names);
      RowsSnoc(payload, names, sha, i);
      var r := RowOf(payload, sha, names[i]);
      fed := fed + Encode(r.name);
      fed := fed + [0];
      fed := fed + r.hash;
      fed := fed + [0];
      i := i + 1;
    }
    assert names[..i] == names;
    digest := sha(fed);
  }

  lemma RowsSnoc(payload: Payload, names: seq<string>, sha: Bytes -> Bytes, i: nat)
    requires i < |names|
    ensures var r := RowOf(payload, sha, names[i]);
      Frames(Rows(payload, names[..i + 1], sha)) == Frames(Rows(payload, names[..i], sha)) + Encode(r.name) + [0] + r.hash + [0]
  {
    hide Encode, RowOf, MapEach;
    MapEachPrefix((n: string) => RowOf(payload, sha, n), names, i);
    FlatMapSnoc(Frame, Rows(payload, names[..i], sha), RowOf(payload, sha, names[i]));
  }

  /** When nothing hashed collides, two payloads with NUL-free names have the same digest exactly when they are equal. */
  lemma DigestIdentifiesPayload(p: Payload, pn: seq<string>, q: Payload, qn: seq<string>, sha: Bytes -> Bytes)
    requires FixedSize(sha) && CollisionFree(sha, Hashed(p, pn, sha) + Hashed(q, qn, sha))
    requires SortedNames(p, pn) && SortedNames(q, qn)
    requires forall n :: n in p || n in q ==> NulFree(n)
    ensures sha(Frames(Rows(p, pn, sha))) == sha(Frames(Rows(q, qn, sha))) <==> p == q
  {
    hide Frames, NulFree;
    if p == q {
      SortedNamesUnique(p, pn, qn);
    } else if Frames(Rows(p, pn, sha)) == Frames(Rows(q, qn, sha)) {
      RowsOk(p, pn, sha);
      RowsOk(q, qn, sha);
      FramesInjective(Rows(p, pn, sha), Rows(q, qn, sha));
      SameRows(p, pn, q, qn, sha);
    }
  }

  lemma RowsOk(p: Payload, names: seq<string>, sha: Bytes -> Bytes)
    requires FixedSize(sha) && SortedNames(p, names) && forall n :: n in p ==> NulFree(n)
    ensures forall i :: 0 <= i < |Rows(p, names, sha)| ==> RowOk(Rows(p, names, sha)[i])
  {
    hide NulFree;
    forall i | 0 <= i < |names| ensures RowOk(RowOf(p, sha, names[i])) { assert names[i] in Members(names); }
  }

  lemma SameValue(p: Payload, q: Payload, n: string, sha: Bytes -> Bytes)
    requires CollisionFree(sha, p.Values + q.Values) && n in p && n in q && sha(p[n]) == sha(q[n])
    ensures p[n] == q[n]
  {
    assert p[n] in p.Values && q[n] in q.Values;
  }

  lemma SameRows(p: Payload, pn: seq<string>, q: Payload, qn: seq<string>, sha: Bytes -> Bytes)
    requires CollisionFree(sha, p.Values + q.Values) && SortedNames(p, pn) && SortedNames(q, qn) && Rows(p, pn, sha) == Rows(q, qn, sha)
    ensures p == q
  {
    hide CollisionFree;
    var a, b := Rows(p, pn, sha), Rows(q, qn, sha);
    assert |pn| == |a| == |b| == |qn|;
    forall i | 0 <= i < |pn|
      ensures pn[i] == qn[i] && pn[i] in p && pn[i] in q && p[pn[i]] == q[pn[i]]
    {
      assert a[i] == RowOf(p, sha, pn[i]) && b[i] == RowOf(q, sha, qn[i]);
      assert pn[i] in Members(pn) && qn[i] in Members(qn);
      SameValue(p, q, pn[i], sha);
    }
    assert pn == qn;
    forall n | n in p ensures n in q && p[n] == q[n] {
      assert n in Members(pn);
      var i :| 0 <= i < |pn| && pn[i] == n;
    }
  }

  // ---- length, token, rank ----

  datatype Ranked = Ranked(token: Bytes, rank: nat)

  function Power256(k: nat): nat { if k == 0 then 1 else 256 * Power256(k - 1) }

  /** `n.to_bytes(k, "big")` for an `n` that fits. */
  function BigEndian(n: nat, k: nat): (r: Bytes)
    ensures |r| == k
  {
    if k == 0 then [] else BigEndian(n / 256, k - 1) + [n % 256]
  }

  lemma {:induction false} BigEndianInjective(a: nat, b: nat, k: nat)
    requires a < Power256(k) && b < Power256(k) && BigEndian(a, k) == BigEndian(b, k)
    ensures a == b
  {
    if k > 0 {
      SplitAt(BigEndian(a / 256, k - 1), BigEndian(b / 256, k - 1), [a % 256], [b % 256]);
      assert [a % 256][0] == [b % 256][0];
      BigEndianInjective(a / 256, b / 256, k - 1);
    }
  }

  predicate RankedOk(r: Ranked) { |r.token| < Power256(8) && r.rank < Power256(8) }

  function RankFrame(r: Ranked): Bytes { BigEndian(|r.token|, 8) + (r.token + BigEndian(r.rank, 8)) }

  function RankFrames(rows: seq<Ranked>): Bytes { FlatMap(RankFrame, rows) }

  lemma RankFrameReadsBack(r: Ranked, q: Ranked, x: Bytes, y: Bytes)
    requires RankedOk(r) && RankedOk(q) && RankFrame(r) + x == RankFrame(q) + y
    ensures r == q && x == y
  {
    hide BigEndian, Power256;
    assert RankFrame(r) + x == BigEndian(|r.token|, 8) + (r.token + (BigEndian(r.rank, 8) + x));
    assert RankFrame(q) + y == BigEndian(|q.token|, 8) + (q.token + (BigEndian(q.rank, 8) + y));
    SplitAt(BigEndian(|r.token|, 8), BigEndian(|q.token|, 8), r.token + (BigEndian(r.rank, 8) + x), q.token + (BigEndian(q.rank, 8) + y));
    BigEndianInjective(|r.token|, |q.token|, 8);
    SplitAt(r.token, q.token, BigEndian(r.rank, 8) + x, BigEndian(q.rank, 8) + y);
    SplitAt(BigEndian(r.rank, 8), BigEndian(q.rank, 8), x, y);
    BigEndianInjective(r.rank, q.rank, 8);
  }

  /** Equal rank framings come from the same tokens with the same ranks, in the same order. */
  lemma {:induction false} RankFramesInjective(a: seq<Ranked>, b: seq<Ranked>)
    requires forall i :: 0 <= i < |a| ==> RankedOk(a[i])
    requires forall i :: 0 <= i < |b| ==> RankedOk(b[i])
    requires RankFrames(a) == RankFrames(b)
    ensures a == b
  {
    hide RankFrame, RankedOk;
    if a == [] || b == [] {
      if a != [] { RankFrameNotEmpty(a[0]); }
      if b != [] { RankFrameNotEmpty(b[0]); }
    } else {
      RankFrameReadsBack(a[0], b[0], RankFrames(a[1..]), RankFrames(b[1..]));
      RankFramesInjective(a[1..], b[1..]);
      assert a == [a[0]] + a[1..] && b == [b[0]] + b[1..];
    }
  }

  lemma RankFrameNotEmpty(r: Ranked)
    ensures RankFrame(r) != []
  {
    assert |BigEndian(|r.token|, 8)| == 8;
  }
}
