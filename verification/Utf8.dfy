/** UTF-8 as section 4 of RFC 3629 defines it: well-formedness, decoding to scalar
    values, and where a byte string may be cut. */
module Utf8 {
  import opened Sequences

  type Byte = b: int | 0 <= b < 256
  type Bytes = seq<Byte>

  /** `b & 0xC0 == 0x80` on one byte. */
  predicate Continuation(b: Byte) { 0x80 <= b < 0xC0 }

  /** Size of the well-formed code point at the front of `s`; 0 when there is none. */
  function CodePointLength(s: Bytes): (n: nat)
    ensures n <= |s| && n <= 4
    ensures forall k :: 1 <= k < n ==> Continuation(s[k])
    ensures n > 0 ==> !Continuation(s[0])
  {
    if s == [] then 0
    else if s[0] < 0x80 then 1
    else if 0xC2 <= s[0] <= 0xDF && |s| >= 2 && Continuation(s[1]) then 2
    else if |s| >= 3 && Continuation(s[1]) && Continuation(s[2]) && SecondOfThree(s[0], s[1]) then 3
    else if |s| >= 4 && Continuation(s[1]) && Continuation(s[2]) && Continuation(s[3]) && SecondOfFour(s[0], s[1]) then 4
    else 0
  }

  predicate SecondOfThree(first: Byte, second: Byte) {
    || (first == 0xE0 && 0xA0 <= second <= 0xBF)
    || (0xE1 <= first <= 0xEC && 0x80 <= second <= 0xBF)
    || (first == 0xED && 0x80 <= second <= 0x9F)
    || (0xEE <= first <= 0xEF && 0x80 <= second <= 0xBF)
  }

  predicate SecondOfFour(first: Byte, second: Byte) {
    || (first == 0xF0 && 0x90 <= second <= 0xBF)
    || (0xF1 <= first <= 0xF3 && 0x80 <= second <= 0xBF)
    || (first == 0xF4 && 0x80 <= second <= 0x8F)
  }

  /** `bytes.decode("utf-8", errors="strict")` succeeds. */
  predicate WellFormed(s: Bytes)
    decreases |s|
  {
    s == [] || (CodePointLength(s) > 0 && WellFormed(s[CodePointLength(s)..]))
  }

  function EncodeChar(c: char): (r: Bytes)
    ensures 1 <= |r| <= 4
  {
    var n := c as int;
    if n < 0x80 then [n]
    else if n < 0x800 then [0xC0 + n / 64, 0x80 + n % 64]
    else if n < 0x10000 then [0xE0 + n / 4096, 0x80 + n / 64 % 64, 0x80 + n % 64]
    else [0xF0 + n / 262144, 0x80 + n / 4096 % 64, 0x80 + n / 64 % 64, 0x80 + n % 64]
  }

  function Encode(t: string): Bytes { FlatMap(EncodeChar, t) }

  /** Payload bits of one byte. */
  function Low(b: Byte, marker: int): int { b as int - marker }

  function Scalar(s: Bytes): int
    requires CodePointLength(s) > 0
  {
    ScalarOf(s[..CodePointLength(s)])
  }

  function ScalarOf(e: Bytes): int
    requires 1 <= |e| <= 4
  {
    if |e| == 1 then e[0]
    else if |e| == 2 then 64 * Low(e[0], 0xC0) + Low(e[1], 0x80)
    else if |e| == 3 then 4096 * Low(e[0], 0xE0) + 64 * Low(e[1], 0x80) + Low(e[2], 0x80)
    else 262144 * Low(e[0], 0xF0) + 4096 * Low(e[1], 0x80) + 64 * Low(e[2], 0x80) + Low(e[3], 0x80)
  }

  function DecodeChar(s: Bytes): char
    requires CodePointLength(s) > 0
  {
    Scalar(s) as char
  }

  function Decode(s: Bytes): string
    requires WellFormed(s)
    decreases |s|
  {
    if s == [] then [] else [DecodeChar(s)] + Decode(s[CodePointLength(s)..])
  }

  lemma Split64(q: int, r: int)
    requires 0 <= r < 64
    ensures (64 * q + r) / 64 == q && (64 * q + r) % 64 == r
  {
  }

  lemma EncodeDecodeTwo(a: int, b: int)
    requires 2 <= a < 32 && 0 <= b < 64
    ensures EncodeChar((64 * a + b) as char) == [0xC0 + a, 0x80 + b]
  {
    Split64(a, b);
  }

  lemma EncodeDecodeThree(a: int, b: int, c: int)
    requires 0 <= a < 16 && 0 <= b < 64 && 0 <= c < 64 && (a == 0 ==> 32 <= b) && (a == 13 ==> b < 32)
    ensures EncodeChar((4096 * a + 64 * b + c) as char) == [0xE0 + a, 0x80 + b, 0x80 + c]
  {
    Split64(a, b);
    Split64(64 * a + b, c);
    var v := 4096 * a + 64 * b + c;
    assert v == 64 * (64 * a + b) + c && v / 4096 == v / 64 / 64;
  }

  lemma EncodeDecodeFour(a: int, b: int, c: int, d: int)
    requires 0 <= a < 5 && 0 <= b < 64 && 0 <= c < 64 && 0 <= d < 64 && (a == 0 ==> 16 <= b) && (a == 4 ==> b < 16)
    ensures EncodeChar((262144 * a + 4096 * b + 64 * c + d) as char) == [0xF0 + a, 0x80 + b, 0x80 + c, 0x80 + d]
  {
    Split64(a, b);
    Split64(64 * a + b, c);
    Split64(64 * (64 * a + b) + c, d);
    var v := 262144 * a + 4096 * b + 64 * c + d;
    assert v == 64 * (64 * (64 * a + b) + c) + d && v / 4096 == v / 64 / 64 && v / 262144 == v / 64 / 64 / 64;
  }

  lemma EncodeDecodeChar(s: Bytes)
    requires CodePointLength(s) > 0
    ensures EncodeChar(DecodeChar(s)) == s[..CodePointLength(s)]
  {
    var n := CodePointLength(s);
    if n == 2 {
      EncodeDecodeTwo(Low(s[0], 0xC0), Low(s[1], 0x80));
    } else if n == 3 {
      EncodeDecodeThree(Low(s[0], 0xE0), Low(s[1], 0x80), Low(s[2], 0x80));
    } else if n == 4 {
      EncodeDecodeFour(Low(s[0], 0xF0), Low(s[1], 0x80), Low(s[2], 0x80), Low(s[3], 0x80));
    }
  }

  /** Encoding undoes strict decoding, so equal texts come from equal bytes. */
  lemma {:induction false} EncodeDecode(s: Bytes)
    requires WellFormed(s)
    ensures Encode(Decode(s)) == s
    decreases |s|
  {
    if s != [] {
      var n := CodePointLength(s);
      calc {
        Encode(Decode(s));
        { FlatMapCons(EncodeChar, DecodeChar(s), Decode(s[n..])); }
        EncodeChar(DecodeChar(s)) + Encode(Decode(s[n..]));
        { EncodeDecode(s[n..]); EncodeDecodeChar(s); }
        s[..n] + s[n..];
        s;
      }
    }
  }

  lemma EncodedLength(c: char, rest: Bytes)
    ensures CodePointLength(EncodeChar(c) + rest) == |EncodeChar(c)|
  {
    hide CodePointLength;
    var n := c as int;
    if n < 0x80 {
      OneByte(n, rest);
    } else if n < 0x800 {
      TwoBytes(n / 64, n % 64, rest);
    } else if n < 0x10000 {
      ThreeBytes(n / 4096, n / 64 % 64, n % 64, rest);
    } else {
      FourBytes(n / 262144, n / 4096 % 64, n / 64 % 64, n % 64, rest);
    }
  }

  lemma OneByte(a: int, rest: Bytes)
    requires 0 <= a < 0x80
    ensures CodePointLength([a] + rest) == 1
  {
  }

  lemma TwoBytes(a: int, b: int, rest: Bytes)
    requires 2 <= a < 32 && 0 <= b < 64
    ensures CodePointLength([0xC0 + a, 0x80 + b] + rest) == 2
  {
  }

  lemma ThreeBytes(a: int, b: int, c: int, rest: Bytes)
    requires 0 <= a < 16 && 0 <= b < 64 && 0 <= c < 64 && (a == 0 ==> 32 <= b) && (a == 13 ==> b < 32)
    ensures CodePointLength([0xE0 + a, 0x80 + b, 0x80 + c] + rest) == 3
  {
    var s := [0xE0 + a, 0x80 + b, 0x80 + c] + rest;
    assert s[0] == 0xE0 + a && s[1] == 0x80 + b && s[2] == 0x80 + c;
  }

  lemma FourBytes(a: int, b: int, c: int, d: int, rest: Bytes)
    requires 0 <= a < 5 && 0 <= b < 64 && 0 <= c < 64 && 0 <= d < 64 && (a == 0 ==> 16 <= b) && (a == 4 ==> b < 16)
    ensures CodePointLength([0xF0 + a, 0x80 + b, 0x80 + c, 0x80 + d] + rest) == 4
  {
    var s := [0xF0 + a, 0x80 + b, 0x80 + c, 0x80 + d] + rest;
    assert s[0] == 0xF0 + a && s[1] == 0x80 + b && s[2] == 0x80 + c && s[3] == 0x80 + d;
  }

  lemma Digits64(n: nat)
    ensures n == 64 * (n / 64) + n % 64
    ensures n / 64 == 64 * (n / 4096) + n / 64 % 64
    ensures n / 4096 == 64 * (n / 262144) + n / 4096 % 64
  {
    assert n / 4096 == n / 64 / 64;
    assert n / 262144 == n / 4096 / 64;
  }

  lemma EncodedScalar(c: char)
    ensures ScalarOf(EncodeChar(c)) == c as int
  {
    Digits64(c as int);
  }

  lemma CodePointOfEncoded(c: char, rest: Bytes)
    ensures CodePointLength(EncodeChar(c) + rest) == |EncodeChar(c)|
    ensures DecodeChar(EncodeChar(c) + rest) == c
  {
    EncodedLength(c, rest);
    EncodedScalar(c);
    var s, e := EncodeChar(c) + rest, EncodeChar(c);
    assert s[..|e|] == e;
  }

  /** Every text has a well-formed encoding that decodes back to it. */
  lemma {:induction false} DecodeEncode(t: string)
    ensures WellFormed(Encode(t)) && Decode(Encode(t)) == t
  {
    if t != [] {
      DecodeEncode(t[1..]);
      CodePointOfEncoded(t[0], Encode(t[1..]));
      assert Encode(t)[|EncodeChar(t[0])|..] == Encode(t[1..]);
      assert t == [t[0]] + t[1..];
    }
  }

  /** A position where no continuation byte follows. */
  predicate Boundary(s: Bytes, i: nat)
    requires i <= |s|
  {
    i == |s| || !Continuation(s[i])
  }

  lemma PrefixKeepsCodePoint(s: Bytes, i: nat)
    requires i <= |s|
    ensures CodePointLength(s) <= i ==> CodePointLength(s[..i]) == CodePointLength(s)
    ensures 0 < i < CodePointLength(s) ==> CodePointLength(s[..i]) == 0
  {
  }

  /** In a well-formed string the boundaries are exactly the cuts both of whose sides are well-formed. */
  lemma {:induction false} BoundarySplits(s: Bytes, i: nat)
    requires WellFormed(s) && i <= |s|
    ensures Boundary(s, i) <==> WellFormed(s[..i])
    ensures Boundary(s, i) ==> WellFormed(s[i..])
    decreases |s|
  {
    if i == 0 {
      assert s[..0] == [] && s[0..] == s;
    } else {
      var n := CodePointLength(s);
      PrefixKeepsCodePoint(s, i);
      if i >= n {
        BoundarySplits(s[n..], i - n);
        assert s[..i][n..] == s[n..][..i - n];
        assert s[i..] == s[n..][i - n..];
        if i < |s| { assert s[i] == s[n..][i - n]; }
      }
    }
  }
}
