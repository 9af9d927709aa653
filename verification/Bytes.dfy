/** Machine integers, byte sequences, fixed-width integer codecs and UTF-8 validity. */
module Bytes {
  type byte = x: int | 0 <= x < 0x100
  type u16 = x: int | 0 <= x < 0x1_0000
  type u32 = x: int | 0 <= x < 0x1_0000_0000
  type u64 = x: int | 0 <= x < 0x1_0000_0000_0000_0000
  type i64 = x: int | -0x8000_0000_0000_0000 <= x < 0x8000_0000_0000_0000

  const U32_MAX: u32 := 0xFFFF_FFFF
  const PAGE_SIZE: nat := 8192

  function Min(a: int, b: int): int { if a <= b then a else b }

  function Max(a: int, b: int): int { if a >= b then a else b }

  // ---- Fixed-width integers -------------------------------------------------

  function Pow256(n: nat): nat {
    if n == 0 then 1 else 256 * Pow256(n - 1)
  }

  /** The low `n` bytes of `x`, least significant first (`to_le_bytes`). */
  function LE(x: nat, n: nat): (b: seq<byte>)
    ensures |b| == n
  {
    if n == 0 then [] else [x % 256] + LE(x / 256, n - 1)
  }

  /** `from_le_bytes`. */
  function FromLE(b: seq<byte>): nat {
    if b == [] then 0 else b[0] + 256 * FromLE(b[1..])
  }

  lemma {:induction false} FromLEBound(b: seq<byte>)
    ensures FromLE(b) < Pow256(|b|)
  {
    if b != [] { FromLEBound(b[1..]); }
  }

  lemma {:induction false} LERoundTrip(x: nat, n: nat)
    requires x < Pow256(n)
    ensures FromLE(LE(x, n)) == x
  {
    if n != 0 {
      LERoundTrip(x / 256, n - 1);
      assert LE(x, n)[1..] == LE(x / 256, n - 1);
    }
  }

  lemma WidthBounds()
    ensures Pow256(2) == 0x1_0000
    ensures Pow256(4) == 0x1_0000_0000
    ensures Pow256(8) == 0x1_0000_0000_0000_0000
  {
    assert Pow256(2) == 256 * 256;
    assert Pow256(4) == 256 * (256 * Pow256(2));
    assert Pow256(6) == 256 * (256 * Pow256(4));
    assert Pow256(8) == 256 * (256 * Pow256(6));
  }

  function U16Bytes(x: u16): (b: seq<byte>) ensures |b| == 2 { LE(x, 2) }

  function U32Bytes(x: u32): (b: seq<byte>) ensures |b| == 4 { LE(x, 4) }

  function U64Bytes(x: u64): (b: seq<byte>) ensures |b| == 8 { LE(x, 8) }

  function U16Of(b: seq<byte>): (x: u16)
    requires |b| == 2
  {
    FromLEBound(b); WidthBounds();
    FromLE(b)
  }

  function U32Of(b: seq<byte>): (x: u32)
    requires |b| == 4
  {
    FromLEBound(b); WidthBounds();
    FromLE(b)
  }

  function U64Of(b: seq<byte>): (x: u64)
    requires |b| == 8
  {
    FromLEBound(b); WidthBounds();
    FromLE(b)
  }

  lemma U16RoundTrip(x: u16)
    ensures U16Of(U16Bytes(x)) == x
  {
    WidthBounds(); LERoundTrip(x, 2);
  }

  lemma U32RoundTrip(x: u32)
    ensures U32Of(U32Bytes(x)) == x
  {
    WidthBounds(); LERoundTrip(x, 4);
  }

  lemma U64RoundTrip(x: u64)
    ensures U64Of(U64Bytes(x)) == x
  {
    WidthBounds(); LERoundTrip(x, 8);
  }

  /** Two's-complement image of a signed word. */
  function I64Bytes(i: i64): (b: seq<byte>)
    ensures |b| == 8
  {
    U64Bytes(if i < 0 then i + 0x1_0000_0000_0000_0000 else i)
  }

  function I64Of(b: seq<byte>): (i: i64)
    requires |b| == 8
  {
    var u := U64Of(b);
    if u < 0x8000_0000_0000_0000 then u else u - 0x1_0000_0000_0000_0000
  }

  lemma I64RoundTrip(i: i64)
    ensures I64Of(I64Bytes(i)) == i
  {
    U64RoundTrip(if i < 0 then i + 0x1_0000_0000_0000_0000 else i);
  }

  /** `to_be_bytes` of a 32-bit word. */
  function U32BytesBE(x: u32): (b: seq<byte>)
    ensures |b| == 4
  {
    var l := LE(x, 4);
    [l[3], l[2], l[1], l[0]]
  }

  function U32OfBE(b: seq<byte>): (x: u32)
    requires |b| == 4
  {
    U32Of([b[3], b[2], b[1], b[0]])
  }

  lemma U32BERoundTrip(x: u32)
    ensures U32OfBE(U32BytesBE(x)) == x
  {
    var b, l := U32BytesBE(x), LE(x, 4);
    assert [b[3], b[2], b[1], b[0]] == l;
    U32RoundTrip(x);
  }

  function Zeros(n: nat): (b: seq<byte>)
    ensures |b| == n
  {
    seq(n, _ => 0)
  }

  // ---- UTF-8 ---------------------------------------------------------------

  predicate Cont(b: byte) { 0x80 <= b <= 0xBF }

  /** Well-formed UTF-8 (section 4 of RFC 3629), the check made by `String::from_utf8`. */
  predicate ValidUtf8(b: seq<byte>) {
    if b == [] then true
    else if b[0] <= 0x7F then ValidUtf8(b[1..])
    else if 0xC2 <= b[0] <= 0xDF then
      |b| >= 2 && Cont(b[1]) && ValidUtf8(b[2..])
    else if 0xE0 <= b[0] <= 0xEF then
      |b| >= 3 && Cont(b[1]) && Cont(b[2])
      && (b[0] == 0xE0 ==> b[1] >= 0xA0) && (b[0] == 0xED ==> b[1] <= 0x9F)
      && ValidUtf8(b[3..])
    else if 0xF0 <= b[0] <= 0xF4 then
      |b| >= 4 && Cont(b[1]) && Cont(b[2]) && Cont(b[3])
      && (b[0] == 0xF0 ==> b[1] >= 0x90) && (b[0] == 0xF4 ==> b[1] <= 0x8F)
      && ValidUtf8(b[4..])
    else false
  }

  /** A Rust `String`, kept as its bytes. */
  type Utf8 = b: seq<byte> | ValidUtf8(b)

  /** A Unicode scalar value. */
  predicate ScalarValue(c: nat) { c < 0xD800 || 0xE000 <= c < 0x11_0000 }

  /** Its bytes (section 3 of RFC 3629). */
  function Utf8Bytes(c: nat): (b: seq<byte>)
    requires ScalarValue(c)
    ensures b != []
  {
    if c < 0x80 then [c]
    else if c < 0x800 then [0xC0 + c / 64, 0x80 + c % 64]
    else if c < 0x1_0000 then [0xE0 + c / 4096, 0x80 + c / 64 % 64, 0x80 + c % 64]
    else [0xF0 + c / 26_2144, 0x80 + c / 4096 % 64, 0x80 + c / 64 % 64, 0x80 + c % 64]
  }

  ghost predicate ScalarValues(cs: seq<nat>) { forall i :: 0 <= i < |cs| ==> ScalarValue(cs[i]) }

  ghost function Utf8Text(cs: seq<nat>): seq<byte>
    requires ScalarValues(cs)
  {
    if cs == [] then [] else Utf8Bytes(cs[0]) + Utf8Text(cs[1..])
  }

  /** What every sequence of scalar values gives is accepted. */
  lemma {:induction false} Utf8Sound(cs: seq<nat>)
    requires ScalarValues(cs)
    ensures ValidUtf8(Utf8Text(cs))
  {
    if cs != [] {
      Utf8Sound(cs[1..]);
      Utf8Front(cs[0], Utf8Text(cs[1..]));
    }
  }

  lemma Utf8Front(c: nat, rest: seq<byte>)
    requires ScalarValue(c) && ValidUtf8(rest)
    ensures ValidUtf8(Utf8Bytes(c) + rest)
  {
    var front := Utf8Bytes(c);
    var b := front + rest;
    assert b[|front|..] == rest;
  }

  /** Nothing else is accepted. */
  lemma {:induction false} Utf8Complete(b: seq<byte>) returns (cs: seq<nat>)
    requires ValidUtf8(b)
    ensures ScalarValues(cs) && Utf8Text(cs) == b
    decreases |b|
  {
    if b == [] {
      cs := [];
    } else {
      var c, n := FirstScalar(b);
      var rest := Utf8Complete(b[n..]);
      cs := [c] + rest;
      assert cs[1..] == rest && b == b[..n] + b[n..];
    }
  }

  lemma Sextets(x: nat, y: nat)
    requires y < 64
    ensures (64 * x + y) / 64 == x && (64 * x + y) % 64 == y
  {
  }

  lemma TwoBytes(p: byte, q: byte) returns (c: nat)
    requires 0xC2 <= p <= 0xDF && Cont(q)
    ensures ScalarValue(c) && Utf8Bytes(c) == [p, q]
  {
    var x: nat := p - 0xC0;
    c := 64 * x + (q - 0x80);
    Sextets(x, q - 0x80);
  }

  lemma ThreeBytes(p: byte, q: byte, r: byte) returns (c: nat)
    requires 0xE0 <= p <= 0xEF && Cont(q) && Cont(r) && (p == 0xE0 ==> q >= 0xA0) && (p == 0xED ==> q <= 0x9F)
    ensures ScalarValue(c) && Utf8Bytes(c) == [p, q, r]
  {
    var head: nat := p - 0xE0;
    var x: nat := 64 * head + (q - 0x80);
    c := 64 * x + (r - 0x80);
    Sextets(x, r - 0x80);
    Sextets(head, q - 0x80);
    assert c / 4096 == c / 64 / 64;
  }

  lemma FourBytes(p: byte, q: byte, r: byte, s: byte) returns (c: nat)
    requires 0xF0 <= p <= 0xF4 && Cont(q) && Cont(r) && Cont(s) && (p == 0xF0 ==> q >= 0x90) && (p == 0xF4 ==> q <= 0x8F)
    ensures ScalarValue(c) && Utf8Bytes(c) == [p, q, r, s]
  {
    var head: nat := p - 0xF0;
    var x: nat := 64 * head + (q - 0x80);
    var y: nat := 64 * x + (r - 0x80);
    c := 64 * y + (s - 0x80);
    Sextets(y, s - 0x80);
    Sextets(x, r - 0x80);
    Sextets(head, q - 0x80);
    assert c / 4096 == c / 64 / 64 && c / 26_2144 == c / 64 / 64 / 64;
  }

  lemma FirstScalar(b: seq<byte>) returns (c: nat, n: nat)
    requires ValidUtf8(b) && b != []
    ensures 0 < n <= |b| && ScalarValue(c) && Utf8Bytes(c) == b[..n] && ValidUtf8(b[n..])
  {
    hide Utf8Bytes, ScalarValue;
    if b[0] <= 0x7F {
      c, n := b[0], 1;
      OneByte(b[0]);
      assert b[..1] == [b[0]];
    } else if b[0] <= 0xDF {
      c := TwoBytes(b[0], b[1]);
      n := 2;
      assert b[..2] == [b[0], b[1]];
    } else if b[0] <= 0xEF {
      c := ThreeBytes(b[0], b[1], b[2]);
      n := 3;
      assert b[..3] == [b[0], b[1], b[2]];
    } else {
      c := FourBytes(b[0], b[1], b[2], b[3]);
      n := 4;
      assert b[..4] == [b[0], b[1], b[2], b[3]];
    }
  }

  lemma OneByte(p: byte)
    requires p <= 0x7F
    ensures ScalarValue(p) && Utf8Bytes(p) == [p]
  {
  }

  // ---- Lexicographic order on byte strings -----------------------------------

  predicate LexLess(a: seq<byte>, b: seq<byte>) {
    if b == [] then false
    else if a == [] then true
    else a[0] < b[0] || (a[0] == b[0] && LexLess(a[1..], b[1..]))
  }

  /** The first byte in which they differ is smaller, or the first string ends there. */
  ghost predicate FirstSmaller(a: seq<byte>, b: seq<byte>, k: nat) {
    k <= |a| && k < |b| && a[..k] == b[..k] && (k == |a| || a[k] < b[k])
  }

  lemma SameHeads(a: seq<byte>, b: seq<byte>, k: nat)
    requires FirstSmaller(a, b, k)
    ensures k > 0 ==> a != [] && b != [] && a[0] == b[0]
  {
    if k > 0 { assert a[0] == a[..k][0] && b[0] == b[..k][0]; }
  }

  lemma {:induction false} LexIff(a: seq<byte>, b: seq<byte>)
    ensures LexLess(a, b) <==> exists k: nat :: FirstSmaller(a, b, k)
  {
    if a != [] && b != [] && a[0] == b[0] {
      LexIff(a[1..], b[1..]);
      if k: nat :| FirstSmaller(a[1..], b[1..], k) {
        assert a[..k + 1] == [a[0]] + a[1..][..k] && b[..k + 1] == [b[0]] + b[1..][..k];
        assert FirstSmaller(a, b, k + 1);
      }
      if k: nat :| FirstSmaller(a, b, k) {
        assert k > 0 && a[1..][..k - 1] == a[..k][1..] && b[1..][..k - 1] == b[..k][1..];
        assert FirstSmaller(a[1..], b[1..], k - 1);
      }
    } else if b != [] {
      if LexLess(a, b) { assert FirstSmaller(a, b, 0); }
      if k: nat :| FirstSmaller(a, b, k) { SameHeads(a, b, k); }
    }
  }

  lemma {:induction false} LexTransitive(a: seq<byte>, b: seq<byte>, c: seq<byte>)
    requires LexLess(a, b) && LexLess(b, c)
    ensures LexLess(a, c)
  {
    if a != [] && a[0] == b[0] && b[0] == c[0] {
      LexTransitive(a[1..], b[1..], c[1..]);
    }
  }

  lemma {:induction false} LexIrreflexive(a: seq<byte>)
    ensures !LexLess(a, a)
  {
    if a != [] { LexIrreflexive(a[1..]); }
  }

  lemma {:induction false} LexTotal(a: seq<byte>, b: seq<byte>)
    ensures a == b || LexLess(a, b) || LexLess(b, a)
  {
    if a != [] && b != [] && a[0] == b[0] {
      LexTotal(a[1..], b[1..]);
      if a[1..] == b[1..] {
        assert a == [a[0]] + a[1..] && b == [b[0]] + b[1..];
      }
    }
  }
}
