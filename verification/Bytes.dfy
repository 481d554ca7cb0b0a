/** Byte strings as the Java code sees them: unsigned values, big-endian numbers, XOR. */
module Bytes {
  type byte = b: int | 0 <= b < 256

  const INT_MAX: int := 0x7fff_ffff
  const TWO_63: int := 0x8000_0000_0000_0000
  const TWO_64: int := 0x1_0000_0000_0000_0000

  /** Bitwise exclusive or of the low `bits` bits. */
  function XorBits(a: nat, b: nat, bits: nat): (x: nat) {
    if bits == 0 then 0
    else 2 * XorBits(a / 2, b / 2, bits - 1) + (if a % 2 == b % 2 then 0 else 1)
  }

  lemma {:induction false} XorBitsTwice(a: nat, b: nat, bits: nat)
    requires a < Pow2(bits)
    ensures XorBits(a, b, bits) < Pow2(bits)
    ensures XorBits(XorBits(a, b, bits), b, bits) == a
  {
    if bits > 0 {
      XorBitsTwice(a / 2, b / 2, bits - 1);
      var x := XorBits(a, b, bits);
      assert x / 2 == XorBits(a / 2, b / 2, bits - 1);
    }
  }

  function Pow2(k: nat): (p: nat)
    ensures p > 0
  {
    if k == 0 then 1 else 2 * Pow2(k - 1)
  }

  lemma {:induction false} XorIsByte(a: byte, b: byte)
    ensures XorBits(a, b, 8) < 256
    ensures XorBits(XorBits(a, b, 8), b, 8) == a
  {
    assert Pow2(8) == 256;
    XorBitsTwice(a, b, 8);
  }

  function Xor(a: byte, b: byte): byte {
    XorIsByte(a, b);
    XorBits(a, b, 8)
  }

  // ---------------------------------------------------------------- what an exclusive or is

  /** Binary digit i, the least significant one first. */
  function Bit(a: nat, i: nat): nat {
    a / Pow2(i) % 2
  }

  /** x has exactly the bits that are set in one of a and b and not in the other. */
  ghost predicate IsXor(x: byte, a: byte, b: byte) {
    forall i :: 0 <= i < 8 ==> Bit(x, i) == (Bit(a, i) + Bit(b, i)) % 2
  }

  lemma {:induction false} BitOfHalf(a: nat, i: nat)
    requires i > 0
    ensures Bit(a, i) == Bit(a / 2, i - 1)
  {
    var p := Pow2(i - 1);
    var q := a / 2;
    var u, v := q / p, q % p;
    assert q == u * p + v && a == 2 * q + a % 2;
    assert 2 * (u * p) == u * (2 * p);
    DivisionIsUnique(a, 2 * p, u, 2 * v + a % 2);
  }

  lemma {:induction false} XorBitsDigit(a: nat, b: nat, bits: nat, i: nat)
    requires i < bits
    ensures Bit(XorBits(a, b, bits), i) == (Bit(a, i) + Bit(b, i)) % 2
    decreases bits
  {
    var x := XorBits(a, b, bits);
    assert x / 2 == XorBits(a / 2, b / 2, bits - 1);
    if i > 0 {
      XorBitsDigit(a / 2, b / 2, bits - 1, i - 1);
      BitOfHalf(x, i);
      BitOfHalf(a, i);
      BitOfHalf(b, i);
    }
  }

  lemma {:induction false} XorIsXor(a: byte, b: byte)
    ensures IsXor(Xor(a, b), a, b)
  {
    forall i | 0 <= i < 8 ensures Bit(Xor(a, b), i) == (Bit(a, i) + Bit(b, i)) % 2 { XorBitsDigit(a, b, 8, i); }
  }

  /** Numbers with the same digits are the same. */
  lemma {:induction false} SameBits(a: nat, b: nat, bits: nat)
    requires a < Pow2(bits) && b < Pow2(bits) && forall i :: 0 <= i < bits ==> Bit(a, i) == Bit(b, i)
    ensures a == b
    decreases bits
  {
    if bits > 0 {
      forall i | 0 <= i < bits - 1 ensures Bit(a / 2, i) == Bit(b / 2, i) {
        BitOfHalf(a, i + 1);
        BitOfHalf(b, i + 1);
      }
      SameBits(a / 2, b / 2, bits - 1);
      assert Bit(a, 0) == a % 2 && Bit(b, 0) == b % 2;
    }
  }

  lemma {:induction false} OnlyXor(x: byte, a: byte, b: byte)
    ensures IsXor(x, a, b) <==> x == Xor(a, b)
  {
    XorIsXor(a, b);
    if IsXor(x, a, b) {
      assert Pow2(8) == 256;
      forall i | 0 <= i < 8 ensures Bit(x, i) == Bit(Xor(a, b), i) {}
      SameBits(x, Xor(a, b), 8);
    }
  }

  /** The unsigned number that `s` spells, most significant byte first. */
  function Value(s: seq<byte>): nat {
    if s == [] then 0 else Value(s[..|s| - 1]) * 256 + s[|s| - 1]
  }

  /** The last `count` base-256 digits of `val`, most significant first. */
  function BigEndian(val: nat, count: nat): (s: seq<byte>)
    ensures |s| == count
  {
    if count == 0 then [] else BigEndian(val / 256, count - 1) + [val % 256]
  }

  function Pow256(k: nat): (p: nat)
    ensures p > 0
  {
    if k == 0 then 1 else 256 * Pow256(k - 1)
  }

  lemma {:induction false} ValueOfBigEndian(val: nat, count: nat)
    ensures Value(BigEndian(val, count)) == val % Pow256(count)
  {
    if count > 0 {
      ValueOfBigEndian(val / 256, count - 1);
      var s := BigEndian(val, count);
      assert s[..|s| - 1] == BigEndian(val / 256, count - 1);
      ModSplit(val, Pow256(count - 1));
    }
  }

  /** One digit of mixed-radix division: what `% (256 * p)` keeps of a number. */
  lemma {:induction false} ModSplit(val: nat, p: nat)
    requires p > 0
    ensures val / 256 % p * 256 + val % 256 == val % (256 * p)
  {
    var q, r := val / 256, val % 256;
    var u, v := q / p, q % p;
    assert val == 256 * q + r && q == u * p + v;
    assert val == u * (256 * p) + (256 * v + r) by {
      assert 256 * (u * p) == u * (256 * p);
    }
    assert 0 <= 256 * v + r < 256 * p by { assert v <= p - 1; assert 256 * v <= 256 * (p - 1); }
    DivisionIsUnique(val, 256 * p, u, 256 * v + r);
  }

  lemma {:induction false} DivisionIsUnique(x: nat, m: nat, q: nat, r: nat)
    requires m > 0 && x == q * m + r && r < m
    ensures x % m == r && x / m == q
  {
    var d := x / m - q;
    DivisionIdentity(x, m);
    assert (x / m) * m - q * m == d * m;
    assert d * m == r - x % m;
    if d > 0 { ProductAtLeast(d, m); }
    if d < 0 { assert (-d) * m == -(d * m); ProductAtLeast(-d, m); }
  }

  lemma DivisionIdentity(x: nat, m: nat)
    requires m > 0
    ensures x == (x / m) * m + x % m && 0 <= x % m < m
  {}

  lemma {:induction false} ProductAtLeast(d: int, m: nat)
    requires d >= 1
    ensures d * m >= m
  {
    assert (d - 1) * m >= 0;
  }

  /** Digit i, counted from the most significant, is what an unsigned shift by whole bytes leaves. */
  lemma {:induction false} BigEndianDigit(val: nat, count: nat, i: nat)
    requires i < count
    ensures BigEndian(val, count)[i] == val / Pow256(count - 1 - i) % 256
  {
    if i < count - 1 {
      BigEndianDigit(val / 256, count - 1, i);
      var p := Pow256(count - 2 - i);
      DivDiv(val, p);
      assert Pow256(count - 1 - i) == 256 * p;
    }
  }

  lemma {:induction false} DivDiv(val: nat, p: nat)
    requires p > 0
    ensures val / 256 / p == val / (256 * p)
  {
    var q, r := val / 256, val % 256;
    var u, v := q / p, q % p;
    assert val == u * (256 * p) + (256 * v + r) by {
      assert q == u * p + v;
      assert 256 * (u * p) == u * (256 * p);
    }
    assert 256 * v + r < 256 * p by { assert v <= p - 1; }
    DivisionIsUnique(val, 256 * p, u, 256 * v + r);
  }

  lemma {:induction false} ValueBound(s: seq<byte>)
    ensures Value(s) < Pow256(|s|)
  {
    if s != [] {
      ValueBound(s[..|s| - 1]);
    }
  }
}
