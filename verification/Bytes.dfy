/**
  Bytes, fixed-width integers in either byte order, and CDR alignment.
 */
module Bytes {

  type byte = x: int | 0 <= x < 256

  /** The number of values that fit in `w` bytes. */
  function Pow256(w: nat): (p: nat)
    ensures p >= 1
  {
    if w == 0 then 1 else 256 * Pow256(w - 1)
  }

  function Reverse<T>(s: seq<T>): (r: seq<T>)
    ensures |r| == |s|
    ensures forall i :: 0 <= i < |s| ==> r[i] == s[|s| - 1 - i]
  {
    seq(|s|, i requires 0 <= i < |s| => s[|s| - 1 - i])
  }

  /** The low `w` bytes of `n`, least significant first: what a cast to a narrower unsigned type keeps. */
  function LeBytes(n: nat, w: nat): (b: seq<byte>)
    ensures |b| == w
  {
    if w == 0 then [] else [n % 256] + LeBytes(n / 256, w - 1)
  }

  function FromLe(b: seq<byte>): (n: nat)
  {
    if b == [] then 0 else b[0] + 256 * FromLe(b[1..])
  }

  /** The wire form of the low `w` bytes of `n`. */
  function Put(n: nat, w: nat, le: bool): (b: seq<byte>)
    ensures |b| == w
  {
    if le then LeBytes(n, w) else Reverse(LeBytes(n, w))
  }

  function Get(b: seq<byte>, le: bool): (n: nat)
  {
    FromLe(if le then b else Reverse(b))
  }

  function Zeros(n: nat): (z: seq<byte>)
    ensures |z| == n
    ensures forall i :: 0 <= i < n ==> z[i] == 0
  {
    seq(n, i => 0)
  }

  lemma {:induction false} LeZeros(w: nat)
    ensures LeBytes(0, w) == Zeros(w)
  {
    if w > 0 {
      LeZeros(w - 1);
    }
  }

  lemma {:induction false} FromLeOfLeBytes(n: nat, w: nat)
    requires n < Pow256(w)
    ensures FromLe(LeBytes(n, w)) == n
  {
    if w > 0 {
      FromLeOfLeBytes(n / 256, w - 1);
      assert LeBytes(n, w)[1..] == LeBytes(n / 256, w - 1);
    }
  }

  lemma {:induction false} LeBytesOfFromLe(b: seq<byte>)
    ensures FromLe(b) < Pow256(|b|)
    ensures LeBytes(FromLe(b), |b|) == b
  {
    if b != [] {
      LeBytesOfFromLe(b[1..]);
      LowByte(b[0], FromLe(b[1..]));
      assert b == [b[0]] + b[1..];
    }
  }

  lemma LowByte(b: byte, m: nat)
    ensures (b + 256 * m) % 256 == b && (b + 256 * m) / 256 == m
  {
  }

  /** Reading back what was put returns it, in either byte order. */
  lemma GetPut(n: nat, w: nat, le: bool)
    requires n < Pow256(w)
    ensures Get(Put(n, w, le), le) == n
  {
    FromLeOfLeBytes(n, w);
    assert Reverse(Reverse(LeBytes(n, w))) == LeBytes(n, w);
  }

  /** Every byte string is the image of the number read from it. */
  lemma PutGet(b: seq<byte>, le: bool)
    ensures Get(b, le) < Pow256(|b|)
    ensures Put(Get(b, le), |b|, le) == b
  {
    var d := if le then b else Reverse(b);
    LeBytesOfFromLe(d);
    assert Reverse(Reverse(b)) == b;
  }

  lemma PowValues()
    ensures Pow256(1) == 0x100 && Pow256(2) == 0x1_0000 && Pow256(4) == 0x1_0000_0000
    ensures Pow256(8) == 0x1_0000_0000_0000_0000
  {
    assert Pow256(3) == 0x100_0000;
    assert Pow256(5) == 0x100_0000_0000;
    assert Pow256(6) == 0x1_0000_0000_0000;
    assert Pow256(7) == 0x100_0000_0000_0000;
  }

  /** A `w`-byte two's complement number. */
  function ToSigned(n: nat, w: nat): int {
    if 2 * n < Pow256(w) then n else n - Pow256(w)
  }

  predicate FitsSigned(x: int, w: nat) {
    0 <= 2 * x + Pow256(w) && 2 * x < Pow256(w)
  }

  /** What a cast to the unsigned type makes of it. */
  function FromSigned(x: int, w: nat): nat
    requires FitsSigned(x, w)
  {
    if x >= 0 then x else x + Pow256(w)
  }

  lemma SignedBack(x: int, w: nat)
    requires FitsSigned(x, w)
    ensures FromSigned(x, w) < Pow256(w) && ToSigned(FromSigned(x, w), w) == x
  {
    hide Pow256;
  }

  predicate IsWidth(w: nat) {
    w == 1 || w == 2 || w == 4 || w == 8 || w == 16
  }

  /** The padding that brings `sp` to a multiple of `a`, for a in {1, 2, 4, 8}. */
  function PadTo(sp: nat, a: nat): (p: nat)
    ensures a == 8 ==> p < 8 && (sp + p) % 8 == 0
    ensures a == 4 ==> p < 4 && (sp + p) % 4 == 0
    ensures a == 2 ==> p < 2 && (sp + p) % 2 == 0
    ensures a < 2 ==> p == 0
  {
    if a == 8 then NextMultiple8(sp); (if sp % 8 == 0 then 0 else 8 - sp % 8)
    else if a == 4 then NextMultiple4(sp); (if sp % 4 == 0 then 0 else 4 - sp % 4)
    else if a == 2 then NextMultiple2(sp); sp % 2
    else 0
  }

  lemma NextMultiple8(sp: nat)
    ensures sp % 8 < 8 && (sp + (8 - sp % 8)) % 8 == 0
  {
    var q := sp / 8;
    assert sp + (8 - sp % 8) == 8 * (q + 1);
  }

  lemma NextMultiple4(sp: nat)
    ensures sp % 4 < 4 && (sp + (4 - sp % 4)) % 4 == 0
  {
    var q := sp / 4;
    assert sp + (4 - sp % 4) == 4 * (q + 1);
  }

  lemma NextMultiple2(sp: nat)
    ensures sp % 2 < 2 && (sp + sp % 2) % 2 == 0
  {
    var q := sp / 2;
    assert sp + sp % 2 == 2 * (q + sp % 2);
  }

  /** Rounding up as the codec writes it. */
  lemma RoundUp(sp: nat, a: nat)
    requires a == 2 || a == 4 || a == 8
    ensures (sp + a - 1) / a * a - sp == PadTo(sp, a)
  {
    hide PadTo;
    if a == 8 {
      RoundUp8(sp);
    } else if a == 4 {
      RoundUp4(sp);
    } else {
      RoundUp2(sp);
    }
  }

  lemma RoundUp8(sp: nat)
    ensures (sp + 7) / 8 * 8 - sp == PadTo(sp, 8)
  {
    var q, r := sp / 8, sp % 8;
    assert sp == 8 * q + r;
    if r == 0 { Quotient8(sp + 7, q, 7); } else { Quotient8(sp + 7, q + 1, r - 1); }
  }

  lemma RoundUp4(sp: nat)
    ensures (sp + 3) / 4 * 4 - sp == PadTo(sp, 4)
  {
    var q, r := sp / 4, sp % 4;
    assert sp == 4 * q + r;
    if r == 0 { Quotient4(sp + 3, q, 3); } else { Quotient4(sp + 3, q + 1, r - 1); }
  }

  lemma RoundUp2(sp: nat)
    ensures (sp + 1) / 2 * 2 - sp == PadTo(sp, 2)
  {
    var q, r := sp / 2, sp % 2;
    assert sp == 2 * q + r;
    if r == 0 { Quotient2(sp + 1, q, 1); } else { Quotient2(sp + 1, q + 1, 0); }
  }

  lemma Quotient8(x: int, q: int, r: int)
    requires x == 8 * q + r && 0 <= r < 8
    ensures x / 8 == q && x % 8 == r
  {
  }

  lemma Quotient4(x: int, q: int, r: int)
    requires x == 4 * q + r && 0 <= r < 4
    ensures x / 4 == q && x % 4 == r
  {
  }

  lemma Quotient2(x: int, q: int, r: int)
    requires x == 2 * q + r && 0 <= r < 2
    ensures x / 2 == q && x % 2 == r
  {
  }
}
