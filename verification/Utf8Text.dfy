/**
  Well-formed UTF-8 is what encoding Unicode scalar values gives, and nothing else.
 */
module Utf8Text {
  import opened Bytes
  import opened Utf8

  /** A code point that is not a surrogate. */
  predicate IsScalarValue(cp: nat) {
    cp < 0xD800 || 0xE000 <= cp < 0x11_0000
  }

  function Encode(cp: nat): (b: seq<byte>)
    requires IsScalarValue(cp)
    ensures 1 <= |b| <= 4
  {
    if cp < 0x80 then [cp]
    else if cp < 0x800 then [0xC0 + cp / 0x40, 0x80 + cp % 0x40]
    else if cp < 0x1_0000 then [0xE0 + cp / 0x1000, 0x80 + cp / 0x40 % 0x40, 0x80 + cp % 0x40]
    else [0xF0 + cp / 0x4_0000, 0x80 + cp / 0x1000 % 0x40, 0x80 + cp / 0x40 % 0x40, 0x80 + cp % 0x40]
  }

  predicate AreScalarValues(cps: seq<nat>) {
    forall i :: 0 <= i < |cps| ==> IsScalarValue(cps[i])
  }

  function EncodeAll(cps: seq<nat>): seq<byte>
    requires AreScalarValues(cps)
  {
    if cps == [] then [] else Encode(cps[0]) + EncodeAll(cps[1..])
  }

  lemma EncodedIsChar(cp: nat, rest: seq<byte>)
    requires IsScalarValue(cp)
    ensures CharLen(Encode(cp) + rest) == |Encode(cp)|
  {
    var t := Encode(cp) + rest;
    if 0x800 <= cp < 0x1_0000 {
      ThreeBytes(cp);
      assert t[0] == 0xE0 + cp / 0x1000 && t[1] == 0x80 + cp / 0x40 % 0x40 && t[2] == 0x80 + cp % 0x40;
    } else if cp >= 0x1_0000 {
      FourBytes(cp);
      assert t[0] == 0xF0 + cp / 0x4_0000 && t[1] == 0x80 + cp / 0x1000 % 0x40;
      assert t[2] == 0x80 + cp / 0x40 % 0x40 && t[3] == 0x80 + cp % 0x40;
    }
  }

  lemma ThreeBytes(cp: nat)
    requires 0x800 <= cp < 0x1_0000 && IsScalarValue(cp)
    ensures cp / 0x1000 < 0x10 && cp / 0x40 % 0x40 < 0x40 && cp % 0x40 < 0x40
    ensures cp / 0x1000 == 0 ==> cp / 0x40 % 0x40 >= 0x20
    ensures cp / 0x1000 == 0xD ==> cp / 0x40 % 0x40 < 0x20
  {
    var m := cp / 0x40;
    assert cp / 0x1000 == m / 0x40;
  }

  lemma FourBytes(cp: nat)
    requires 0x1_0000 <= cp < 0x11_0000
    ensures cp / 0x4_0000 <= 4 && cp / 0x1000 % 0x40 < 0x40 && cp / 0x40 % 0x40 < 0x40 && cp % 0x40 < 0x40
    ensures cp / 0x4_0000 == 0 ==> cp / 0x1000 % 0x40 >= 0x10
    ensures cp / 0x4_0000 == 4 ==> cp / 0x1000 % 0x40 < 0x10
  {
    var m := cp / 0x1000;
    assert cp / 0x4_0000 == m / 0x40;
  }

  /** The scalar value a text starts with. */
  lemma CharIsEncoded(t: seq<byte>) returns (cp: nat)
    requires CharLen(t) > 0
    ensures IsScalarValue(cp) && Encode(cp) == t[..CharLen(t)]
  {
    var n := CharLen(t);
    if n == 1 {
      cp := t[0];
    } else if n == 2 {
      cp := TwoDigits(t[0] - 0xC0, t[1] - 0x80);
    } else if n == 3 {
      cp := ThreeDigits(t[0] - 0xE0, t[1] - 0x80, t[2] - 0x80);
    } else {
      cp := FourDigits(t[0] - 0xF0, t[1] - 0x80, t[2] - 0x80, t[3] - 0x80);
    }
  }

  lemma TwoDigits(a: nat, b: nat) returns (cp: nat)
    requires a < 0x20 && b < 0x40
    ensures cp == 0x40 * a + b && cp / 0x40 == a && cp % 0x40 == b
  {
    cp := 0x40 * a + b;
  }

  lemma ThreeDigits(a: nat, b: nat, d: nat) returns (cp: nat)
    requires a < 0x10 && b < 0x40 && d < 0x40
    ensures cp == 0x1000 * a + 0x40 * b + d && cp / 0x1000 == a && cp / 0x40 % 0x40 == b && cp % 0x40 == d
  {
    cp := 0x1000 * a + 0x40 * b + d;
    var m := 0x40 * a + b;
    assert cp == 0x40 * m + d;
    assert cp / 0x40 == m && m / 0x40 == a && m % 0x40 == b;
  }

  lemma FourDigits(a: nat, b: nat, d: nat, e: nat) returns (cp: nat)
    requires a < 0x8 && b < 0x40 && d < 0x40 && e < 0x40
    ensures cp == 0x4_0000 * a + 0x1000 * b + 0x40 * d + e
    ensures cp / 0x4_0000 == a && cp / 0x1000 % 0x40 == b && cp / 0x40 % 0x40 == d && cp % 0x40 == e
  {
    cp := 0x4_0000 * a + 0x1000 * b + 0x40 * d + e;
    var m := 0x40 * a + b;
    var k := 0x40 * m + d;
    assert cp == 0x40 * k + e;
    assert cp / 0x40 == k && k / 0x40 == m && k % 0x40 == d;
    assert cp / 0x1000 == m && m / 0x40 == a && m % 0x40 == b;
  }

  lemma {:induction false} EncodedIsText(cps: seq<nat>)
    requires AreScalarValues(cps)
    ensures IsUtf8(EncodeAll(cps))
    decreases |cps|
  {
    if cps != [] {
      var b, rest := Encode(cps[0]), EncodeAll(cps[1..]);
      EncodedIsChar(cps[0], rest);
      EncodedIsText(cps[1..]);
      hide Encode, CharLen;
      assert (b + rest)[|b|..] == rest;
    }
  }

  lemma {:induction false} TextIsEncoded(t: seq<byte>) returns (cps: seq<nat>)
    requires IsUtf8(t)
    ensures AreScalarValues(cps) && t == EncodeAll(cps)
    decreases |t|
  {
    hide Encode, CharLen, IsScalarValue;
    if t == [] {
      cps := [];
    } else {
      var n := CharLen(t);
      var cp := CharIsEncoded(t);
      var rest := TextIsEncoded(t[n..]);
      cps := [cp] + rest;
      assert cps[1..] == rest && t == t[..n] + t[n..];
    }
  }

  lemma TextIff(t: seq<byte>)
    ensures IsUtf8(t) <==> exists cps :: AreScalarValues(cps) && t == EncodeAll(cps)
  {
    hide IsUtf8, EncodeAll, AreScalarValues;
    if IsUtf8(t) {
      var cps := TextIsEncoded(t);
      assert AreScalarValues(cps) && t == EncodeAll(cps);
    }
    if cps :| AreScalarValues(cps) && t == EncodeAll(cps) {
      EncodedIsText(cps);
    }
  }
}
