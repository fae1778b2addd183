/**
  Storing fixed-width integers into a byte buffer, byte by byte in the stream's order.
 */
module RawStores {
  import opened Bytes

  /** `b` laid over `s` at `at`. */
  function Overlay(s: seq<byte>, at: nat, b: seq<byte>): (r: seq<byte>)
    requires at + |b| <= |s|
    ensures |r| == |s|
  {
    s[..at] + b + s[at + |b|..]
  }

  lemma Le2(v: nat)
    ensures LeBytes(v, 2) == [v % 256, (v / 0x100) % 256]
  {
    assert LeBytes(v / 256, 1) == [(v / 256) % 256] + LeBytes(v / 256 / 256, 0);
  }

  lemma Le4(v: nat)
    ensures LeBytes(v, 4) == [v % 256, (v / 0x100) % 256, (v / 0x1_0000) % 256, (v / 0x100_0000) % 256]
  {
    Le2(v);
    Le2(v / 0x1_0000);
    Shift2(v, 2);
    assert v / 0x1_0000 / 0x100 == v / 0x100_0000;
  }

  lemma Le8(v: nat)
    ensures LeBytes(v, 8) ==
            [v % 256, (v / 0x100) % 256, (v / 0x1_0000) % 256, (v / 0x100_0000) % 256,
             (v / 0x1_0000_0000) % 256, (v / 0x100_0000_0000) % 256,
             (v / 0x1_0000_0000_0000) % 256, (v / 0x100_0000_0000_0000) % 256]
  {
    Le4(v);
    Le4(v / 0x1_0000_0000);
    Shift2(v, 6);
    Shift2(v / 0x1_0000, 4);
    Le2(v);
    Le2(v / 0x1_0000);
    Shift2(v, 2);
    assert v / 0x1_0000 / 0x1_0000 == v / 0x1_0000_0000;
    assert v / 0x1_0000_0000 / 0x100 == v / 0x100_0000_0000;
    assert v / 0x1_0000_0000 / 0x1_0000 == v / 0x1_0000_0000_0000;
    assert v / 0x1_0000_0000 / 0x100_0000 == v / 0x100_0000_0000_0000;
  }

  /** The low two bytes come first, then the rest of the number. */
  lemma Shift2(v: nat, w: nat)
    ensures LeBytes(v, w + 2) == LeBytes(v, 2) + LeBytes(v / 0x1_0000, w)
  {
    assert v / 256 / 256 == v / 0x1_0000;
    assert LeBytes(v, w + 2) == [v % 256] + ([(v / 256) % 256] + LeBytes(v / 256 / 256, w));
    assert LeBytes(v, 2) == [v % 256] + ([(v / 256) % 256] + LeBytes(v / 256 / 256, 0));
  }

  method PutU16(buf: array<byte>, at: nat, v: nat, le: bool)
    requires at + 2 <= buf.Length
    modifies buf
    ensures buf[..] == Overlay(old(buf[..]), at, Put(v, 2, le))
  {
    Le2(v);
    if le {
      buf[at], buf[at + 1] := v % 256, (v / 0x100) % 256;
    } else {
      buf[at], buf[at + 1] := (v / 0x100) % 256, v % 256;
    }
  }

  method PutU32(buf: array<byte>, at: nat, v: nat, le: bool)
    requires at + 4 <= buf.Length
    modifies buf
    ensures buf[..] == Overlay(old(buf[..]), at, Put(v, 4, le))
  {
    Le4(v);
    if le {
      buf[at], buf[at + 1], buf[at + 2], buf[at + 3] :=
        v % 256, (v / 0x100) % 256, (v / 0x1_0000) % 256, (v / 0x100_0000) % 256;
    } else {
      buf[at], buf[at + 1], buf[at + 2], buf[at + 3] :=
        (v / 0x100_0000) % 256, (v / 0x1_0000) % 256, (v / 0x100) % 256, v % 256;
    }
  }

  method PutU64(buf: array<byte>, at: nat, v: nat, le: bool)
    requires at + 8 <= buf.Length
    modifies buf
    ensures buf[..] == Overlay(old(buf[..]), at, Put(v, 8, le))
  {
    Le8(v);
    if le {
      buf[at], buf[at + 1], buf[at + 2], buf[at + 3] :=
        v % 256, (v / 0x100) % 256, (v / 0x1_0000) % 256, (v / 0x100_0000) % 256;
      buf[at + 4], buf[at + 5], buf[at + 6], buf[at + 7] :=
        (v / 0x1_0000_0000) % 256, (v / 0x100_0000_0000) % 256,
        (v / 0x1_0000_0000_0000) % 256, (v / 0x100_0000_0000_0000) % 256;
    } else {
      buf[at], buf[at + 1], buf[at + 2], buf[at + 3] :=
        (v / 0x100_0000_0000_0000) % 256, (v / 0x1_0000_0000_0000) % 256,
        (v / 0x100_0000_0000) % 256, (v / 0x1_0000_0000) % 256;
      buf[at + 4], buf[at + 5], buf[at + 6], buf[at + 7] :=
        (v / 0x100_0000) % 256, (v / 0x1_0000) % 256, (v / 0x100) % 256, v % 256;
    }
  }

  /** `v` is a binary128 value as 16 little-endian bytes. */
  method PutF128(buf: array<byte>, at: nat, v: seq<byte>, le: bool)
    requires at + 16 <= buf.Length && |v| == 16
    modifies buf
    ensures buf[..] == Overlay(old(buf[..]), at, Put(FromLe(v), 16, le))
  {
    ghost var wire := Put(FromLe(v), 16, le);
    assert wire == if le then v else Reverse(v) by { LeBytesOfFromLe(v); }
    hide Put, FromLe, LeBytes;
    var i := 0;
    while i < 16
      invariant i <= 16
      invariant forall k :: 0 <= k < at || at + 16 <= k < buf.Length ==> buf[k] == old(buf[k])
      invariant forall k :: at <= k < at + i ==> buf[k] == wire[k - at]
    {
      buf[at + i] := v[if le then i else 15 - i];
      i := i + 1;
    }
  }

  /** The 16 bytes at `at`, brought into little-endian order. */
  method GetF128(buf: seq<byte>, at: nat, le: bool) returns (v: seq<byte>)
    requires at + 16 <= |buf|
    ensures v == if le then buf[at..at + 16] else Reverse(buf[at..at + 16])
  {
    var out := new byte[16](_ => 0);
    var i := 0;
    while i < 16
      invariant i <= 16
      invariant le ==> forall k :: 0 <= k < i ==> out[k] == buf[at + k]
      invariant !le ==> forall k :: 16 - i <= k < 16 ==> out[k] == buf[at + 15 - k]
    {
      out[if le then i else 15 - i] := buf[at + i];
      i := i + 1;
    }
    v := out[..];
  }

  lemma OverlayEnd(s: seq<byte>, at: nat, b: seq<byte>)
    requires at + |b| <= |s|
    ensures Overlay(s, at, b)[..at + |b|] == s[..at] + b
  {
  }

  lemma OverlayPrefix(s: seq<byte>, n: nat, at: nat, b: seq<byte>)
    requires at + |b| <= n <= |s|
    ensures Overlay(s, at, b)[..n] == s[..n][..at] + b + s[..n][at + |b|..]
  {
  }

  lemma OverlayStep(s: seq<byte>, at: nat, a: seq<byte>, b: seq<byte>)
    requires at + |a| + |b| <= |s|
    ensures Overlay(Overlay(s, at, a), at + |a|, b) == Overlay(s, at, a + b)
  {
  }

  lemma Slices(s: seq<byte>, n: nat, t: nat)
    requires t <= n <= |s|
    ensures s[..n][..t] == s[..t] && s[..n][t..] == s[t..n]
  {
  }
}
