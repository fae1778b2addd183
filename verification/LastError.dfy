/**
  UTF-8 text and the copy of an error message into a C buffer, cut at a character boundary.
 */
module Utf8 {
  import opened Bytes

  predicate IsContinuation(b: byte) {
    0x80 <= b < 0xC0
  }

  /** The length of the well-formed character that `t` starts with, or 0. */
  function CharLen(t: seq<byte>): (n: nat)
    ensures n <= 4 && n <= |t|
    ensures n > 0 ==> !IsContinuation(t[0])
    ensures forall i :: 0 < i < n ==> IsContinuation(t[i])
  {
    if |t| >= 1 && t[0] < 0x80 then 1
    else if |t| >= 2 && 0xC2 <= t[0] <= 0xDF && IsContinuation(t[1]) then 2
    else if |t| >= 3 && 0xE0 <= t[0] <= 0xEF && IsContinuation(t[1]) && IsContinuation(t[2])
            && (t[0] == 0xE0 ==> t[1] >= 0xA0) && (t[0] == 0xED ==> t[1] < 0xA0) then 3
    else if |t| >= 4 && 0xF0 <= t[0] <= 0xF4 && IsContinuation(t[1]) && IsContinuation(t[2]) && IsContinuation(t[3])
            && (t[0] == 0xF0 ==> t[1] >= 0x90) && (t[0] == 0xF4 ==> t[1] < 0x90) then 4
    else 0
  }

  predicate IsUtf8(t: seq<byte>)
    decreases |t|
  {
    t == [] || (CharLen(t) > 0 && IsUtf8(t[CharLen(t)..]))
  }

  /** `str::is_char_boundary` */
  predicate IsBoundary(t: seq<byte>, i: nat) {
    i == 0 || i == |t| || (i < |t| && !IsContinuation(t[i]))
  }

  lemma PrefixChar(t: seq<byte>, i: nat)
    requires i <= |t| && CharLen(t) > 0
    ensures CharLen(t[..i]) == if i >= CharLen(t) then CharLen(t) else 0
  {
  }

  /** In well-formed text, the byte test finds exactly the positions where a prefix is well-formed. */
  lemma {:induction false} BoundaryIsPrefix(t: seq<byte>, i: nat)
    requires IsUtf8(t) && i <= |t|
    ensures IsBoundary(t, i) <==> IsUtf8(t[..i])
    decreases |t|
  {
    if i > 0 {
      var n := CharLen(t);
      PrefixChar(t, i);
      if i >= n {
        var rest := t[n..];
        BoundaryIsPrefix(rest, i - n);
        assert t[..i][n..] == rest[..i - n];
        if i > n && i < |t| {
          assert rest[i - n] == t[i];
        } else if i == n && n < |t| {
          assert rest[0] == t[n] && CharLen(rest) > 0;
        }
      }
    }
  }

  /** A character has at most four bytes, so a boundary is never more than three bytes back. */
  lemma {:induction false} BoundaryNearby(t: seq<byte>, i: nat)
    requires IsUtf8(t) && 3 <= i <= |t|
    ensures IsBoundary(t, i) || IsBoundary(t, i - 1) || IsBoundary(t, i - 2) || IsBoundary(t, i - 3)
    decreases |t|
  {
    var n := CharLen(t);
    var rest := t[n..];
    if i - n >= 3 {
      BoundaryNearby(rest, i - n);
      BoundaryShift(t, i);
      BoundaryShift(t, i - 1);
      BoundaryShift(t, i - 2);
      BoundaryShift(t, i - 3);
    } else if i >= n {
      BoundaryShift(t, n);
    }
  }

  lemma BoundaryShift(t: seq<byte>, i: nat)
    requires IsUtf8(t) && t != [] && CharLen(t) <= i <= |t|
    ensures IsBoundary(t[CharLen(t)..], i - CharLen(t)) <==> IsBoundary(t, i)
  {
    var n := CharLen(t);
    if n < |t| {
      assert CharLen(t[n..]) > 0;
      assert i < |t| ==> t[n..][i - n] == t[i];
    }
  }
}

module LastError {
  import opened Bytes
  import opened Utf8

  /** A length cast to a 32-bit signed integer. */
  function AsI32(n: nat): (r: int)
    ensures -0x8000_0000 <= r < 0x8000_0000 && (r - n) % 0x1_0000_0000 == 0
  {
    var low := n % 0x1_0000_0000;
    if low < 0x8000_0000 then low else low - 0x1_0000_0000
  }

  function Min(a: nat, b: nat): nat {
    if a <= b then a else b
  }

  /**
    write_c_string: what lands in the buffer before the NUL is the longest well-formed prefix of `text` that
    fits, found in at most three steps back; the result is the full length.
   */
  method WriteCString(text: seq<byte>, buf: array?<byte>, bufLen: int) returns (full: int, ghost end: nat, ghost steps: nat)
    requires IsUtf8(text)
    requires buf != null && bufLen > 0 ==> bufLen <= buf.Length
    modifies buf
    ensures full == AsI32(|text|) && steps <= 3
    ensures buf != null && bufLen <= 0 ==> buf[..] == old(buf[..])
    ensures buf != null && bufLen > 0 ==>
              && end <= Min(bufLen - 1, |text|)
              && buf[..] == text[..end] + [0] + old(buf[end + 1..])
              && IsUtf8(text[..end])
              && forall j :: end < j <= Min(bufLen - 1, |text|) ==> !IsUtf8(text[..j])
  {
    full, end, steps := AsI32(|text|), 0, 0;
    if buf == null || bufLen <= 0 { return; }
    var maxBytes := bufLen - 1;
    var e: nat := Min(maxBytes, |text|);
    ghost var top := e;
    while e > 0 && !IsBoundary(text, e)
      invariant e <= top && steps == top - e
      invariant forall j :: e < j <= top ==> !IsBoundary(text, j)
      invariant steps <= 3
      invariant buf[..] == old(buf[..])
    {
      if steps == 3 {
        BoundaryNearby(text, top);
      }
      e := e - 1;
      steps := steps + 1;
    }
    BoundaryIsPrefix(text, e);
    forall j | e < j <= top ensures !IsUtf8(text[..j]) {
      BoundaryIsPrefix(text, j);
    }
    hide IsUtf8;
    end := e;
    CopyTerminated(text[..e], buf);
  }

  method CopyTerminated(s: seq<byte>, buf: array<byte>)
    requires |s| < buf.Length
    modifies buf
    ensures buf[..] == s + [0] + old(buf[|s| + 1..])
  {
    forall i | 0 <= i < |s| { buf[i] := s[i]; }
    buf[|s|] := 0;
  }
}
