/**
  Moving runs of same-width integers between host memory and a stream.
 */
module BulkCopy {
  import opened Bytes
  import opened RawStores
  import opened Scripts

  predicate IsBulkWidth(w: nat) {
    w == 1 || w == 2 || w == 4 || w == 8
  }

  lemma NextOffset(n: nat, w: nat)
    requires n > 0
    ensures n * w == (n - 1) * w + w && (n - 1) * w >= 0
  {
  }

  /** The numbers a run of `n` elements of width `w` stands for, read in byte order `le`. */
  function Values(data: seq<byte>, n: nat, w: nat, le: bool): (vs: seq<nat>)
    requires |data| == n * w
    ensures |vs| == n
    decreases n
  {
    if n == 0 then []
    else
      NextOffset(n, w);
      Values(data[..(n - 1) * w], n - 1, w, le) + [Get(data[(n - 1) * w..], le)]
  }

  /** Every element reversed. */
  function SwapEach(data: seq<byte>, n: nat, w: nat): (r: seq<byte>)
    requires |data| == n * w
    ensures |r| == n * w
    decreases n
  {
    if n == 0 then []
    else
      NextOffset(n, w);
      SwapEach(data[..(n - 1) * w], n - 1, w) + Reverse(data[(n - 1) * w..])
  }

  lemma {:induction false} FlatSnoc(vs: seq<nat>, v: nat, w: nat, le: bool)
    ensures Flat(vs + [v], w, le) == Flat(vs, w, le) + Put(v, w, le)
  {
    hide Put;
    if vs == [] {
      assert [v][1..] == [] && vs + [v] == [v];
      assert Flat([v], w, le) == Put(v, w, le) + Flat([], w, le);
    } else {
      FlatSnoc(vs[1..], v, w, le);
      assert (vs + [v])[1..] == vs[1..] + [v];
      Assoc(Put(vs[0], w, le), Flat(vs[1..], w, le), Put(v, w, le));
    }
  }

  /** A straight copy is right when the stream has the host's byte order. */
  lemma {:induction false} FlatOfValues(data: seq<byte>, n: nat, w: nat, le: bool)
    requires |data| == n * w
    ensures Flat(Values(data, n, w, le), w, le) == data
    decreases n
  {
    hide Put, Get;
    if n > 0 {
      NextOffset(n, w);
      var k := (n - 1) * w;
      FlatOfValues(data[..k], n - 1, w, le);
      FlatSnoc(Values(data[..k], n - 1, w, le), Get(data[k..], le), w, le);
      PutGet(data[k..], le);
      assert data == data[..k] + data[k..];
    }
  }

  lemma PutSwapped(b: seq<byte>, le: bool)
    ensures Put(Get(b, le), |b|, !le) == Reverse(b)
  {
    PutGet(b, le);
    assert Reverse(Reverse(LeBytes(Get(b, le), |b|))) == LeBytes(Get(b, le), |b|);
  }

  /** A swapping copy is right when the byte orders differ. */
  lemma {:induction false} FlatOfSwapped(data: seq<byte>, n: nat, w: nat, le: bool)
    requires |data| == n * w
    ensures Flat(Values(data, n, w, le), w, !le) == SwapEach(data, n, w)
    decreases n
  {
    hide Put, Get, Reverse;
    if n > 0 {
      NextOffset(n, w);
      var k := (n - 1) * w;
      FlatOfSwapped(data[..k], n - 1, w, le);
      FlatSnoc(Values(data[..k], n - 1, w, le), Get(data[k..], le), w, !le);
      PutSwapped(data[k..], le);
    }
  }

  lemma SwapSingle(data: seq<byte>, n: nat)
    requires |data| == n
    ensures SwapEach(data, n, 1) == data
    decreases n
  {
    if n > 0 {
      SwapSingle(data[..n - 1], n - 1);
      assert data == data[..n - 1] + [data[n - 1]];
    }
  }

  lemma ValuesSnoc(f: seq<byte>, n: nat, p: seq<byte>, w: nat, le: bool)
    requires |f| == n * w && |p| == w
    ensures |f + p| == (n + 1) * w
    ensures Values(f + p, n + 1, w, le) == Values(f, n, w, le) + [Get(p, le)]
  {
    hide Get;
    NextOffset(n + 1, w);
    assert (f + p)[..n * w] == f && (f + p)[n * w..] == p;
  }

  /** Reading a run back in the order it was flattened in returns the values. */
  lemma {:induction false} ValuesOfFlat(vs: seq<nat>, w: nat, le: bool)
    requires forall i :: 0 <= i < |vs| ==> vs[i] < Pow256(w)
    ensures |Flat(vs, w, le)| == |vs| * w
    ensures Values(Flat(vs, w, le), |vs|, w, le) == vs
    decreases |vs|
  {
    hide Put, Get, Pow256;
    FlatLength(vs, w, le);
    if vs != [] {
      var n := |vs| - 1;
      var init, last := vs[..n], vs[n];
      assert vs == init + [last];
      hide Flat, Values;
      ValuesOfFlat(init, w, le);
      FlatSnoc(init, last, w, le);
      GetPut(last, w, le);
      ValuesSnoc(Flat(init, w, le), n, Put(last, w, le), w, le);
    }
  }

  /** The inner loop of the swapping copy. */
  method ReverseInto(buf: array<byte>, at: nat, src: seq<byte>)
    requires at + |src| <= buf.Length
    modifies buf
    ensures buf[..] == Overlay(old(buf[..]), at, Reverse(src))
  {
    var b := 0;
    while b < |src|
      invariant b <= |src|
      invariant forall k :: 0 <= k < at || at + |src| <= k < buf.Length ==> buf[k] == old(buf[k])
      invariant forall k :: 0 <= k < b ==> buf[at + |src| - 1 - k] == src[k]
    {
      buf[at + |src| - 1 - b] := src[b];
      b := b + 1;
    }
    ghost var o := Overlay(old(buf[..]), at, Reverse(src));
    forall k | 0 <= k < buf.Length ensures buf[k] == o[k] {
      if at <= k < at + |src| {
        assert buf[at + |src| - 1 - (at + |src| - 1 - k)] == src[at + |src| - 1 - k];
      }
    }
  }

  /** Reverse each element while copying `count` elements into the buffer. */
  method SwapCopy(buf: array<byte>, at: nat, src: seq<byte>, count: nat, w: nat)
    requires |src| == count * w && at + |src| <= buf.Length
    modifies buf
    ensures buf[..] == Overlay(old(buf[..]), at, SwapEach(src, count, w))
  {
    hide SwapEach, Reverse, Overlay;
    var i := 0;
    ghost var before := buf[..];
    OverlayNothing(before, at);
    SwapNone(src, w);
    while i < count
      invariant i <= count && i * w <= |src|
      invariant buf[..] == Overlay(before, at, SwapEach(src[..i * w], i, w))
    {
      NextOffset(i + 1, w);
      MulMono(i + 1, count, w);
      SwapNext(src, i, w);
      var s := src[i * w..(i + 1) * w];
      ReverseInto(buf, at + i * w, s);
      OverlayStep(before, at, SwapEach(src[..i * w], i, w), Reverse(s));
      i := i + 1;
    }
    assert src[..count * w] == src;
  }

  lemma OverlayNothing(b: seq<byte>, at: nat)
    requires at <= |b|
    ensures Overlay(b, at, []) == b
  {
  }

  lemma SwapNone(src: seq<byte>, w: nat)
    ensures 0 * w == 0 && SwapEach(src[..0], 0, w) == []
  {
  }

  lemma SwapNext(src: seq<byte>, i: nat, w: nat)
    requires i * w <= (i + 1) * w <= |src| && (i + 1) * w == i * w + w
    ensures SwapEach(src[..(i + 1) * w], i + 1, w) == SwapEach(src[..i * w], i, w) + Reverse(src[i * w..(i + 1) * w])
  {
    hide Reverse;
    assert src[..(i + 1) * w][..i * w] == src[..i * w];
    assert src[..(i + 1) * w][i * w..] == src[i * w..(i + 1) * w];
  }

  lemma MulMono(a: nat, b: nat, w: nat)
    requires a <= b
    ensures a * w <= b * w
  {
  }
}
