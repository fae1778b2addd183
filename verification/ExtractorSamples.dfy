/**
  Messages of flat structs that differ in one value: where the fields lie, and what stays the same.
 */
module ExtractorSamples {
  import opened Bytes
  import opened Scripts
  import opened WriterSteps
  import opened WireTypes
  import opened Decoding
  import opened Readback
  import opened Evolution
  import opened EvolutionProof
  import opened Messages
  import opened ExtractorAgreement
  import opened ExtractorLimits
  import Utf8
  import Wrappers
  import X = FieldExtractor

  // ------------------------------------------------------- where numbers lie does not depend on what they are

  lemma {:induction false} SamePositions(r: Source, q: Source, fields: seq<X.FieldDescriptor>, vs: seq<Value>, ws: seq<Value>, pos: nat, n: nat)
    requires r.c == q.c && r.base == q.base <= pos && n <= |fields| && NumbersOnly(fields, n)
    requires HaveTypes(vs, TypesOf(fields)) && HaveTypes(ws, TypesOf(fields))
    ensures WrittenAt(r, fields, vs, pos, n) == WrittenAt(q, fields, ws, pos, n)
    decreases n
  {
    hide *;
    if n == 0 {
      AtStart(r, fields, vs, pos, pos);
      AtStart(q, fields, ws, pos, pos);
    } else {
      Tail(fields, vs);
      Tail(fields, ws);
      NumbersTail(fields, n);
      var k := fields[0].kind;
      NumberWritten(r, k, vs[0], pos);
      NumberWritten(q, k, ws[0], pos);
      SameSp(r, q, pos);
      WrittenToUnfold(r, fields, vs, pos, n);
      WrittenToUnfold(q, fields, ws, pos, n);
      SamePositions(r, q, fields[1..], vs[1..], ws[1..], After(r, TypeOf(k), vs[0], pos), n - 1);
    }
  }

  lemma SameSp(r: Source, q: Source, pos: nat)
    requires r.c == q.c && r.base == q.base <= pos
    ensures SpOf(r, pos) == SpOf(q, pos) && PadAt(r, pos) == PadAt(q, pos)
  {
  }

  lemma {:induction false} SameSkips(r: Source, q: Source, fields: seq<X.FieldDescriptor>, pos: nat, n: nat)
    requires r.c == q.c && r.base == q.base <= pos && |r.buf| == |q.buf| && n <= |fields| && NumbersOnly(fields, n)
    ensures SkipTo(r, fields, pos, n) == SkipTo(q, fields, pos, n)
    decreases n
  {
    if n > 0 {
      hide *;
      NumbersTail(fields, n);
      var k := fields[0].kind;
      SkipToUnfold(r, fields, pos, n);
      SkipToUnfold(q, fields, pos, n);
      SameSkip(r, q, k, pos);
      if Skipped(r, k, pos).Some? {
        SameSkips(r, q, fields[1..], Skipped(r, k, pos).value, n - 1);
      }
    }
  }

  lemma SameSkip(r: Source, q: Source, k: X.FieldKind, pos: nat)
    requires r.c == q.c && r.base == q.base <= pos && |r.buf| == |q.buf| && IsNumber(k)
    ensures Skipped(r, k, pos) == Skipped(q, k, pos) && LooksAt(r, k, pos) == LooksAt(q, k, pos)
  {
    SameSp(r, q, pos);
    NumberSeen(r, k, pos);
    NumberSeen(q, k, pos);
    hide PadTo, X.SkipField, Got;
  }

  // --------------------------------------------------- where fields lie depends on what is before them only

  predicate SameUpTo(vs: seq<Value>, ws: seq<Value>, n: nat) {
    n <= |vs| && n <= |ws| && vs[..n] == ws[..n]
  }

  lemma SameTail(vs: seq<Value>, ws: seq<Value>, n: nat)
    requires SameUpTo(vs, ws, n) && n > 0
    ensures vs[0] == ws[0] && SameUpTo(vs[1..], ws[1..], n - 1)
  {
    assert vs[0] == vs[..n][0] && ws[0] == ws[..n][0];
    assert vs[1..][..n - 1] == vs[..n][1..] && ws[1..][..n - 1] == ws[..n][1..];
  }

  lemma SameShorter(vs: seq<Value>, ws: seq<Value>, m: nat, n: nat)
    requires SameUpTo(vs, ws, n) && m <= n
    ensures SameUpTo(vs, ws, m)
  {
    assert vs[..m] == vs[..n][..m] && ws[..m] == ws[..n][..m];
  }

  lemma SameBut(vs: seq<Value>, i: nat, x: Value, n: nat)
    requires i < |vs| && n <= i
    ensures SameUpTo(vs, vs[i := x], n)
  {
  }

  lemma SameAfter(r: Source, q: Source, t: Type, v: Value, pos: nat)
    requires r.c == q.c && r.base == q.base <= pos && IsType(t) && HasType(v, t)
    ensures After(r, t, v, pos) == After(q, t, v, pos)
  {
    SameSp(r, q, pos);
    hide Layout, Field;
  }

  lemma {:induction false} PrefixPositions(r: Source, q: Source, fields: seq<X.FieldDescriptor>, vs: seq<Value>, ws: seq<Value>, pos: nat, n: nat)
    requires r.c == q.c && r.base == q.base <= pos && n <= |fields| && SameUpTo(vs, ws, n)
    requires HaveTypes(vs, TypesOf(fields)) && HaveTypes(ws, TypesOf(fields))
    ensures WrittenAt(r, fields, vs, pos, n) == WrittenAt(q, fields, ws, pos, n)
    decreases n
  {
    hide *;
    if n == 0 {
      AtStart(r, fields, vs, pos, pos);
      AtStart(q, fields, ws, pos, pos);
    } else {
      Tail(fields, vs);
      Tail(fields, ws);
      SameTail(vs, ws, n);
      var t := TypeOf(fields[0].kind);
      SameAfter(r, q, t, vs[0], pos);
      WrittenToUnfold(r, fields, vs, pos, n);
      WrittenToUnfold(q, fields, ws, pos, n);
      PrefixPositions(r, q, fields[1..], vs[1..], ws[1..], After(r, t, vs[0], pos), n - 1);
    }
  }

  lemma SameOnEight(r: Source, q: Source, k: X.FieldKind, p: nat)
    requires r.c == q.c && r.base == q.base <= p
    ensures OnEight(r, k, p) == OnEight(q, k, p)
  {
    SameSp(r, q, p);
    hide PadTo;
  }

  lemma PrefixOnEight(r: Source, q: Source, fields: seq<X.FieldDescriptor>, vs: seq<Value>, ws: seq<Value>, pos: nat, n: nat)
    requires r.c == q.c && r.base == q.base <= pos && n < |fields| && SameUpTo(vs, ws, n)
    requires HaveTypes(vs, TypesOf(fields)) && HaveTypes(ws, TypesOf(fields))
    ensures OnEight(r, fields[n].kind, WrittenAt(r, fields, vs, pos, n)) == OnEight(q, fields[n].kind, WrittenAt(q, fields, ws, pos, n))
  {
    hide *;
    PrefixPositions(r, q, fields, vs, ws, pos, n);
    SameOnEight(r, q, fields[n].kind, WrittenAt(r, fields, vs, pos, n));
  }

  lemma PrefixAllOnEight(r: Source, q: Source, fields: seq<X.FieldDescriptor>, vs: seq<Value>, ws: seq<Value>, pos: nat, m: nat, n: nat)
    requires r.c == q.c && r.base == q.base <= pos && m <= n + 1 && m <= |fields| && SameUpTo(vs, ws, n)
    requires HaveTypes(vs, TypesOf(fields)) && HaveTypes(ws, TypesOf(fields))
    ensures AllOnEight(r, fields, vs, pos, m) <==> AllOnEight(q, fields, ws, pos, m)
  {
    hide OnEight, WrittenAt, HaveTypes, TypesOf, SameUpTo;
    forall i | 0 <= i < m
      ensures OnEight(r, fields[i].kind, WrittenAt(r, fields, vs, pos, i)) == OnEight(q, fields[i].kind, WrittenAt(q, fields, ws, pos, i))
    {
      SameShorter(vs, ws, i, n);
      PrefixOnEight(r, q, fields, vs, ws, pos, i);
    }
  }

  /** Two streams alike up to a stray field take the extractor to the same place, as far as numbers go. */
  lemma {:induction false} SameSkipsBehind(r: Source, q: Source, fields: seq<X.FieldDescriptor>, vs: seq<Value>, ws: seq<Value>, pos: nat, j: nat, n: nat)
    requires r.c == q.c && r.base == q.base <= pos <= |r.buf| == |q.buf| && j <= n <= |fields| && NumbersFrom(fields, j, n)
    requires HaveTypes(vs, TypesOf(fields)) && Ready(r, Fields(r.c, TypesOf(fields), vs), pos)
    requires HaveTypes(ws, TypesOf(fields)) && Ready(q, Fields(q.c, TypesOf(fields), ws), pos)
    requires SameUpTo(vs, ws, j) && AllOnEight(r, fields, vs, pos, j) && AllOnEight(q, fields, ws, pos, j)
    ensures SkipTo(r, fields, pos, n) == SkipTo(q, fields, pos, n)
    decreases j
  {
    hide *;
    if j == 0 {
      FromZero(fields, n);
      SameSkips(r, q, fields, pos, n);
    } else {
      var k := fields[0].kind;
      ReadyTail(r, fields, vs, pos);
      ReadyTail(q, fields, ws, pos);
      SameTail(vs, ws, j);
      AllOnEightUnfold(r, fields, vs, pos, j);
      AllOnEightUnfold(q, fields, ws, pos, j);
      FieldStep(r, k, vs[0], pos);
      FieldStep(q, k, ws[0], pos);
      SameAfter(r, q, TypeOf(k), vs[0], pos);
      SkipToUnfold(r, fields, pos, n);
      SkipToUnfold(q, fields, pos, n);
      if j < n {
        NumbersFromTail(fields, j, n);
      } else {
        NoneFrom(fields[1..], j - 1);
      }
      SameSkipsBehind(r, q, fields[1..], vs[1..], ws[1..], After(r, TypeOf(k), vs[0], pos), j - 1, n - 1);
    }
  }

  lemma FromZero(fields: seq<X.FieldDescriptor>, n: nat)
    requires n <= |fields| && NumbersFrom(fields, 0, n)
    ensures NumbersOnly(fields, n)
  {
  }

  lemma NoneFrom(fields: seq<X.FieldDescriptor>, n: nat)
    requires n <= |fields|
    ensures NumbersFrom(fields, n, n)
  {
  }

  /** A field that cannot be skipped stops the extractor. */
  lemma {:induction false} Stops(r: Source, fields: seq<X.FieldDescriptor>, pos: nat, s: nat, n: nat)
    requires r.base <= pos && s < n <= |fields|
    requires SkipTo(r, fields, pos, s).Some? ==> Skipped(r, fields[s].kind, SkipTo(r, fields, pos, s).value).None?
    ensures SkipTo(r, fields, pos, n).None?
    decreases s
  {
    hide Skipped;
    SkipToUnfold(r, fields, pos, n);
    if s > 0 {
      SkipToUnfold(r, fields, pos, s);
      var e := Skipped(r, fields[0].kind, pos);
      if e.Some? {
        Stops(r, fields[1..], e.value, s - 1, n - 1);
      }
    }
  }

  // ---------------------------------------------------------------------- replacing one number in a message

  lemma {:induction false} FieldsReplace(r: Source, fields: seq<X.FieldDescriptor>, vs: seq<Value>, pos: nat, i: nat, x: Value)
    requires r.base <= pos && HaveTypes(vs, TypesOf(fields)) && i < |fields| && IsNumber(fields[i].kind) && |vs| == |fields|
    requires HasType(x, TypeOf(fields[i].kind)) && HaveTypes(vs[i := x], TypesOf(fields))
    ensures var a, b := Layout(r.c, Fields(r.c, TypesOf(fields), vs), SpOf(r, pos)), Layout(r.c, Fields(r.c, TypesOf(fields), vs[i := x]), SpOf(r, pos));
            var o := WrittenAt(r, fields, vs, pos, i + 1) - pos;
            && |a| == |b| && o <= |a| && a[o..] == b[o..]
    ensures IdsFit(Fields(r.c, TypesOf(fields), vs)) == IdsFit(Fields(r.c, TypesOf(fields), vs[i := x]))
    decreases i
  {
    hide *;
    var ws := vs[i := x];
    Tail(fields, vs);
    Tail(fields, ws);
    WrittenToUnfold(r, fields, vs, pos, i + 1);
    var k := fields[0].kind;
    var p := After(r, TypeOf(k), vs[0], pos);
    FirstSplits(r, fields, vs, pos);
    FirstSplits(r, fields, ws, pos);
    if i == 0 {
      assert ws[1..] == vs[1..];
      NumberWritten(r, k, vs[0], pos);
      NumberWritten(r, k, ws[0], pos);
      NotText(k);
      NumberCalls(r.c, k, vs[0]);
      NumberCalls(r.c, k, ws[0]);
      AtStart(r, fields[1..], vs[1..], p, p);
      SuffixAfter(FieldBytes(r, TypeOf(k), vs[0], pos), FieldBytes(r, TypeOf(k), ws[0], pos),
                  Layout(r.c, Fields(r.c, TypesOf(fields[1..]), vs[1..]), SpOf(r, p)));
    } else {
      assert ws[0] == vs[0] && ws[1..] == vs[1..][i - 1 := x];
      FieldsReplace(r, fields[1..], vs[1..], p, i - 1, x);
      SuffixWithin(FieldBytes(r, TypeOf(k), vs[0], pos),
                   Layout(r.c, Fields(r.c, TypesOf(fields[1..]), vs[1..]), SpOf(r, p)),
                   Layout(r.c, Fields(r.c, TypesOf(fields[1..]), ws[1..]), SpOf(r, p)),
                   WrittenAt(r, fields[1..], vs[1..], p, i) - p);
    }
  }

  lemma FirstSplits(r: Source, fields: seq<X.FieldDescriptor>, vs: seq<Value>, pos: nat)
    requires r.base <= pos && fields != [] && HaveTypes(vs, TypesOf(fields))
    requires vs != [] && HasType(vs[0], TypeOf(fields[0].kind)) && HaveTypes(vs[1..], TypesOf(fields[1..]))
    ensures var t, rest := TypeOf(fields[0].kind), Fields(r.c, TypesOf(fields[1..]), vs[1..]);
            var p := After(r, t, vs[0], pos);
            && p == pos + |FieldBytes(r, t, vs[0], pos)|
            && Layout(r.c, Fields(r.c, TypesOf(fields), vs), SpOf(r, pos)) == FieldBytes(r, t, vs[0], pos) + Layout(r.c, rest, SpOf(r, p))
            && IdsFit(Fields(r.c, TypesOf(fields), vs)) == (IdsFit(Field(r.c, t, vs[0])) && IdsFit(rest))
  {
    hide *;
    var t, rest := TypeOf(fields[0].kind), Fields(r.c, TypesOf(fields[1..]), vs[1..]);
    FieldsUncons(r.c, fields, vs);
    LayoutAppend(r.c, Field(r.c, t, vs[0]), rest, SpOf(r, pos));
    AppendKeeps(Field(r.c, t, vs[0]), rest);
    AfterBytes(r, t, vs[0], pos);
  }

  lemma FieldsUncons(c: Cfg, fields: seq<X.FieldDescriptor>, vs: seq<Value>)
    requires fields != [] && HaveTypes(vs, TypesOf(fields))
    requires vs != [] && HasType(vs[0], TypeOf(fields[0].kind)) && HaveTypes(vs[1..], TypesOf(fields[1..]))
    ensures Fields(c, TypesOf(fields), vs) == Append(Field(c, TypeOf(fields[0].kind), vs[0]), Fields(c, TypesOf(fields[1..]), vs[1..]))
  {
    Tail(fields, vs);
    hide TypesOf, TypeOf, HasType, Field, IsType, Append;
  }

  lemma AfterBytes(r: Source, t: Type, v: Value, pos: nat)
    requires IsType(t) && HasType(v, t) && r.base <= pos
    ensures FieldBytes(r, t, v, pos) == Layout(r.c, Field(r.c, t, v), SpOf(r, pos))
    ensures After(r, t, v, pos) == pos + |FieldBytes(r, t, v, pos)|
    ensures SpOf(r, After(r, t, v, pos)) == SpOf(r, pos) + |FieldBytes(r, t, v, pos)|
  {
    hide Layout, Field;
  }

  lemma SuffixAfter(a: seq<byte>, b: seq<byte>, rest: seq<byte>)
    requires |a| == |b|
    ensures (a + rest)[|a|..] == (b + rest)[|a|..] == rest
  {
  }

  lemma SuffixWithin(first: seq<byte>, a: seq<byte>, b: seq<byte>, o: nat)
    requires |a| == |b| && o <= |a| && a[o..] == b[o..]
    ensures (first + a)[|first| + o..] == (first + b)[|first| + o..]
  {
    assert (first + a)[|first| + o..] == a[o..] && (first + b)[|first| + o..] == b[o..];
  }

  lemma StillTyped(fields: seq<X.FieldDescriptor>, vs: seq<Value>, i: nat, x: Value)
    requires HaveTypes(vs, TypesOf(fields)) && i < |fields| && HasType(x, TypeOf(fields[i].kind))
    ensures |vs| == |fields| && HaveTypes(vs[i := x], TypesOf(fields))
  {
    hide HasType, TypeOf;
  }

  lemma ListTyped(ext: Ext, fields: seq<X.FieldDescriptor>, vs: seq<Value>)
    requires |fields| < U32 && HaveTypes(vs, TypesOf(fields))
    ensures HasType(List(vs), FlatType(ext, fields))
  {
    hide TypesOf;
  }

  /** A message with another number in it has the same length and the same bytes behind that number. */
  lemma MessageReplace(c: Cfg, ext: Ext, fields: seq<X.FieldDescriptor>, vs: seq<Value>, tail: seq<byte>, i: nat, x: Value)
    requires IsFlatSample(c, ext, fields, vs) && i < |fields| == |vs| && IsNumber(fields[i].kind) && HasType(x, TypeOf(fields[i].kind))
    ensures IsFlatSample(c, ext, fields, vs[i := x])
    ensures var r, q := Stream(c, ext, fields, vs, tail), Stream(c, ext, fields, vs[i := x], tail);
            && r.base <= FirstField(c, ext) && |r.buf| == |q.buf|
            && WrittenAt(r, fields, vs, FirstField(c, ext), i + 1) <= |r.buf|
            && r.buf[WrittenAt(r, fields, vs, FirstField(c, ext), i + 1)..] == q.buf[WrittenAt(r, fields, vs, FirstField(c, ext), i + 1)..]
  {
    hide *;
    var ws := vs[i := x];
    var r, pos := Stream(c, ext, fields, vs, tail), FirstField(c, ext);
    AtLeast4(c, ext);
    SampleOf(c, ext, fields, vs);
    StillTyped(fields, vs, i, x);
    ListTyped(ext, fields, ws);
    FieldsReplace(r, fields, vs, pos, i, x);
    MessageParts(c, ext, fields, vs);
    MessageParts(c, ext, fields, ws);
    SpIs(r, pos);
    FirstIsFour(c, ext);
    StillSample(c, ext, fields, ws);
    StreamOf(c, ext, fields, vs, tail);
    StreamOf(c, ext, fields, ws, tail);
    var a := Layout(c, Fields(c, TypesOf(fields), vs), pos - 4);
    var b := Layout(c, Fields(c, TypesOf(fields), ws), pos - 4);
    SuffixBehind(Lead(c, ext, |a|), a, b, tail, WrittenAt(r, fields, vs, pos, i + 1) - pos);
  }

  lemma SpIs(r: Source, pos: nat)
    requires r.base == 4 <= pos
    ensures SpOf(r, pos) == pos - 4
  {
  }

  lemma FirstIsFour(c: Cfg, ext: Ext)
    ensures |Lead(c, ext, 0)| == FirstField(c, ext) >= 4 && forall n :: |Lead(c, ext, n)| == FirstField(c, ext)
  {
    hide Put;
  }

  /** What stands in front of the fields of a message. */
  function Lead(c: Cfg, ext: Ext, size: nat): seq<byte> {
    EncapBytes(c, ext) + if c.xcdr2 && ext.Appendable? then Put(size, 4, c.le) else []
  }

  lemma MessageParts(c: Cfg, ext: Ext, fields: seq<X.FieldDescriptor>, vs: seq<Value>)
    requires |fields| < U32 && !ext.Mutable? && HaveTypes(vs, TypesOf(fields)) && HasType(List(vs), FlatType(ext, fields))
    ensures FirstField(c, ext) >= 4
    ensures var b := Layout(c, Fields(c, TypesOf(fields), vs), FirstField(c, ext) - 4);
            Message(c, FlatType(ext, fields), List(vs)) == Lead(c, ext, |b|) + b
    ensures IdsFit(Plain(c, FlatType(ext, fields), List(vs))) == IdsFit(Fields(c, TypesOf(fields), vs))
  {
    FlatCalls(c, ext, fields, vs);
    hide *;
    var t, k := FlatType(ext, fields), Fields(c, TypesOf(fields), vs);
    var on := c.xcdr2 && ext.Appendable?;
    FirstIs(c, ext);
    MessageOf(c, t, List(vs));
    FramedParts(c, on, EncapBytes(c, ext), k);
    LeadIs(c, ext, |Layout(c, k, if on then 4 else 0)|);
  }

  lemma FirstIs(c: Cfg, ext: Ext)
    ensures FirstField(c, ext) == if c.xcdr2 && ext.Appendable? then 8 else 4
  {
  }

  lemma MessageOf(c: Cfg, t: Type, v: Value)
    requires t.Struct? && IsType(t) && HasType(v, t)
    ensures Message(c, t, v) == EncapBytes(c, t.ext) + Layout(c, Plain(c, t, v), 0)
  {
    hide EncapBytes, Layout, Plain, HasType, IsType;
  }

  lemma LeadIs(c: Cfg, ext: Ext, size: nat)
    ensures Lead(c, ext, size) == EncapBytes(c, ext) + if c.xcdr2 && ext.Appendable? then Put(size, 4, c.le) else []
  {
    hide EncapBytes, Put;
  }

  lemma FramedParts(c: Cfg, on: bool, lead: seq<byte>, k: Calls)
    ensures var b := Layout(c, k, if on then 4 else 0);
            lead + Layout(c, Frame(on, k), 0) == lead + (if on then Put(|b|, 4, c.le) else []) + b
    ensures IdsFit(Frame(on, k)) == IdsFit(k)
  {
    if on {
      FrontWord(c, k);
      hide Layout, Put;
      var b := Layout(c, k, 4);
      Assoc(lead, Put(|b|, 4, c.le), b);
      assert IdsFit(Done);
    } else {
      hide Layout, IdsFit;
      assert lead + [] == lead;
    }
  }

  lemma FrontWord(c: Cfg, k: Calls)
    ensures Layout(c, Delimited(k, Done), 0) == Put(|Layout(c, k, 4)|, 4, c.le) + Layout(c, k, 4)
  {
    hide *;
    DelimitedLayout(c, k, 0);
    NoPadAtStart(c);
    var n := Put(|Layout(c, k, 4)|, 4, c.le);
    assert Zeros(0) + n == n;
  }

  lemma NoPadAtStart(c: Cfg)
    ensures Pad(c, 0, 4) == 0
  {
  }

  lemma SampleOf(c: Cfg, ext: Ext, fields: seq<X.FieldDescriptor>, vs: seq<Value>)
    requires IsFlatSample(c, ext, fields, vs)
    ensures |fields| < U32 && !ext.Mutable? && HaveTypes(vs, TypesOf(fields)) && HasType(List(vs), FlatType(ext, fields))
    ensures IdsFit(Plain(c, FlatType(ext, fields), List(vs))) && |Message(c, FlatType(ext, fields), List(vs))| < U32
  {
    Representables(c, FlatType(ext, fields), List(vs));
    hide Representable, Message, IdsFit, Plain, HasType, TypesOf;
  }

  lemma StillSample(c: Cfg, ext: Ext, fields: seq<X.FieldDescriptor>, ws: seq<Value>)
    requires |fields| < U32 && !ext.Mutable?
    requires HaveTypes(ws, TypesOf(fields)) && HasType(List(ws), FlatType(ext, fields))
    requires IdsFit(Plain(c, FlatType(ext, fields), List(ws)))
    requires |Message(c, FlatType(ext, fields), List(ws))| < U32
    ensures IsFlatSample(c, ext, fields, ws)
  {
    Representables(c, FlatType(ext, fields), List(ws));
    hide Representable, Message, IdsFit, Plain, HasType, TypesOf;
  }

  lemma StreamOf(c: Cfg, ext: Ext, fields: seq<X.FieldDescriptor>, vs: seq<Value>, tail: seq<byte>)
    requires IsFlatSample(c, ext, fields, vs) && |fields| < U32 && HasType(List(vs), FlatType(ext, fields))
    ensures Stream(c, ext, fields, vs, tail).buf == Message(c, FlatType(ext, fields), List(vs)) + tail
  {
    hide Message, IsFlatSample;
  }

  lemma SuffixBehind(lead: seq<byte>, a: seq<byte>, b: seq<byte>, tail: seq<byte>, o: nat)
    requires |a| == |b| && o <= |a| && a[o..] == b[o..]
    ensures |lead| + o <= |lead + a + tail| && (lead + a + tail)[|lead| + o..] == (lead + b + tail)[|lead| + o..]
  {
    assert (lead + a + tail)[|lead| + o..] == a[o..] + tail;
    assert (lead + b + tail)[|lead| + o..] == b[o..] + tail;
  }

  lemma NotText(k: X.FieldKind)
    requires IsNumber(k)
    ensures !k.String?
  {
  }

  // ------------------------------------------------------------------------------ replacing one text

  /** A text of 0x7F bytes, which as a length announces more than two gigabytes. */
  function Filler(n: nat): (s: seq<byte>)
    ensures |s| == n && forall i :: 0 <= i < n ==> s[i] == 0x7F
  {
    seq(n, i => 0x7F)
  }

  lemma {:induction false} FillerIsText(n: nat)
    ensures Utf8.IsUtf8(Filler(n))
    decreases n
  {
    if n > 0 {
      assert Filler(n)[1..] == Filler(n - 1);
      FillerIsText(n - 1);
    }
  }

  lemma TextWritten(r: Source, s: seq<byte>, pos: nat)
    requires r.base <= pos
    ensures After(r, AnyText, Txt(s), pos) == pos + PadAt(r, pos) + 4 + |s| + 1
    ensures IdsFit(Field(r.c, AnyText, Txt(s)))
  {
    hide Layout, Pad, Put, Zeros;
    var f := Field(r.c, AnyText, Txt(s));
    assert f == Text(s, Done);
    LayoutOne(r.c, f, SpOf(r, pos));
  }

  lemma IsAnyText(k: X.FieldKind, v: Value)
    requires k.String? && HasType(v, TypeOf(k))
    ensures v.Txt? && v == Txt(v.s) && TypeOf(k) == AnyText
    ensures forall s :: HasType(Txt(s), TypeOf(k))
  {
  }

  lemma WordsApart(c: Cfg, sp: nat, m: nat)
    requires c.xcdr2
    ensures Congruent(c, sp + 4 * m, sp)
  {
  }

  /** Longer by whole words. */
  function Longer(v: Value, m: nat): Value
    requires v.Txt?
  {
    Txt(Filler(|v.s| + 4 * m))
  }

  lemma {:induction false} FieldsLonger(r: Source, fields: seq<X.FieldDescriptor>, vs: seq<Value>, pos: nat, i: nat, m: nat)
    requires r.c.xcdr2 && r.base <= pos && HaveTypes(vs, TypesOf(fields)) && i < |fields| == |vs| && fields[i].kind.String?
    requires vs[i].Txt? && HaveTypes(vs[i := Longer(vs[i], m)], TypesOf(fields))
    ensures var k, l := Fields(r.c, TypesOf(fields), vs), Fields(r.c, TypesOf(fields), vs[i := Longer(vs[i], m)]);
            |Layout(r.c, l, SpOf(r, pos))| == |Layout(r.c, k, SpOf(r, pos))| + 4 * m && IdsFit(l) == IdsFit(k)
    decreases i
  {
    hide *;
    var x := Longer(vs[i], m);
    var ws := vs[i := x];
    Tail(fields, vs);
    Tail(fields, ws);
    FirstSplits(r, fields, vs, pos);
    FirstSplits(r, fields, ws, pos);
    var t := TypeOf(fields[0].kind);
    var p := After(r, t, vs[0], pos);
    if i == 0 {
      assert ws[1..] == vs[1..];
      LongerText(r, fields[0].kind, vs[0], m, pos);
      WordsApart(r.c, SpOf(r, p), m);
      LaterSp(r, p, m);
      Translate(r.c, Fields(r.c, TypesOf(fields[1..]), vs[1..]), SpOf(r, p + 4 * m), SpOf(r, p));
    } else {
      assert ws[0] == vs[0] && ws[1..] == vs[1..][i - 1 := x];
      FieldsLonger(r, fields[1..], vs[1..], p, i - 1, m);
    }
  }

  lemma LaterSp(r: Source, p: nat, m: nat)
    requires r.base <= p
    ensures SpOf(r, p + 4 * m) == SpOf(r, p) + 4 * m
  {
  }

  lemma LongerText(r: Source, k: X.FieldKind, v: Value, m: nat, pos: nat)
    requires r.base <= pos && k.String? && HasType(v, TypeOf(k)) && v.Txt? && HasType(Longer(v, m), TypeOf(k))
    ensures After(r, TypeOf(k), Longer(v, m), pos) == After(r, TypeOf(k), v, pos) + 4 * m
    ensures IdsFit(Field(r.c, TypeOf(k), Longer(v, m))) && IdsFit(Field(r.c, TypeOf(k), v))
  {
    IsAnyText(k, v);
    TextWritten(r, v.s, pos);
    TextWritten(r, Longer(v, m).s, pos);
    hide After, Field, IdsFit, HasType, TypeOf, PadAt;
  }

  lemma {:induction false} LaterPositions(r: Source, q: Source, fields: seq<X.FieldDescriptor>, vs: seq<Value>, pos: nat, n: nat, m: nat)
    requires r.c == q.c && r.c.xcdr2 && r.base == q.base <= pos && HaveTypes(vs, TypesOf(fields)) && n <= |fields|
    ensures WrittenAt(q, fields, vs, pos + 4 * m, n) == WrittenAt(r, fields, vs, pos, n) + 4 * m
    decreases n
  {
    hide *;
    if n == 0 {
      AtStart(r, fields, vs, pos, pos);
      AtStart(q, fields, vs, pos + 4 * m, pos);
    } else {
      Tail(fields, vs);
      var t := TypeOf(fields[0].kind);
      AfterLater(r, q, t, vs[0], pos, m);
      WrittenToUnfold(r, fields, vs, pos, n);
      WrittenToUnfold(q, fields, vs, pos + 4 * m, n);
      LaterPositions(r, q, fields[1..], vs[1..], After(r, t, vs[0], pos), n - 1, m);
    }
  }

  lemma AfterLater(r: Source, q: Source, t: Type, v: Value, pos: nat, m: nat)
    requires r.c == q.c && r.c.xcdr2 && r.base == q.base <= pos && IsType(t) && HasType(v, t)
    ensures After(q, t, v, pos + 4 * m) == After(r, t, v, pos) + 4 * m
  {
    hide *;
    WordsApart(r.c, SpOf(r, pos), m);
    LaterSp(r, pos, m);
    LaterSp(q, pos, m);
    SameSp(r, q, pos);
    Translate(r.c, Field(r.c, t, v), SpOf(r, pos) + 4 * m, SpOf(r, pos));
    AfterBytes(r, t, v, pos);
    AfterBytes(q, t, v, pos + 4 * m);
  }

  /** What follows a text that grew by whole words moves by as much. */
  lemma {:induction false} BehindLonger(r: Source, q: Source, fields: seq<X.FieldDescriptor>, vs: seq<Value>, pos: nat, i: nat, m: nat, n: nat)
    requires r.c == q.c && r.c.xcdr2 && r.base == q.base <= pos && HaveTypes(vs, TypesOf(fields)) && i < n <= |fields| == |vs|
    requires fields[i].kind.String? && vs[i].Txt? && HaveTypes(vs[i := Longer(vs[i], m)], TypesOf(fields))
    ensures WrittenAt(q, fields, vs[i := Longer(vs[i], m)], pos, n) == WrittenAt(r, fields, vs, pos, n) + 4 * m
    decreases i
  {
    hide *;
    var x := Longer(vs[i], m);
    var ws := vs[i := x];
    Tail(fields, vs);
    Tail(fields, ws);
    WrittenToUnfold(r, fields, vs, pos, n);
    WrittenToUnfold(q, fields, ws, pos, n);
    var t := TypeOf(fields[0].kind);
    var p := After(r, t, vs[0], pos);
    SameAfter(r, q, t, ws[0], pos);
    if i == 0 {
      assert ws[1..] == vs[1..];
      LongerText(r, fields[0].kind, vs[0], m, pos);
      LaterPositions(r, q, fields[1..], vs[1..], p, n - 1, m);
    } else {
      assert ws[0] == vs[0] && ws[1..] == vs[1..][i - 1 := x];
      BehindLonger(r, q, fields[1..], vs[1..], p, i - 1, m, n - 1);
    }
  }

  /** A message with a longer text in it. */
  lemma MessageLonger(c: Cfg, ext: Ext, fields: seq<X.FieldDescriptor>, vs: seq<Value>, tail: seq<byte>, i: nat, m: nat)
    requires c.xcdr2 && IsFlatSample(c, ext, fields, vs) && i < |fields| == |vs| && fields[i].kind.String?
    requires |Stream(c, ext, fields, vs, tail).buf| + 4 * m < U32
    ensures vs[i].Txt? && IsFlatSample(c, ext, fields, vs[i := Longer(vs[i], m)])
    ensures |Stream(c, ext, fields, vs[i := Longer(vs[i], m)], tail).buf| == |Stream(c, ext, fields, vs, tail).buf| + 4 * m
  {
    hide *;
    var r, pos := Stream(c, ext, fields, vs, tail), FirstField(c, ext);
    AtLeast4(c, ext);
    SampleOf(c, ext, fields, vs);
    FieldTyped(fields, vs, i);
    IsAnyText(fields[i].kind, vs[i]);
    var x := Longer(vs[i], m);
    LongerIsText(vs[i], m);
    var ws := vs[i := x];
    StillTyped(fields, vs, i, x);
    ListTyped(ext, fields, ws);
    FieldsLonger(r, fields, vs, pos, i, m);
    MessageParts(c, ext, fields, vs);
    MessageParts(c, ext, fields, ws);
    SpIs(r, pos);
    FirstIsFour(c, ext);
    StreamOf(c, ext, fields, vs, tail);
    StillSample(c, ext, fields, ws);
    StreamOf(c, ext, fields, ws, tail);
  }

  lemma LongerIsText(v: Value, m: nat)
    requires v.Txt?
    ensures Longer(v, m).Txt? && Longer(v, m) == Txt(Filler(|v.s| + 4 * m)) && Utf8.IsUtf8(Longer(v, m).s)
  {
    FillerIsText(|v.s| + 4 * m);
    hide Utf8.IsUtf8;
  }

  lemma FillerLength(b: seq<byte>, le: bool)
    requires |b| == 4 && b[0] == b[1] == b[2] == b[3] == 0x7F
    ensures Get(b, le) == 0x7F7F_7F7F
  {
    assert Reverse(b) == b;
    var b1, b2, b3 := b[1..], b[2..], b[3..];
    assert b1[1..] == b2 && b2[1..] == b3 && b3[1..] == [];
    assert FromLe([]) == 0;
    assert FromLe(b3) == 0x7F;
    assert FromLe(b2) == 0x7F + 256 * FromLe(b3);
    assert FromLe(b1) == 0x7F + 256 * FromLe(b2);
    assert FromLe(b) == 0x7F + 256 * FromLe(b1);
  }

  /** Inside such a text, the extractor takes four of its bytes for a length, and runs out of data. */
  lemma TextOverrun(r: Source, n: nat, p: nat, e: nat)
    requires r.c.xcdr2 && r.base <= p <= |r.buf| < 0x7F7F_7F7F && p + 4 <= e && e + 8 <= p + n
    requires Ready(r, Field(r.c, AnyText, Txt(Filler(n))), p)
    ensures r.base <= e && Skipped(r, X.String, e).None? && Got(r, X.String, e).None?
  {
    hide *;
    TextReady(r, Filler(n), p);
    TextLies(r, Filler(n), p);
    var a, at := p + PadAt(r, p), e + PadTo(SpOf(r, e), 4);
    AheadInText(r, p, e);
    FillerBytes(r.buf, a + 4, n, at);
    FillerLength(r.buf[at..at + 4], r.c.le);
    TooLong(r, e);
  }

  lemma AheadInText(r: Source, p: nat, e: nat)
    requires r.c.xcdr2 && r.base <= p && p + 4 <= e
    ensures p + PadAt(r, p) + 4 <= e + PadTo(SpOf(r, e), 4) < e + 4
  {
    StillBehind(r.c, SpOf(r, p), SpOf(r, e), 4);
    PadBelow(SpOf(r, e), 4);
    hide PadTo;
  }

  lemma FillerBytes(buf: seq<byte>, start: nat, n: nat, at: nat)
    requires start <= at && at + 4 <= start + n && start + n + 1 <= |buf|
    requires buf[start..start + n + 1] == Filler(n) + [0]
    ensures var b := buf[at..at + 4]; b[0] == b[1] == b[2] == b[3] == 0x7F
  {
    FillerByte(buf, start, n, at);
    FillerByte(buf, start, n, at + 1);
    FillerByte(buf, start, n, at + 2);
    FillerByte(buf, start, n, at + 3);
  }

  lemma FillerByte(buf: seq<byte>, start: nat, n: nat, i: nat)
    requires start <= i < start + n && start + n + 1 <= |buf| && buf[start..start + n + 1] == Filler(n) + [0]
    ensures buf[i] == 0x7F
  {
    assert buf[i] == buf[start..start + n + 1][i - start] == Filler(n)[i - start];
  }

  lemma TooLong(r: Source, e: nat)
    requires r.base <= e && |r.buf| < 0x7F7F_7F7F
    requires var at := e + PadTo(SpOf(r, e), 4); at + 4 <= |r.buf| ==> Get(r.buf[at..at + 4], r.c.le) == 0x7F7F_7F7F
    ensures Skipped(r, X.String, e).None? && Got(r, X.String, e).None?
  {
    X.AlignBodyPads(e, r.base, 4);
    hide Get, PadTo, X.AlignBody, Utf8.IsUtf8;
  }
}
