/**
  The extractor returns every value of a field from every message if and only if the 64-bit fields up to it are in
  front of all strings, and on multiples of 8 there.
 */
module ExtractorIff {
  import opened Bytes
  import opened Scripts
  import opened WriterSteps
  import opened WireTypes
  import opened Decoding
  import opened Readback
  import opened Messages
  import opened ExtractorAgreement
  import opened ExtractorLimits
  import opened ExtractorSamples
  import Utf8
  import Wrappers
  import X = FieldExtractor

  // ----------------------------------------------------------------------------- a number asked for

  lemma NumberDiffers(k: X.FieldKind, n: nat)
    requires IsNumber(k) && n < Pow256(X.SizeOf(k))
    ensures X.NumberOf(k, n) != X.NumberOf(k, if n == 0 then 1 else 0)
    ensures HasType(Num(if n == 0 then 1 else 0), TypeOf(k))
  {
    PowValues();
    hide Pow256;
  }

  /** The field asked for is behind a stray one, over numbers: some value of it does not come back. */
  lemma LaterFieldMisread(c: Cfg, ext: Ext, fields: seq<X.FieldDescriptor>, vs: seq<Value>, tail: seq<byte>, name: string, j: nat)
    returns (ws: seq<Value>)
    requires IsFlatSample(c, ext, fields, vs) && c.xcdr2 && IsStray(c, ext, fields, vs, tail, j)
    requires var i := X.FirstNamed(fields, name); j < i < |fields| == |vs| && NumbersFrom(fields, j, i + 1)
    ensures IsFlatSample(c, ext, fields, ws) && !Returned(c, ext, fields, ws, tail, name)
    ensures |ws| == |vs| && forall j :: 0 <= j < |vs| && j != X.FirstNamed(fields, name) ==> ws[j] == vs[j]
  {
    hide *;
    var i := X.FirstNamed(fields, name);
    var r, pos := Stream(c, ext, fields, vs, tail), FirstField(c, ext);
    var k := fields[i].kind;
    LastNumber(fields, j, i);
    SampleReady(c, ext, fields, vs, tail, name);
    StrayIs(c, ext, fields, vs, tail, j);
    FieldTyped(fields, vs, i);
    BehindStray(r, fields, vs, pos, j, i);
    ExtractVia(r, fields, pos, name);
    var e := SkipTo(r, fields, pos, i);
    if e.None? {
      ws := vs;
      NotReturned(c, ext, fields, vs, tail, name);
    } else {
      var at, w := LooksAt(r, k, e.value), X.SizeOf(k);
      NumberSeen(r, k, e.value);
      if at + w > |r.buf| {
        ws := vs;
        NotReturned(c, ext, fields, vs, tail, name);
      } else {
        BehindIs(r, WrittenAt(r, fields, vs, pos, i), e.value);
        ws := ShiftedMisread(c, ext, fields, vs, tail, name, j, i, e.value);
      }
    }
  }

  lemma BehindIs(r: Source, p: nat, e: nat)
    requires IsBehind(r, p, e)
    ensures r.base <= p && p + 4 <= e && e - r.base <= 2 * (p - r.base)
  {
  }

  lemma LastNumber(fields: seq<X.FieldDescriptor>, j: nat, i: nat)
    requires j <= i < |fields| && NumbersFrom(fields, j, i + 1)
    ensures IsNumber(fields[i].kind) && NumbersFrom(fields, j, i)
  {
  }

  /** The extractor looks a word or more behind where the field is. */
  lemma ShiftedMisread(c: Cfg, ext: Ext, fields: seq<X.FieldDescriptor>, vs: seq<Value>, tail: seq<byte>, name: string, j: nat, i: nat, e: nat)
    returns (ws: seq<Value>)
    requires IsFlatSample(c, ext, fields, vs) && c.xcdr2 && IsStray(c, ext, fields, vs, tail, j)
    requires i == X.FirstNamed(fields, name) && j < i < |fields| == |vs| && IsNumber(fields[i].kind) && NumbersFrom(fields, j, i)
    requires HaveTypes(vs, TypesOf(fields)) && HasType(vs[i], TypeOf(fields[i].kind))
    requires var r, pos := Stream(c, ext, fields, vs, tail), FirstField(c, ext);
             && r.base <= pos && SkipTo(r, fields, pos, i) == Wrappers.Some(e)
             && WrittenAt(r, fields, vs, pos, i) + 4 <= e
             && LooksAt(r, fields[i].kind, e) + X.SizeOf(fields[i].kind) <= |r.buf|
    ensures IsFlatSample(c, ext, fields, ws) && !Returned(c, ext, fields, ws, tail, name)
    ensures |ws| == |vs| && forall j :: 0 <= j < |vs| && j != X.FirstNamed(fields, name) ==> ws[j] == vs[j]
  {
    hide *;
    var r, pos := Stream(c, ext, fields, vs, tail), FirstField(c, ext);
    var k, w := fields[i].kind, X.SizeOf(fields[i].kind);
    var at := LooksAt(r, k, e);
    SampleReady(c, ext, fields, vs, tail, name);
    ReadyAt(r, fields, vs, pos, i);
    var p := WrittenAt(r, fields, vs, pos, i);
    NumberWritten(r, k, vs[i], p);
    Apart(r, k, p, e);
    var end := WrittenAt(r, fields, vs, pos, i + 1);
    var n := Get(r.buf[at..at + w], c.le);
    var x := if end <= at then Num(if n == 0 then 1 else 0) else Num(Telltale(c.le));
    GetBound(r.buf[at..at + w], c.le);
    NumberDiffers(k, n);
    if at < end {
      TelltaleTyped(k, c.le);
    }
    ws := vs[i := x];
    MessageReplace(c, ext, fields, vs, tail, i, x);
    var q := Stream(c, ext, fields, ws, tail);
    SampleReady(c, ext, fields, ws, tail, name);
    StrayIs(c, ext, fields, vs, tail, j);
    SameBut(vs, i, x, i);
    SameBut(vs, i, x, j);
    PrefixAllOnEight(r, q, fields, vs, ws, pos, j, i);
    SameSkipsBehind(r, q, fields, vs, ws, pos, j, i);
    SameSkip(r, q, k, e);
    ExtractVia(q, fields, pos, name);
    NumberSeen(q, k, e);
    NotText(k);
    ExpectedNumber(k, x);
    if end <= at {
      SliceBehind(r.buf, q.buf, end, at, w);
    } else {
      PrefixPositions(r, q, fields, vs, ws, pos, i);
      ReadyAt(q, fields, ws, pos, i);
      SameSp(r, q, p);
      NumberLies(q, k, x, p);
      NumberWritten(q, k, x, p);
      TelltaleBytes(c.le);
      ShiftedBytes(q, p + Pad(c, SpOf(q, p), w) + 8, Put(x.n, 8, c.le));
      ShiftedReadDiffers(k, q.buf[at..at + 8], c.le);
    }
    NotReturned(c, ext, fields, ws, tail, name);
  }

  lemma GetBound(b: seq<byte>, le: bool)
    ensures Get(b, le) < Pow256(|b|)
  {
    PutGet(b, le);
  }

  lemma TelltaleTyped(k: X.FieldKind, le: bool)
    requires IsNumber(k) && X.SizeOf(k) == 8
    ensures HasType(Num(Telltale(le)), TypeOf(k))
  {
    PowValues();
  }

  /** Either behind the whole field, or on the second half of a 64-bit one. */
  lemma Apart(r: Source, k: X.FieldKind, p: nat, e: nat)
    requires r.c.xcdr2 && r.base <= p && p + 4 <= e && IsNumber(k)
    ensures var at, w := LooksAt(r, k, e), X.SizeOf(k);
            var start := p + Pad(r.c, SpOf(r, p), w);
            start + w <= at || (w == 8 && at == start + 4)
  {
    var w := X.SizeOf(k);
    StillBehind(r.c, SpOf(r, p), SpOf(r, e), w);
    if w == 8 {
      Words(SpOf(r, p) + PadTo(SpOf(r, p), 4), SpOf(r, e) + PadTo(SpOf(r, e), 8));
    }
    hide PadTo;
  }

  lemma Words(x: nat, y: nat)
    requires x % 4 == 0 && y % 8 == 0 && x + 4 <= y
    ensures x + 8 <= y || y == x + 4
  {
  }

  lemma SliceBehind(a: seq<byte>, b: seq<byte>, o: nat, at: nat, w: nat)
    requires |a| == |b| && o <= at && at + w <= |a| && a[o..] == b[o..]
    ensures a[at..at + w] == b[at..at + w]
  {
    SliceOfSlice(a, o, at - o, w);
    SliceOfSlice(b, o, at - o, w);
  }

  lemma SliceOfSlice(s: seq<byte>, o: nat, i: nat, w: nat)
    requires o + i + w <= |s|
    ensures s[o..][i..i + w] == s[o + i..o + i + w]
  {
    var x, y := s[o..][i..i + w], s[o + i..o + i + w];
    assert |x| == |y| == w;
    forall k | 0 <= k < w ensures x[k] == y[k] {
      assert x[k] == s[o..][i + k] == s[o + (i + k)] && y[k] == s[o + i + k];
    }
  }

  // ----------------------------------------------------------------------------------- the stray field

  /** Field `j` of a message is the first 64-bit one off the multiples of 8. */
  predicate IsStray(c: Cfg, ext: Ext, fields: seq<X.FieldDescriptor>, vs: seq<Value>, tail: seq<byte>, j: nat)
    requires IsFlatSample(c, ext, fields, vs)
  {
    var r, pos := Stream(c, ext, fields, vs, tail), FirstField(c, ext);
    && j < |fields| && r.base <= pos && AllOnEight(r, fields, vs, pos, j)
    && !OnEight(r, fields[j].kind, WrittenAt(r, fields, vs, pos, j))
  }

  lemma StrayIs(c: Cfg, ext: Ext, fields: seq<X.FieldDescriptor>, vs: seq<Value>, tail: seq<byte>, j: nat)
    requires IsFlatSample(c, ext, fields, vs) && IsStray(c, ext, fields, vs, tail, j) && HaveTypes(vs, TypesOf(fields))
    ensures var r, pos := Stream(c, ext, fields, vs, tail), FirstField(c, ext);
            && j < |fields| && r.base <= pos && AllOnEight(r, fields, vs, pos, j)
            && !OnEight(r, fields[j].kind, WrittenAt(r, fields, vs, pos, j))
  {
    hide IsFlatSample, Stream, FirstField, AllOnEight, OnEight, WrittenAt;
  }

  lemma MakeStray(c: Cfg, ext: Ext, fields: seq<X.FieldDescriptor>, vs: seq<Value>, tail: seq<byte>, j: nat)
    requires IsFlatSample(c, ext, fields, vs) && HaveTypes(vs, TypesOf(fields))
    requires var r, pos := Stream(c, ext, fields, vs, tail), FirstField(c, ext);
             && j < |fields| && r.base <= pos && AllOnEight(r, fields, vs, pos, j)
             && !OnEight(r, fields[j].kind, WrittenAt(r, fields, vs, pos, j))
    ensures IsStray(c, ext, fields, vs, tail, j)
  {
    hide IsFlatSample, Stream, FirstField, AllOnEight, OnEight, WrittenAt;
  }

  lemma FirstStray(r: Source, fields: seq<X.FieldDescriptor>, vs: seq<Value>, pos: nat, n: nat) returns (j: nat)
    requires r.base <= pos && HaveTypes(vs, TypesOf(fields)) && n <= |fields| && !AllOnEight(r, fields, vs, pos, n)
    ensures j < n && AllOnEight(r, fields, vs, pos, j) && !OnEight(r, fields[j].kind, WrittenAt(r, fields, vs, pos, j))
  {
    hide OnEight, WrittenAt, HaveTypes, TypesOf;
    j := 0;
    while OnEight(r, fields[j].kind, WrittenAt(r, fields, vs, pos, j))
      invariant j < n && AllOnEight(r, fields, vs, pos, j)
      decreases n - j
    {
      assert AllOnEight(r, fields, vs, pos, j + 1);
      j := j + 1;
    }
  }

  /** The field asked for is itself the first stray one. */
  lemma OwnMisread(c: Cfg, ext: Ext, fields: seq<X.FieldDescriptor>, vs: seq<Value>, tail: seq<byte>, name: string) returns (ws: seq<Value>)
    requires IsFlatSample(c, ext, fields, vs) && IsStray(c, ext, fields, vs, tail, X.FirstNamed(fields, name)) && |vs| == |fields|
    ensures IsFlatSample(c, ext, fields, ws) && !Returned(c, ext, fields, ws, tail, name)
    ensures X.FirstNamed(fields, name) < |fields| && IsNumber(fields[X.FirstNamed(fields, name)].kind) && |ws| == |vs|
  {
    hide *;
    var i := X.FirstNamed(fields, name);
    var r, pos := Stream(c, ext, fields, vs, tail), FirstField(c, ext);
    SampleReady(c, ext, fields, vs, tail, name);
    StrayIs(c, ext, fields, vs, tail, i);
    var k := fields[i].kind;
    OffByOneWord(r, k, WrittenAt(r, fields, vs, pos, i));
    AreNumbers(k);
    TelltaleTyped(k, c.le);
    var x := Num(Telltale(c.le));
    ws := vs[i := x];
    MessageReplace(c, ext, fields, vs, tail, i, x);
    var q := Stream(c, ext, fields, ws, tail);
    SampleReady(c, ext, fields, ws, tail, name);
    SameBut(vs, i, x, i);
    PrefixAllOnEight(r, q, fields, vs, ws, pos, i, i);
    PrefixOnEight(r, q, fields, vs, ws, pos, i);
    MessageStray(c, ext, fields, ws, tail, name);
  }

  lemma AreNumbers(k: X.FieldKind)
    ensures IsNumber(k) <==> !k.String?
  {
  }

  // -------------------------------------------------------------------- a string behind the stray field

  /** The field asked for, if it is a string, holds text. */
  predicate AsksText(fields: seq<X.FieldDescriptor>, vs: seq<Value>, name: string) {
    var i := X.FirstNamed(fields, name);
    i < |fields| && i < |vs| && (fields[i].kind.String? ==> vs[i].Txt? && Utf8.IsUtf8(vs[i].s))
  }

  lemma StillAsks(fields: seq<X.FieldDescriptor>, vs: seq<Value>, name: string, s: nat, m: nat)
    requires s < |vs| && vs[s].Txt? && (s == X.FirstNamed(fields, name) < |fields| || AsksText(fields, vs, name))
    ensures AsksText(fields, vs[s := Longer(vs[s], m)], name)
  {
    LongerIsText(vs[s], m);
    hide Utf8.IsUtf8, Longer;
  }

  /** A string between the stray field and the one asked for can hold what the extractor takes for an endless string. */
  lemma TextMisread(c: Cfg, ext: Ext, fields: seq<X.FieldDescriptor>, vs: seq<Value>, tail: seq<byte>, name: string, j: nat, s: nat)
    returns (ws: seq<Value>)
    requires IsFlatSample(c, ext, fields, vs) && c.xcdr2 && IsStray(c, ext, fields, vs, tail, j) && AsksText(fields, vs, name)
    requires |Stream(c, ext, fields, vs, tail).buf| <= 0x1000_0004
    requires var i := X.FirstNamed(fields, name); j < s <= i < |fields| == |vs| && fields[s].kind.String? && NumbersFrom(fields, j, s)
    ensures IsFlatSample(c, ext, fields, ws) && AsksText(fields, ws, name) && !Returned(c, ext, fields, ws, tail, name)
  {
    hide *;
    WordIs();
    PowValues();
    var i := X.FirstNamed(fields, name);
    var r, pos := Stream(c, ext, fields, vs, tail), FirstField(c, ext);
    SampleReady(c, ext, fields, vs, tail, name);
    StrayIs(c, ext, fields, vs, tail, j);
    FieldTyped(fields, vs, s);
    ReadyAt(r, fields, vs, pos, s);
    var m := |r.buf|;
    MessageLonger(c, ext, fields, vs, tail, s, m);
    StillAsks(fields, vs, name, s, m);
    LongerIsText(vs[s], m);
    ws := vs[s := Longer(vs[s], m)];
    var q := Stream(c, ext, fields, ws, tail);
    SampleReady(c, ext, fields, ws, tail, name);
    SameBut(vs, s, ws[s], s);
    SameBut(vs, s, ws[s], j);
    PrefixAllOnEight(r, q, fields, vs, ws, pos, j, j);
    PrefixOnEight(r, q, fields, vs, ws, pos, j);
    PrefixPositions(r, q, fields, vs, ws, pos, s);
    FieldTyped(fields, ws, s);
    FieldTyped(fields, ws, i);
    ReadyAt(q, fields, ws, pos, s);
    BehindStray(q, fields, ws, pos, j, s);
    var p, e := WrittenAt(q, fields, ws, pos, s), SkipTo(q, fields, pos, s);
    if e.Some? {
      BehindIs(q, p, e.value);
      StreamBase(c, ext, fields, ws, tail);
      IsAnyText(fields[s].kind, ws[s]);
      TextOverrun(q, |vs[s].s| + 4 * m, p, e.value);
    }
    IsText(fields[s].kind);
    ExtractVia(q, fields, pos, name);
    if s < i {
      Stops(q, fields, pos, s, i);
    }
    NotReturned(c, ext, fields, ws, tail, name);
  }

  lemma IsText(k: X.FieldKind)
    requires k.String?
    ensures k == X.String
  {
  }

  lemma StreamBase(c: Cfg, ext: Ext, fields: seq<X.FieldDescriptor>, vs: seq<Value>, tail: seq<byte>)
    requires IsFlatSample(c, ext, fields, vs)
    ensures Stream(c, ext, fields, vs, tail).base == 4
  {
  }

  /** The first string behind field `j`, up to field `i`. */
  lemma FirstText(fields: seq<X.FieldDescriptor>, j: nat, i: nat) returns (s: nat)
    requires j < i < |fields| && IsNumber(fields[j].kind)
    ensures j < s <= i + 1 && NumbersFrom(fields, j, s) && (s <= i ==> fields[s].kind.String?)
  {
    s := j + 1;
    while s <= i && IsNumber(fields[s].kind)
      invariant j < s <= i + 1 && NumbersFrom(fields, j, s)
    {
      s := s + 1;
    }
  }

  /** From a message with a stray field to one that is misread. */
  lemma StrayMisread(c: Cfg, ext: Ext, fields: seq<X.FieldDescriptor>, vs: seq<Value>, tail: seq<byte>, name: string, j: nat)
    returns (ws: seq<Value>)
    requires IsFlatSample(c, ext, fields, vs) && c.xcdr2 && IsStray(c, ext, fields, vs, tail, j) && AsksText(fields, vs, name)
    requires var i := X.FirstNamed(fields, name);
             && j <= i < |fields| == |vs|
             && (NumbersOnly(fields, i + 1) || |Stream(c, ext, fields, vs, tail).buf| <= 0x1000_0004)
    ensures IsFlatSample(c, ext, fields, ws) && AsksText(fields, ws, name) && !Returned(c, ext, fields, ws, tail, name)
  {
    hide *;
    var i := X.FirstNamed(fields, name);
    if j == i {
      ws := OwnMisread(c, ext, fields, vs, tail, name);
      AsksNumber(fields, ws, name);
    } else {
      StrayIsNumber(c, ext, fields, vs, tail, j);
      var s := FirstText(fields, j, i);
      if s <= i {
        TextAmong(fields, s, i);
        ws := TextMisread(c, ext, fields, vs, tail, name, j, s);
      } else {
        ws := LaterFieldMisread(c, ext, fields, vs, tail, name, j);
        LastNumber(fields, j, i);
        AsksNumber(fields, ws, name);
      }
    }
  }

  lemma TextAmong(fields: seq<X.FieldDescriptor>, s: nat, i: nat)
    requires s <= i < |fields| && fields[s].kind.String?
    ensures !NumbersOnly(fields, i + 1)
  {
    assert !IsNumber(fields[s].kind);
  }

  lemma StrayIsNumber(c: Cfg, ext: Ext, fields: seq<X.FieldDescriptor>, vs: seq<Value>, tail: seq<byte>, j: nat)
    requires IsFlatSample(c, ext, fields, vs) && IsStray(c, ext, fields, vs, tail, j)
    ensures j < |fields| && IsNumber(fields[j].kind)
  {
    hide IsFlatSample, Stream, FirstField, AllOnEight, WrittenAt, SpOf, PadAt;
  }

  lemma AsksNumber(fields: seq<X.FieldDescriptor>, vs: seq<Value>, name: string)
    requires X.FirstNamed(fields, name) < |fields| == |vs| && IsNumber(fields[X.FirstNamed(fields, name)].kind)
    ensures AsksText(fields, vs, name)
  {
  }

  // ------------------------------------------------------------------------------- the exact condition

  /** No 64-bit field among the first `n` is behind a string. */
  predicate LongsFirst(fields: seq<X.FieldDescriptor>, n: nat)
    requires n <= |fields|
  {
    forall s, j :: 0 <= s < j < n && fields[s].kind.String? ==> !IsLong(fields[j].kind)
  }

  /** The 64-bit fields among the first `n` are on multiples of 8, whatever the values. */
  predicate FixedOnEight(r: Source, fields: seq<X.FieldDescriptor>, vs: seq<Value>, pos: nat, n: nat)
    requires r.base <= pos && HaveTypes(vs, TypesOf(fields)) && n <= |fields|
  {
    AllOnEight(r, fields, vs, pos, n) && (r.c.xcdr2 ==> LongsFirst(fields, n))
  }

  lemma FixedForAll(r: Source, q: Source, fields: seq<X.FieldDescriptor>, vs: seq<Value>, ws: seq<Value>, pos: nat, n: nat)
    requires r.c == q.c && r.base == q.base <= pos && n <= |fields|
    requires HaveTypes(vs, TypesOf(fields)) && HaveTypes(ws, TypesOf(fields)) && FixedOnEight(r, fields, vs, pos, n)
    ensures AllOnEight(q, fields, ws, pos, n)
  {
    hide OnEight, WrittenAt, HaveTypes, TypesOf;
    forall i | 0 <= i < n ensures OnEight(q, fields[i].kind, WrittenAt(q, fields, ws, pos, i)) {
      if q.c.xcdr2 && IsLong(fields[i].kind) {
        NumbersAhead(fields, i, n);
        SamePositions(r, q, fields, vs, ws, pos, i);
        SameOnEight(r, q, fields[i].kind, WrittenAt(r, fields, vs, pos, i));
      } else {
        NothingToCheck(q, fields[i].kind, WrittenAt(q, fields, ws, pos, i));
      }
    }
  }

  lemma NumbersAhead(fields: seq<X.FieldDescriptor>, i: nat, n: nat)
    requires i < n <= |fields| && LongsFirst(fields, n) && IsLong(fields[i].kind)
    ensures NumbersOnly(fields, i)
  {
  }

  lemma NothingToCheck(r: Source, k: X.FieldKind, p: nat)
    requires r.base <= p && !(r.c.xcdr2 && IsLong(k))
    ensures OnEight(r, k, p)
  {
  }

  lemma ReturnedIf(c: Cfg, ext: Ext, fields: seq<X.FieldDescriptor>, vs: seq<Value>, tail: seq<byte>, name: string)
    requires IsFlatSample(c, ext, fields, vs) && AsksText(fields, vs, name)
    requires var i := X.FirstNamed(fields, name);
             && i < |fields| == |vs|
             && Stream(c, ext, fields, vs, tail).base <= FirstField(c, ext)
             && AllOnEight(Stream(c, ext, fields, vs, tail), fields, vs, FirstField(c, ext), i + 1)
    ensures Returned(c, ext, fields, vs, tail, name)
  {
    hide *;
    var i := X.FirstNamed(fields, name);
    SampleReady(c, ext, fields, vs, tail, name);
    FieldTyped(fields, vs, i);
    AskedText(fields, vs, name);
    ExtractsWritten(Stream(c, ext, fields, vs, tail), fields, vs, FirstField(c, ext), name);
    IsReturned(c, ext, fields, vs, tail, name);
  }

  lemma AskedText(fields: seq<X.FieldDescriptor>, vs: seq<Value>, name: string)
    requires AsksText(fields, vs, name)
    ensures var i := X.FirstNamed(fields, name);
            i < |fields| && i < |vs| && (fields[i].kind.String? ==> vs[i].Txt? && Utf8.IsUtf8(vs[i].s))
  {
    hide Utf8.IsUtf8;
  }

  lemma IsReturned(c: Cfg, ext: Ext, fields: seq<X.FieldDescriptor>, vs: seq<Value>, tail: seq<byte>, name: string)
    requires IsFlatSample(c, ext, fields, vs) && |vs| == |fields|
    requires var i := X.FirstNamed(fields, name);
             i < |fields| && HasType(vs[i], TypeOf(fields[i].kind))
             && Extracted(c, ext, fields, vs, tail, name) == X.Ok(Expected(fields[i].kind, vs[i]))
    ensures Returned(c, ext, fields, vs, tail, name)
  {
    hide Extracted, IsFlatSample, Expected, HasType, TypeOf;
  }

  /** A message like the given one in which the field asked for holds text. */
  lemma WithText(c: Cfg, ext: Ext, fields: seq<X.FieldDescriptor>, vs: seq<Value>, tail: seq<byte>, name: string) returns (ws: seq<Value>)
    requires IsFlatSample(c, ext, fields, vs) && c.xcdr2 && |vs| == |fields| && HaveTypes(vs, TypesOf(fields))
    requires var i := X.FirstNamed(fields, name);
             && i < |fields| && Stream(c, ext, fields, vs, tail).base <= FirstField(c, ext)
             && (NumbersOnly(fields, i + 1) || |Stream(c, ext, fields, vs, tail).buf| < 0x1000_0000)
    ensures IsFlatSample(c, ext, fields, ws) && AsksText(fields, ws, name) && |ws| == |fields| && HaveTypes(ws, TypesOf(fields))
    ensures |Stream(c, ext, fields, ws, tail).buf| == |Stream(c, ext, fields, vs, tail).buf|
    ensures var i, pos := X.FirstNamed(fields, name), FirstField(c, ext);
            AllOnEight(Stream(c, ext, fields, ws, tail), fields, ws, pos, i + 1) <==>
              AllOnEight(Stream(c, ext, fields, vs, tail), fields, vs, pos, i + 1)
  {
    hide *;
    var i := X.FirstNamed(fields, name);
    AreNumbers(fields[i].kind);
    if IsNumber(fields[i].kind) {
      ws := vs;
      AsksNumber(fields, ws, name);
    } else {
      TextAmong(fields, i, i);
      WordIs();
      PowValues();
      MessageLonger(c, ext, fields, vs, tail, i, 0);
      StillAsks(fields, vs, name, i, 0);
      ws := vs[i := Longer(vs[i], 0)];
      SampleReady(c, ext, fields, ws, tail, name);
      SameBut(vs, i, ws[i], i);
      StreamSame(c, ext, fields, vs, ws, tail);
      PrefixAllOnEight(Stream(c, ext, fields, vs, tail), Stream(c, ext, fields, ws, tail), fields, vs, ws, FirstField(c, ext), i + 1, i);
    }
  }

  lemma StreamSame(c: Cfg, ext: Ext, fields: seq<X.FieldDescriptor>, vs: seq<Value>, ws: seq<Value>, tail: seq<byte>)
    requires IsFlatSample(c, ext, fields, vs) && IsFlatSample(c, ext, fields, ws)
    ensures Stream(c, ext, fields, vs, tail).base == Stream(c, ext, fields, ws, tail).base
    ensures Stream(c, ext, fields, vs, tail).c == Stream(c, ext, fields, ws, tail).c == c
  {
    hide IsFlatSample, Message;
  }

  /** A 64-bit field behind a string is off the multiples of 8 in some message. */
  lemma BehindTextStrays(c: Cfg, ext: Ext, fields: seq<X.FieldDescriptor>, vs: seq<Value>, tail: seq<byte>, s: nat, j: nat, i: nat)
    requires IsFlatSample(c, ext, fields, vs) && c.xcdr2 && |vs| == |fields| && HaveTypes(vs, TypesOf(fields))
    requires s < j <= i < |fields| && fields[s].kind.String? && IsLong(fields[j].kind)
    requires |Stream(c, ext, fields, vs, tail).buf| < 0x1000_0000
    requires Stream(c, ext, fields, vs, tail).base <= FirstField(c, ext)
    requires AllOnEight(Stream(c, ext, fields, vs, tail), fields, vs, FirstField(c, ext), i + 1)
    ensures vs[s].Txt? && IsFlatSample(c, ext, fields, vs[s := Longer(vs[s], 1)])
    ensures var ws := vs[s := Longer(vs[s], 1)];
            var q := Stream(c, ext, fields, ws, tail);
            && HaveTypes(ws, TypesOf(fields)) && q.base <= FirstField(c, ext) && |q.buf| == |Stream(c, ext, fields, vs, tail).buf| + 4
            && !AllOnEight(q, fields, ws, FirstField(c, ext), i + 1)
  {
    hide *;
    WordIs();
    PowValues();
    var pos := FirstField(c, ext);
    MessageLonger(c, ext, fields, vs, tail, s, 1);
    var ws := vs[s := Longer(vs[s], 1)];
    var r, q := Stream(c, ext, fields, vs, tail), Stream(c, ext, fields, ws, tail);
    SampleReady(c, ext, fields, ws, tail, "");
    StreamSame(c, ext, fields, vs, ws, tail);
    BehindLonger(r, q, fields, vs, pos, s, 1, j);
    OneOfAll(r, fields, vs, pos, j, i + 1);
    Toggles(r, q, fields[j].kind, WrittenAt(r, fields, vs, pos, j));
    if AllOnEight(q, fields, ws, pos, i + 1) {
      OneOfAll(q, fields, ws, pos, j, i + 1);
    }
  }

  lemma OneOfAll(r: Source, fields: seq<X.FieldDescriptor>, vs: seq<Value>, pos: nat, j: nat, n: nat)
    requires r.base <= pos && HaveTypes(vs, TypesOf(fields)) && j < n <= |fields| && AllOnEight(r, fields, vs, pos, n)
    ensures OnEight(r, fields[j].kind, WrittenAt(r, fields, vs, pos, j))
  {
    hide OnEight, WrittenAt, HaveTypes, TypesOf;
  }

  lemma Toggles(r: Source, q: Source, k: X.FieldKind, p: nat)
    requires r.c == q.c && r.c.xcdr2 && r.base == q.base <= p && IsLong(k) && OnEight(r, k, p)
    ensures !OnEight(q, k, p + 4)
  {
    CeilShift(SpOf(r, p), 4);
    var x := SpOf(r, p) + PadTo(SpOf(r, p), 4);
    HalfOff(x);
    hide PadTo;
  }

  lemma HalfOff(x: nat)
    requires x % 8 == 0
    ensures (x + 4) % 8 == 4
  {
  }

  lemma SomeMisread(c: Cfg, ext: Ext, fields: seq<X.FieldDescriptor>, vs: seq<Value>, tail: seq<byte>, name: string) returns (ws: seq<Value>)
    requires IsFlatSample(c, ext, fields, vs) && HaveTypes(vs, TypesOf(fields)) && |vs| == |fields|
    requires var i := X.FirstNamed(fields, name);
             && i < |fields| && Stream(c, ext, fields, vs, tail).base <= FirstField(c, ext)
             && (NumbersOnly(fields, i + 1) || |Stream(c, ext, fields, vs, tail).buf| < 0x1000_0000)
             && !FixedOnEight(Stream(c, ext, fields, vs, tail), fields, vs, FirstField(c, ext), i + 1)
    ensures IsFlatSample(c, ext, fields, ws) && AsksText(fields, ws, name) && !Returned(c, ext, fields, ws, tail, name)
  {
    hide *;
    var i, pos := X.FirstNamed(fields, name), FirstField(c, ext);
    StreamSame(c, ext, fields, vs, vs, tail);
    NotFixed(Stream(c, ext, fields, vs, tail), fields, vs, pos, i + 1);
    ws := WithText(c, ext, fields, vs, tail, name);
    StreamSame(c, ext, fields, vs, ws, tail);
    if AllOnEight(Stream(c, ext, fields, ws, tail), fields, ws, pos, i + 1) {
      var s, j := LongBehindText(fields, i + 1);
      TextAmong(fields, s, i);
      BehindTextStrays(c, ext, fields, ws, tail, s, j, i);
      StillAsks(fields, ws, name, s, 1);
      ws := ws[s := Longer(ws[s], 1)];
    }
    var k := FirstStray(Stream(c, ext, fields, ws, tail), fields, ws, pos, i + 1);
    MakeStray(c, ext, fields, ws, tail, k);
    ws := StrayMisread(c, ext, fields, ws, tail, name, k);
  }

  lemma NotFixed(r: Source, fields: seq<X.FieldDescriptor>, vs: seq<Value>, pos: nat, n: nat)
    requires r.base <= pos && HaveTypes(vs, TypesOf(fields)) && n <= |fields| && !FixedOnEight(r, fields, vs, pos, n)
    ensures r.c.xcdr2 && (AllOnEight(r, fields, vs, pos, n) ==> !LongsFirst(fields, n))
  {
    if !r.c.xcdr2 {
      Xcdr1OnEight(r, fields, vs, pos, n);
    }
    hide AllOnEight, LongsFirst, HaveTypes;
  }

  lemma LongBehindText(fields: seq<X.FieldDescriptor>, n: nat) returns (s: nat, j: nat)
    requires n <= |fields| && !LongsFirst(fields, n)
    ensures s < j < n && fields[s].kind.String? && IsLong(fields[j].kind)
  {
    s, j :| 0 <= s < j < n && fields[s].kind.String? && IsLong(fields[j].kind);
  }

  /**
    In XCDR1 and XCDR2, for every final or appendable flat type and every field of it: the extractor returns each of
    its values from every message if and only if the 64-bit fields up to it are in front of all strings, and on
    multiples of 8.  Given is one message of the type; where there are strings, one of less than 256 megabytes.
   */
  lemma ExtractsIff(c: Cfg, ext: Ext, fields: seq<X.FieldDescriptor>, vs: seq<Value>, tail: seq<byte>, name: string)
    requires IsFlatSample(c, ext, fields, vs)
    requires var i := X.FirstNamed(fields, name);
             && i < |fields|
             && (NumbersOnly(fields, i + 1) || |Stream(c, ext, fields, vs, tail).buf| < 0x1000_0000)
    ensures (forall ws :: IsFlatSample(c, ext, fields, ws) && AsksText(fields, ws, name) ==> Returned(c, ext, fields, ws, tail, name)) <==>
              FixedOnEight(Stream(c, ext, fields, vs, tail), fields, vs, FirstField(c, ext), X.FirstNamed(fields, name) + 1)
  {
    hide *;
    var i := X.FirstNamed(fields, name);
    var r, pos := Stream(c, ext, fields, vs, tail), FirstField(c, ext);
    SampleReady(c, ext, fields, vs, tail, name);
    if FixedOnEight(r, fields, vs, pos, i + 1) {
      forall ws | IsFlatSample(c, ext, fields, ws) && AsksText(fields, ws, name) ensures Returned(c, ext, fields, ws, tail, name) {
        SampleReady(c, ext, fields, ws, tail, name);
        StreamSame(c, ext, fields, vs, ws, tail);
        FixedForAll(r, Stream(c, ext, fields, ws, tail), fields, vs, ws, pos, i + 1);
        ReturnedIf(c, ext, fields, ws, tail, name);
      }
    } else {
      var ws := SomeMisread(c, ext, fields, vs, tail, name);
      assert IsFlatSample(c, ext, fields, ws) && AsksText(fields, ws, name) && !Returned(c, ext, fields, ws, tail, name);
    }
  }
}
