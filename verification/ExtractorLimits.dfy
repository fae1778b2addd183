/**
  Where the extractor goes wrong: from the first 64-bit field off the multiples of 8 on it is behind the writer by
  a word or more for good, so that no field there comes back for all of its values.
 */
module ExtractorLimits {
  import opened Bytes
  import opened Scripts
  import opened WriterSteps
  import opened WireTypes
  import opened Decoding
  import opened Readback
  import opened Evolution
  import opened EvolutionProof
  import opened Messages
  import opened ExtractorAgreement
  import Wrappers
  import X = FieldExtractor

  // ------------------------------------------------------------------------------------ falling behind

  lemma CeilMono(x: nat, y: nat, a: nat)
    requires x <= y && (a == 1 || a == 2 || a == 4 || a == 8)
    ensures x + PadTo(x, a) <= y + PadTo(y, a)
  {
    hide PadTo;
    var m, n := x + PadTo(x, a), y + PadTo(y, a);
    if a == 8 {
      MultiplesApart(m / 8, n / 8, 8, m, n);
    } else if a == 4 {
      MultiplesApart(m / 4, n / 4, 4, m, n);
    } else if a == 2 {
      MultiplesApart(m / 2, n / 2, 2, m, n);
    }
  }

  lemma MultiplesApart(p: nat, q: nat, a: nat, m: nat, n: nat)
    requires (a == 2 || a == 4 || a == 8) && m == a * p && n == a * q && m < n + a
    ensures m <= n
  {
  }

  lemma CeilCoarser(x: nat)
    ensures PadTo(x, 4) <= PadTo(x, 8)
  {
    PadsApart(x);
  }

  lemma CeilShift(x: nat, a: nat)
    requires a == 1 || a == 2 || a == 4
    ensures PadTo(x + 4, a) == PadTo(x, a)
  {
    if a == 4 {
      SamePad4(x + 4, x);
    } else if a == 2 {
      SamePad2(x + 4, x);
    }
    hide PadTo;
  }

  /** Behind by a word before aligning is behind by a word after it. */
  lemma StillBehind(c: Cfg, x: nat, y: nat, w: nat)
    requires c.xcdr2 && x + 4 <= y && (w == 1 || w == 2 || w == 4 || w == 8)
    ensures x + Pad(c, x, w) + 4 <= y + PadTo(y, w)
  {
    var a := if w == 8 then 4 else w;
    CeilShift(x, a);
    CeilMono(x + 4, y, a);
    if w == 8 {
      CeilCoarser(y);
    }
    hide PadTo;
  }

  predicate IsNumber(k: X.FieldKind) {
    !k.String?
  }

  predicate NumbersOnly(fields: seq<X.FieldDescriptor>, n: nat)
    requires n <= |fields|
  {
    forall i :: 0 <= i < n ==> IsNumber(fields[i].kind)
  }

  /** Numbers from field `j` up to field `n`. */
  predicate NumbersFrom(fields: seq<X.FieldDescriptor>, j: nat, n: nat)
    requires j <= n <= |fields|
  {
    forall i :: j <= i < n ==> IsNumber(fields[i].kind)
  }

  /** Where the extractor looks for a number. */
  function LooksAt(r: Source, k: X.FieldKind, e: nat): (at: nat)
    requires r.base <= e && IsNumber(k)
    ensures e <= at
  {
    e + PadTo(SpOf(r, e), X.SizeOf(k))
  }

  lemma NumberSeen(r: Source, k: X.FieldKind, e: nat)
    requires r.base <= e && IsNumber(k)
    ensures var at, w := LooksAt(r, k, e), X.SizeOf(k);
            && Skipped(r, k, e) == (if at + w <= |r.buf| then Wrappers.Some(at + w) else Wrappers.None)
            && (Got(r, k, e).Some? <==> at + w <= |r.buf|)
            && (at + w <= |r.buf| ==> Got(r, k, e).value.0 == X.NumberOf(k, Get(r.buf[at..at + w], r.c.le)))
  {
    var at, w := LooksAt(r, k, e), X.SizeOf(k);
    hide X.ReadField, X.SkipField, X.NumberOf, PadTo, Get;
    if at + w <= |r.buf| {
      NumberAt(r, k, e, at, Get(r.buf[at..at + w], r.c.le));
    } else {
      NumberBeyond(r, k, e);
    }
  }

  /** Where the writer put a number. */
  lemma NumberWritten(r: Source, k: X.FieldKind, v: Value, pos: nat)
    requires r.base <= pos && IsNumber(k) && HasType(v, TypeOf(k))
    ensures After(r, TypeOf(k), v, pos) == pos + Pad(r.c, SpOf(r, pos), X.SizeOf(k)) + X.SizeOf(k)
  {
    var f := Field(r.c, TypeOf(k), v);
    assert f == Scalar(X.SizeOf(k), v.n, Done);
    LayoutOne(r.c, f, SpOf(r, pos));
    hide Layout, Put, Pad, Zeros;
  }

  /** Behind the writer by a word or more, and by no more than the writer has written. */
  predicate IsBehind(r: Source, p: nat, e: nat) {
    r.base <= p && p + 4 <= e && e - r.base <= 2 * (p - r.base)
  }

  /** Once behind by a word, the extractor never catches up. */
  lemma {:induction false} NeverCatchesUp(r: Source, fields: seq<X.FieldDescriptor>, vs: seq<Value>, pos: nat, e: nat, n: nat)
    requires r.c.xcdr2 && r.base <= pos && IsBehind(r, pos, e) && r.base <= e && n <= |fields| && NumbersOnly(fields, n)
    requires HaveTypes(vs, TypesOf(fields))
    ensures SkipTo(r, fields, e, n).Some? ==> IsBehind(r, WrittenAt(r, fields, vs, pos, n), SkipTo(r, fields, e, n).value)
    decreases n
  {
    hide *;
    if n == 0 {
      AtStart(r, fields, vs, pos, e);
    } else {
      var k := fields[0].kind;
      Tail(fields, vs);
      NumbersTail(fields, n);
      StepBehind(r, k, vs[0], pos, e);
      SkipToUnfold(r, fields, e, n);
      WrittenToUnfold(r, fields, vs, pos, n);
      if Skipped(r, k, e).Some? {
        NeverCatchesUp(r, fields[1..], vs[1..], After(r, TypeOf(k), vs[0], pos), Skipped(r, k, e).value, n - 1);
      }
    }
  }

  lemma AtStart(r: Source, fields: seq<X.FieldDescriptor>, vs: seq<Value>, pos: nat, e: nat)
    requires r.base <= pos && r.base <= e && HaveTypes(vs, TypesOf(fields))
    ensures SkipTo(r, fields, e, 0) == Wrappers.Some(e) && WrittenAt(r, fields, vs, pos, 0) == pos
  {
    hide HaveTypes, TypesOf;
  }

  lemma StepBehind(r: Source, k: X.FieldKind, v: Value, pos: nat, e: nat)
    requires r.c.xcdr2 && r.base <= pos && IsBehind(r, pos, e) && r.base <= e && IsNumber(k) && HasType(v, TypeOf(k))
    ensures Skipped(r, k, e).Some? ==> IsBehind(r, After(r, TypeOf(k), v, pos), Skipped(r, k, e).value)
  {
    NumberSeen(r, k, e);
    NumberWritten(r, k, v, pos);
    StillBehind(r.c, SpOf(r, pos), SpOf(r, e), X.SizeOf(k));
    PadBelow(SpOf(r, e), X.SizeOf(k));
    hide Pad, PadTo, X.SkipField, After, HasType, Got;
  }

  lemma PadBelow(sp: nat, w: nat)
    requires w == 1 || w == 2 || w == 4 || w == 8
    ensures PadTo(sp, w) < w
  {
    hide PadTo;
  }

  lemma SkipToUnfold(r: Source, fields: seq<X.FieldDescriptor>, e: nat, n: nat)
    requires r.base <= e && 0 < n <= |fields|
    ensures Skipped(r, fields[0].kind, e).Some? ==> e <= Skipped(r, fields[0].kind, e).value <= |r.buf|
    ensures SkipTo(r, fields, e, n) ==
            if Skipped(r, fields[0].kind, e).Some? then SkipTo(r, fields[1..], Skipped(r, fields[0].kind, e).value, n - 1)
            else Wrappers.None
  {
    X.SkipAgreesWithRead(r.buf, e, r.base, r.c.le, fields[0].kind);
    hide X.SkipField, X.ReadField;
  }

  lemma WrittenToUnfold(r: Source, fields: seq<X.FieldDescriptor>, vs: seq<Value>, pos: nat, n: nat)
    requires r.base <= pos && HaveTypes(vs, TypesOf(fields)) && 0 < n <= |fields|
    requires vs != [] && HasType(vs[0], TypeOf(fields[0].kind)) && HaveTypes(vs[1..], TypesOf(fields[1..]))
    ensures WrittenAt(r, fields, vs, pos, n) ==
            WrittenAt(r, fields[1..], vs[1..], After(r, TypeOf(fields[0].kind), vs[0], pos), n - 1)
  {
    hide HasType, After, TypeOf;
  }

  lemma NumbersTail(fields: seq<X.FieldDescriptor>, n: nat)
    requires 0 < n <= |fields| && NumbersOnly(fields, n)
    ensures IsNumber(fields[0].kind) && NumbersOnly(fields[1..], n - 1)
  {
  }

  /** Past the first stray field, as far as numbers go, the extractor has failed or is behind. */
  lemma {:induction false} BehindStray(r: Source, fields: seq<X.FieldDescriptor>, vs: seq<Value>, pos: nat, j: nat, n: nat)
    requires r.c.xcdr2 && r.base <= pos <= |r.buf| && j < n <= |fields| && NumbersFrom(fields, j, n)
    requires HaveTypes(vs, TypesOf(fields)) && Ready(r, Fields(r.c, TypesOf(fields), vs), pos)
    requires AllOnEight(r, fields, vs, pos, j) && !OnEight(r, fields[j].kind, WrittenAt(r, fields, vs, pos, j))
    ensures SkipTo(r, fields, pos, n).Some? ==> IsBehind(r, WrittenAt(r, fields, vs, pos, n), SkipTo(r, fields, pos, n).value)
    decreases j
  {
    hide *;
    var k := fields[0].kind;
    ReadyTail(r, fields, vs, pos);
    var p := After(r, TypeOf(k), vs[0], pos);
    SkipToUnfold(r, fields, pos, n);
    WrittenToUnfold(r, fields, vs, pos, n);
    NumbersFromTail(fields, j, n);
    if j == 0 {
      AtStart(r, fields, vs, pos, pos);
      NumberOff(r, k, vs[0], pos);
      OffByOneWord(r, k, pos);
      NumberWritten(r, k, vs[0], pos);
      if Skipped(r, k, pos).Some? {
        OneWordBehind(r, pos, p);
        NeverCatchesUp(r, fields[1..], vs[1..], p, p + 4, n - 1);
      }
    } else {
      AllOnEightUnfold(r, fields, vs, pos, j);
      WrittenToUnfold(r, fields, vs, pos, j);
      FieldStep(r, k, vs[0], pos);
      BehindStray(r, fields[1..], vs[1..], p, j - 1, n - 1);
    }
  }

  lemma OneWordBehind(r: Source, pos: nat, p: nat)
    requires r.base <= pos && pos + 8 <= p
    ensures IsBehind(r, p, p + 4)
  {
  }

  lemma NumbersFromTail(fields: seq<X.FieldDescriptor>, j: nat, n: nat)
    requires j < n <= |fields| && NumbersFrom(fields, j, n)
    ensures j == 0 ==> IsNumber(fields[0].kind) && NumbersOnly(fields[1..], n - 1)
    ensures j > 0 ==> NumbersFrom(fields[1..], j - 1, n - 1) && fields[1..][j - 1] == fields[j]
  {
  }

  /** Extraction is skipping to the field and reading it. */
  lemma {:induction false} ExtractVia(r: Source, fields: seq<X.FieldDescriptor>, pos: nat, name: string)
    requires r.base <= pos && X.FirstNamed(fields, name) < |fields|
    ensures var i := X.FirstNamed(fields, name);
            var e := SkipTo(r, fields, pos, i);
            && (e.None? ==> X.Extract(r.buf, fields, pos, r.base, r.c.le, name).Err?)
            && (e.Some? ==>
                  && r.base <= e.value
                  && X.Extract(r.buf, fields, pos, r.base, r.c.le, name) ==
                     match Got(r, fields[i].kind, e.value) case None => X.Err(X.CannotParse(name)) case Some((p, _)) => X.Ok(p))
    decreases |fields|
  {
    hide X.Extract, X.SkipField, X.ReadField;
    ExtractUnfold(r, fields, pos, name);
    if fields[0].name != name {
      var i := X.FirstNamed(fields, name);
      SkipToUnfold(r, fields, pos, i);
      var s := Skipped(r, fields[0].kind, pos);
      if s.Some? {
        ExtractVia(r, fields[1..], s.value, name);
      } else {
        SkipFails(r, fields, pos, name);
      }
    }
  }

  lemma SkipFails(r: Source, fields: seq<X.FieldDescriptor>, pos: nat, name: string)
    requires r.base <= pos && fields != [] && fields[0].name != name && Skipped(r, fields[0].kind, pos).None?
    ensures X.Extract(r.buf, fields, pos, r.base, r.c.le, name).Err?
  {
    hide X.SkipField, X.ReadField;
  }

  // -------------------------------------------------------------------------- what comes back, and what does not

  /** A message of a final or appendable flat struct, and a field of it. */
  predicate IsFlatSample(c: Cfg, ext: Ext, fields: seq<X.FieldDescriptor>, vs: seq<Value>) {
    && |fields| < U32 && !ext.Mutable? && HaveTypes(vs, TypesOf(fields))
    && HasType(List(vs), FlatType(ext, fields)) && Representable(c, FlatType(ext, fields), List(vs))
  }

  function Stream(c: Cfg, ext: Ext, fields: seq<X.FieldDescriptor>, vs: seq<Value>, tail: seq<byte>): (r: Source)
    requires IsFlatSample(c, ext, fields, vs)
    ensures r.base == 4 && r.c == c
  {
    Source(Message(c, FlatType(ext, fields), List(vs)) + tail, 4, c)
  }

  /** What the extractor returns for a message. */
  function Extracted(c: Cfg, ext: Ext, fields: seq<X.FieldDescriptor>, vs: seq<Value>, tail: seq<byte>, name: string): X.Result<X.Parameter>
    requires IsFlatSample(c, ext, fields, vs)
  {
    var data := Stream(c, ext, fields, vs, tail).buf;
    if |data| < 4 then X.Err(X.TooShort)
    else X.Extract(data, fields, X.StartOf(data, ext), 4, Get(data[..2], false) % 2 == 1, name)
  }

  predicate Returned(c: Cfg, ext: Ext, fields: seq<X.FieldDescriptor>, vs: seq<Value>, tail: seq<byte>, name: string)
    requires IsFlatSample(c, ext, fields, vs)
  {
    var i := X.FirstNamed(fields, name);
    i < |fields| && HasType(vs[i], TypeOf(fields[i].kind))
    && Extracted(c, ext, fields, vs, tail, name) == X.Ok(Expected(fields[i].kind, vs[i]))
  }

  lemma SampleReady(c: Cfg, ext: Ext, fields: seq<X.FieldDescriptor>, vs: seq<Value>, tail: seq<byte>, name: string)
    requires IsFlatSample(c, ext, fields, vs)
    ensures HaveTypes(vs, TypesOf(fields)) && |vs| == |fields|
    ensures var r, pos := Stream(c, ext, fields, vs, tail), FirstField(c, ext);
            && r.base <= pos <= |r.buf| && Ready(r, Fields(c, TypesOf(fields), vs), pos)
            && Extracted(c, ext, fields, vs, tail, name) == X.Extract(r.buf, fields, pos, r.base, c.le, name)
  {
    MessageFields(c, ext, fields, vs, tail);
    AtLeast4(c, ext);
    hide Ready, Fields, Message, Representable, TypesOf, HasType, Get, X.Extract, X.StartOf, FirstField, FlatType;
  }

  lemma FieldTyped(fields: seq<X.FieldDescriptor>, vs: seq<Value>, i: nat)
    requires HaveTypes(vs, TypesOf(fields)) && i < |fields|
    ensures |vs| == |fields| && HasType(vs[i], TypeOf(fields[i].kind)) && TypesOf(fields)[i] == TypeOf(fields[i].kind)
  {
    hide HasType, TypeOf;
  }

  /** From every XCDR2 message in which the field asked for is the first stray one, its telltale value does not come back. */
  lemma MessageStray(c: Cfg, ext: Ext, fields: seq<X.FieldDescriptor>, vs: seq<Value>, tail: seq<byte>, name: string)
    requires IsFlatSample(c, ext, fields, vs)
    requires var i := X.FirstNamed(fields, name);
             var r, pos := Stream(c, ext, fields, vs, tail), FirstField(c, ext);
             && r.base <= pos && i < |fields| == |vs| && vs[i] == Num(Telltale(c.le))
             && AllOnEight(r, fields, vs, pos, i) && !OnEight(r, fields[i].kind, WrittenAt(r, fields, vs, pos, i))
    ensures !Returned(c, ext, fields, vs, tail, name)
  {
    hide *;
    SampleReady(c, ext, fields, vs, tail, name);
    FieldTyped(fields, vs, X.FirstNamed(fields, name));
    StrayFieldMisread(Stream(c, ext, fields, vs, tail), fields, vs, FirstField(c, ext), name);
    NotReturned(c, ext, fields, vs, tail, name);
  }

  lemma NotReturned(c: Cfg, ext: Ext, fields: seq<X.FieldDescriptor>, vs: seq<Value>, tail: seq<byte>, name: string)
    requires IsFlatSample(c, ext, fields, vs) && |vs| == |fields|
    requires var i := X.FirstNamed(fields, name);
             i < |fields| && HasType(vs[i], TypeOf(fields[i].kind))
             && Extracted(c, ext, fields, vs, tail, name) != X.Ok(Expected(fields[i].kind, vs[i]))
    ensures !Returned(c, ext, fields, vs, tail, name)
  {
    hide Extracted, IsFlatSample, Expected, HasType, TypeOf;
  }

  /** A field as it lies in the stream. */
  lemma {:induction false} ReadyAt(r: Source, fields: seq<X.FieldDescriptor>, vs: seq<Value>, pos: nat, i: nat)
    requires r.base <= pos <= |r.buf| && HaveTypes(vs, TypesOf(fields)) && i < |fields| && |vs| == |fields|
    requires HasType(vs[i], TypeOf(fields[i].kind)) && Ready(r, Fields(r.c, TypesOf(fields), vs), pos)
    ensures var p := WrittenAt(r, fields, vs, pos, i);
            && p <= |r.buf| && Ready(r, Field(r.c, TypeOf(fields[i].kind), vs[i]), p)
            && WrittenAt(r, fields, vs, pos, i + 1) == After(r, TypeOf(fields[i].kind), vs[i], p)
    decreases i
  {
    hide *;
    ReadyTail(r, fields, vs, pos);
    WrittenToUnfold(r, fields, vs, pos, i + 1);
    var p := After(r, TypeOf(fields[0].kind), vs[0], pos);
    if i == 0 {
      AtStart(r, fields, vs, pos, pos);
      AtStart(r, fields[1..], vs[1..], p, p);
    } else {
      WrittenToUnfold(r, fields, vs, pos, i);
      ReadyAt(r, fields[1..], vs[1..], p, i - 1);
    }
  }

  lemma {:induction false} WrittenToEnd(r: Source, fields: seq<X.FieldDescriptor>, vs: seq<Value>, pos: nat)
    requires r.base <= pos && HaveTypes(vs, TypesOf(fields)) && Ready(r, Fields(r.c, TypesOf(fields), vs), pos)
    ensures WrittenAt(r, fields, vs, pos, |fields|) == EndOf(r, Fields(r.c, TypesOf(fields), vs), pos)
    decreases |fields|
  {
    if fields == [] {
      assert Fields(r.c, TypesOf(fields), vs) == Done;
      EmptyEnd(r, pos);
    } else {
      hide *;
      ReadyTail(r, fields, vs, pos);
      WrittenToUnfold(r, fields, vs, pos, |fields|);
      WrittenToEnd(r, fields[1..], vs[1..], After(r, TypeOf(fields[0].kind), vs[0], pos));
      EndUnfold(r, fields, vs, pos);
    }
  }

  lemma EndUnfold(r: Source, fields: seq<X.FieldDescriptor>, vs: seq<Value>, pos: nat)
    requires r.base <= pos && fields != [] && HaveTypes(vs, TypesOf(fields)) && Ready(r, Fields(r.c, TypesOf(fields), vs), pos)
    requires vs != [] && HasType(vs[0], TypeOf(fields[0].kind)) && HaveTypes(vs[1..], TypesOf(fields[1..]))
    ensures EndOf(r, Fields(r.c, TypesOf(fields), vs), pos) ==
            EndOf(r, Fields(r.c, TypesOf(fields[1..]), vs[1..]), After(r, TypeOf(fields[0].kind), vs[0], pos))
  {
    Tail(fields, vs);
    hide Ready, TypesOf, TypeOf, HasType, Field, IsType, Append, EndOf, After;
    var t := TypeOf(fields[0].kind);
    ReadyAppend(r, Field(r.c, t, vs[0]), Fields(r.c, TypesOf(fields[1..]), vs[1..]), pos);
    AfterIsEnd(r, t, vs[0], pos);
  }

  /** Nothing follows the fields of a message. */
  lemma MessageEnds(c: Cfg, ext: Ext, fields: seq<X.FieldDescriptor>, vs: seq<Value>)
    requires IsFlatSample(c, ext, fields, vs)
    ensures var r := Stream(c, ext, fields, vs, []);
            FirstField(c, ext) >= r.base && EndOf(r, Fields(c, TypesOf(fields), vs), FirstField(c, ext)) == |r.buf|
  {
    var t, v := FlatType(ext, fields), List(vs);
    var r := Stream(c, ext, fields, vs, []);
    var k := Fields(c, t.types, vs);
    var on := c.xcdr2 && ext.Appendable?;
    assert Plain(c, t, v) == Frame(on, k);
    MessageReady(c, t, v, []);
    assert Message(c, t, v) + [] == Message(c, t, v);
    WholeMessage(c, t, v);
    hide Ready, Fields, Message, Representable, TypesOf, HasType, Layout, Plain, EndOf;
    FrameUnfold(r, on, k, 4);
    if on {
      FrameReads(r, k, 4);
      assert BodyAt(r, true, 4) == 8;
    }
  }

  /** When the stray field is the last thing in the message, it cannot be read at all, whatever its value. */
  lemma LastStrayFails(c: Cfg, ext: Ext, fields: seq<X.FieldDescriptor>, vs: seq<Value>, name: string)
    requires IsFlatSample(c, ext, fields, vs)
    requires var i := X.FirstNamed(fields, name);
             var r, pos := Stream(c, ext, fields, vs, []), FirstField(c, ext);
             && r.base <= pos && i + 1 == |fields|
             && AllOnEight(r, fields, vs, pos, i) && !OnEight(r, fields[i].kind, WrittenAt(r, fields, vs, pos, i))
    ensures Extracted(c, ext, fields, vs, [], name) == X.Err(X.CannotParse(name))
  {
    hide *;
    var i := X.FirstNamed(fields, name);
    var r, pos := Stream(c, ext, fields, vs, []), FirstField(c, ext);
    SampleReady(c, ext, fields, vs, [], name);
    FieldTyped(fields, vs, i);
    ReadyAt(r, fields, vs, pos, i);
    WrittenToEnd(r, fields, vs, pos);
    MessageEnds(c, ext, fields, vs);
    InStepIff(r, fields, vs, pos, i);
    InStepLast(r, fields, vs, pos, i);
    NumberOff(r, fields[i].kind, vs[i], WrittenAt(r, fields, vs, pos, i));
    ExtractVia(r, fields, pos, name);
  }

  lemma InStepLast(r: Source, fields: seq<X.FieldDescriptor>, vs: seq<Value>, pos: nat, n: nat)
    requires r.base <= pos && HaveTypes(vs, TypesOf(fields)) && n <= |fields| && InStep(r, fields, vs, pos, n)
    ensures SkipTo(r, fields, pos, n) == Wrappers.Some(WrittenAt(r, fields, vs, pos, n))
  {
    hide SkipTo, WrittenAt, HaveTypes, TypesOf;
  }

  const TwoFields: seq<X.FieldDescriptor> := [X.FieldDescriptor("a", X.Int32), X.FieldDescriptor("b", X.Int64)]

  /** For one: a final struct of an int32 and an int64 in XCDR2.  The int64 is written at offset 4 and never found. */
  lemma Int32ThenInt64(le: bool, x: nat, y: nat)
    requires x < 0x1_0000_0000 && y < 0x1_0000_0000_0000_0000
    ensures IsFlatSample(Cfg(le, true), Final, TwoFields, [Num(x), Num(y)])
    ensures Extracted(Cfg(le, true), Final, TwoFields, [Num(x), Num(y)], [], "b") == X.Err(X.CannotParse("b"))
  {
    var c, vs := Cfg(le, true), [Num(x), Num(y)];
    TwoFieldsSample(c, x, y);
    var r := Stream(c, Final, TwoFields, vs, []);
    TwoFieldsApart(r, x, y);
    NamedB();
    hide *;
    FirstOfFinal(c);
    LastStrayFails(c, Final, TwoFields, vs, "b");
  }

  lemma NamedB()
    ensures X.FirstNamed(TwoFields, "b") == 1 && |TwoFields| == 2
  {
    assert "a"[0] != "b"[0];
    assert X.FirstNamed(TwoFields[1..], "b") == 0;
  }

  lemma FirstOfFinal(c: Cfg)
    ensures FirstField(c, Final) == 4
  {
  }

  lemma TwoFieldsTyped(x: nat, y: nat)
    requires x < 0x1_0000_0000 && y < 0x1_0000_0000_0000_0000
    ensures HaveTypes([Num(x), Num(y)], TypesOf(TwoFields))
    ensures TypesOf(TwoFields) == [Int(4), Int(8)]
  {
    PowValues();
    assert TypesOf(TwoFields) == [Int(4), Int(8)];
  }

  lemma TwoFieldsSample(c: Cfg, x: nat, y: nat)
    requires x < 0x1_0000_0000 && y < 0x1_0000_0000_0000_0000
    ensures IsFlatSample(c, Final, TwoFields, [Num(x), Num(y)])
  {
    TwoFieldsTyped(x, y);
    TwoFieldsCalls(c, x, y);
    TwoFieldsSize(c, x, y);
    hide *;
    var t, v := FlatType(Final, TwoFields), List([Num(x), Num(y)]);
    TwoFieldsFlat();
    TypedList(t, [Num(x), Num(y)]);
    FinalPlain(c, t, [Num(x), Num(y)]);
    SampleOfTwo(c, t, v);
  }

  lemma TwoFieldsFlat()
    ensures |TwoFields| < U32
  {
  }

  lemma TypedList(t: Type, vs: seq<Value>)
    requires t.Struct? && HaveTypes(vs, t.types)
    ensures HasType(List(vs), t)
  {
  }

  lemma FinalPlain(c: Cfg, t: Type, vs: seq<Value>)
    requires t.Struct? && t.ext == Final && IsType(t) && HasType(List(vs), t) && AreTypes(t.types) && HaveTypes(vs, t.types)
    ensures Plain(c, t, List(vs)) == Fields(c, t.types, vs)
  {
    hide Fields, HasType, IsType;
  }

  lemma SampleOfTwo(c: Cfg, t: Type, v: Value)
    requires |TwoFields| < U32 && t == FlatType(Final, TwoFields) && v.List? && HaveTypes(v.vs, TypesOf(TwoFields)) && HasType(v, t)
    requires IdsFit(Plain(c, t, v)) && |Layout(c, Plain(c, t, v), 0)| < 100
    ensures IsFlatSample(c, Final, TwoFields, v.vs)
  {
    hide Layout, Plain, HasType, TypesOf, IdsFit;
  }

  lemma TwoFieldsSize(c: Cfg, x: nat, y: nat)
    ensures var k := Scalar(4, x, Scalar(8, y, Done)); IdsFit(k) && |Layout(c, k, 0)| < 100
  {
    var l := Scalar(8, y, Done);
    var k := Scalar(4, x, l);
    assert IdsFit(Done);
    assert IdsFit(l);
    assert IdsFit(k);
    hide IdsFit;
    LayoutUnfold(c, k, 0);
    ScalarLayout(c, 8, y, |Head(c, k, 0)|);
    hide Layout, Put, Zeros;
  }

  lemma TwoFieldsCalls(c: Cfg, x: nat, y: nat)
    requires HaveTypes([Num(x), Num(y)], TypesOf(TwoFields))
    ensures Fields(c, TypesOf(TwoFields), [Num(x), Num(y)]) == Scalar(4, x, Scalar(8, y, Done))
  {
    var ts, vs := [Int(4), Int(8)], [Num(x), Num(y)];
    assert TypesOf(TwoFields) == ts;
    FieldsHead(c, ts, vs);
    assert ts[1..] == [Int(8)] && vs[1..] == [Num(y)];
    FieldsOf1(c, Int(8), Num(y));
    hide Fields, TypesOf;
    assert Append(Scalar(8, y, Done), Done) == Scalar(8, y, Done);
    assert Append(Scalar(4, x, Done), Scalar(8, y, Done)) == Scalar(4, x, Scalar(8, y, Done));
  }

  lemma TwoFieldsApart(r: Source, x: nat, y: nat)
    requires r.base == 4 && r.c.xcdr2 && HaveTypes([Num(x), Num(y)], TypesOf(TwoFields))
    ensures AllOnEight(r, TwoFields, [Num(x), Num(y)], 4, 1)
    ensures !OnEight(r, TwoFields[1].kind, WrittenAt(r, TwoFields, [Num(x), Num(y)], 4, 1))
  {
    var vs := [Num(x), Num(y)];
    Tail(TwoFields, vs);
    NumberWritten(r, X.Int32, Num(x), 4);
    WrittenToUnfold(r, TwoFields, vs, 4, 1);
    AtStart(r, TwoFields[1..], vs[1..], After(r, Int(4), Num(x), 4), 4);
    hide After, HaveTypes, TypesOf, WrittenAt;
    assert Pad(r.c, 0, 4) == 0;
    assert WrittenAt(r, TwoFields, vs, 4, 1) == 8;
    assert OnEight(r, TwoFields[0].kind, WrittenAt(r, TwoFields, vs, 4, 0));
  }
}
