/**
  What the extractor returns, number by number: for each kind of field, the integer that was written.
 */
module ExtractorValues {
  import opened Bytes
  import opened Scripts
  import opened WriterSteps
  import opened WireTypes
  import opened Decoding
  import opened Readback
  import opened ExtractorAgreement
  import opened ExtractorLimits
  import opened ExtractorIff
  import Utf8
  import Wrappers
  import X = FieldExtractor

  /** The integer `x` in a field of kind `k` goes out as the number `n`. */
  predicate WrittenAs(k: X.FieldKind, x: int, n: nat) {
    match k
    case String => false
    case Bool => 0 <= x < 2 && n == x
    case UInt8 => 0 <= x < 0x100 && n == x
    case UInt16 => 0 <= x < 0x1_0000 && n == x
    case UInt32 => 0 <= x < 0x1_0000_0000 && n == x
    case UInt64 => 0 <= x < 0x1_0000_0000_0000_0000 && n == x
    case Int8 => -0x80 <= x < 0x80 && n == (if x < 0 then x + 0x100 else x)
    case Int16 => -0x8000 <= x < 0x8000 && n == (if x < 0 then x + 0x1_0000 else x)
    case Int32 => -0x8000_0000 <= x < 0x8000_0000 && n == (if x < 0 then x + 0x1_0000_0000 else x)
    case Int64 => -0x8000_0000_0000_0000 <= x < 0x8000_0000_0000_0000 && n == (if x < 0 then x + 0x1_0000_0000_0000_0000 else x)
  }

  /** For the signed kinds this is what the signed write calls do. */
  lemma SignedWrites(k: X.FieldKind, x: int, w: nat)
    requires (k.Int8? && w == 1) || (k.Int16? && w == 2) || (k.Int32? && w == 4) || (k.Int64? && w == 8)
    requires FitsSigned(x, w)
    ensures WrittenAs(k, x, FromSigned(x, w)) && HasType(Num(FromSigned(x, w)), TypeOf(k))
  {
    PowValues();
  }

  lemma ExpectedInteger(k: X.FieldKind, x: int, n: nat)
    requires WrittenAs(k, x, n) && HasType(Num(n), TypeOf(k))
    ensures Expected(k, Num(n)) == X.IntegerValue(x)
  {
    PowValues();
  }

  /**
    From every message of every flat final or appendable struct, in XCDR1 without a condition and in XCDR2 when the
    64-bit fields up to it are on multiples of 8: an integer field comes back as the integer it was.
   */
  lemma IntegersComeBack(c: Cfg, ext: Ext, fields: seq<X.FieldDescriptor>, vs: seq<Value>, tail: seq<byte>, name: string, x: int)
    requires IsFlatSample(c, ext, fields, vs)
    requires var i := X.FirstNamed(fields, name);
             && i < |fields| && i < |vs| && vs[i].Num? && WrittenAs(fields[i].kind, x, vs[i].n)
             && (c.xcdr2 ==> AllOnEight(Stream(c, ext, fields, vs, tail), fields, vs, FirstField(c, ext), i + 1))
    ensures Extracted(c, ext, fields, vs, tail, name) == X.Ok(X.IntegerValue(x))
  {
    hide *;
    var i := X.FirstNamed(fields, name);
    SampleReady(c, ext, fields, vs, tail, name);
    FieldTyped(fields, vs, i);
    NotAText(fields[i].kind, x, vs[i].n);
    AsksNumber(fields, vs, name);
    InStepHere(c, ext, fields, vs, tail, i + 1);
    ReturnedIf(c, ext, fields, vs, tail, name);
    ReturnedMeans(c, ext, fields, vs, tail, name);
    ExpectedInteger(fields[i].kind, x, vs[i].n);
  }

  /** And a string field as the text it was. */
  lemma TextsComeBack(c: Cfg, ext: Ext, fields: seq<X.FieldDescriptor>, vs: seq<Value>, tail: seq<byte>, name: string)
    requires IsFlatSample(c, ext, fields, vs)
    requires var i := X.FirstNamed(fields, name);
             && i < |fields| && i < |vs| && fields[i].kind.String? && vs[i].Txt? && Utf8.IsUtf8(vs[i].s)
             && (c.xcdr2 ==> AllOnEight(Stream(c, ext, fields, vs, tail), fields, vs, FirstField(c, ext), i + 1))
    ensures Extracted(c, ext, fields, vs, tail, name) == X.Ok(X.TextValue(vs[X.FirstNamed(fields, name)].s))
  {
    hide *;
    var i := X.FirstNamed(fields, name);
    SampleReady(c, ext, fields, vs, tail, name);
    FieldTyped(fields, vs, i);
    AsksGivenText(fields, vs, name);
    InStepHere(c, ext, fields, vs, tail, i + 1);
    ReturnedIf(c, ext, fields, vs, tail, name);
    ReturnedMeans(c, ext, fields, vs, tail, name);
    ExpectedText(fields[i].kind, vs[i]);
  }

  lemma ExpectedText(k: X.FieldKind, v: Value)
    requires k.String? && v.Txt? && HasType(v, TypeOf(k))
    ensures Expected(k, v) == X.TextValue(v.s)
  {
  }

  lemma AsksGivenText(fields: seq<X.FieldDescriptor>, vs: seq<Value>, name: string)
    requires var i := X.FirstNamed(fields, name); i < |fields| && i < |vs| && vs[i].Txt? && Utf8.IsUtf8(vs[i].s)
    ensures AsksText(fields, vs, name)
  {
    hide Utf8.IsUtf8;
  }

  lemma NotAText(k: X.FieldKind, x: int, n: nat)
    requires WrittenAs(k, x, n)
    ensures IsNumber(k)
  {
  }

  lemma InStepHere(c: Cfg, ext: Ext, fields: seq<X.FieldDescriptor>, vs: seq<Value>, tail: seq<byte>, n: nat)
    requires IsFlatSample(c, ext, fields, vs) && HaveTypes(vs, TypesOf(fields)) && n <= |fields|
    requires Stream(c, ext, fields, vs, tail).base <= FirstField(c, ext)
    requires c.xcdr2 ==> AllOnEight(Stream(c, ext, fields, vs, tail), fields, vs, FirstField(c, ext), n)
    ensures AllOnEight(Stream(c, ext, fields, vs, tail), fields, vs, FirstField(c, ext), n)
  {
    hide *;
    StreamSame(c, ext, fields, vs, vs, tail);
    if !c.xcdr2 {
      Xcdr1OnEight(Stream(c, ext, fields, vs, tail), fields, vs, FirstField(c, ext), n);
    }
  }

  lemma ReturnedMeans(c: Cfg, ext: Ext, fields: seq<X.FieldDescriptor>, vs: seq<Value>, tail: seq<byte>, name: string)
    requires IsFlatSample(c, ext, fields, vs) && |vs| == |fields| && Returned(c, ext, fields, vs, tail, name)
    ensures var i := X.FirstNamed(fields, name);
            i < |fields| && HasType(vs[i], TypeOf(fields[i].kind))
            && Extracted(c, ext, fields, vs, tail, name) == X.Ok(Expected(fields[i].kind, vs[i]))
  {
    hide Extracted, IsFlatSample, Expected, HasType, TypeOf;
  }

  // ------------------------------------------------------------------------------- on arbitrary bytes

  function BytesOf(k: X.FieldKind): nat
    requires !k.String?
  {
    match k
    case Bool => 1
    case Int8 => 1
    case UInt8 => 1
    case Int16 => 2
    case UInt16 => 2
    case Int32 => 4
    case UInt32 => 4
    case Int64 => 8
    case UInt64 => 8
  }

  /** What the bytes of a field say; a bool is whatever octet it is. */
  function Integer(k: X.FieldKind, n: nat): int
    requires !k.String?
  {
    match k
    case Int8 => if n < 0x80 then n else n - 0x100
    case Int16 => if n < 0x8000 then n else n - 0x1_0000
    case Int32 => if n < 0x8000_0000 then n else n - 0x1_0000_0000
    case Int64 => if n < 0x8000_0000_0000_0000 then n else n - 0x1_0000_0000_0000_0000
    case _ => n
  }

  /** From a position to the next multiple of `w`, counted from behind the header. */
  predicate NextMultiple(r: Source, pos: nat, at: nat, w: nat)
    requires r.base <= pos && w > 0
  {
    pos <= at < pos + w && (at - r.base) % w == 0
  }

  /** A number: at the next multiple of its width, the integer its bytes say, or nothing when they are not all there. */
  lemma NumberExtracted(r: Source, k: X.FieldKind, pos: nat, at: nat)
    requires r.base <= pos && !k.String? && NextMultiple(r, pos, at, BytesOf(k))
    ensures var w := BytesOf(k);
            X.ReadField(r.buf, pos, r.base, r.c.le, k) ==
            if at + w <= |r.buf| then Wrappers.Some((X.IntegerValue(Integer(k, Get(r.buf[at..at + w], r.c.le))), at + w))
            else Wrappers.None
  {
    hide *;
    var w := BytesOf(k);
    WidthIs(k);
    OnlyMultiple(r, pos, at, w);
    LooksThere(r, k, pos);
    NumberSeen(r, k, pos);
    GotIs(r, k, pos);
    X.SkipAgreesWithRead(r.buf, pos, r.base, r.c.le, k);
    if at + w <= |r.buf| {
      NumberMeans(k, Get(r.buf[at..at + w], r.c.le));
    }
  }

  lemma WidthIs(k: X.FieldKind)
    requires !k.String?
    ensures IsNumber(k) && X.SizeOf(k) == BytesOf(k)
    ensures BytesOf(k) == 1 || BytesOf(k) == 2 || BytesOf(k) == 4 || BytesOf(k) == 8
  {
  }

  lemma LooksThere(r: Source, k: X.FieldKind, pos: nat)
    requires r.base <= pos && IsNumber(k)
    ensures LooksAt(r, k, pos) == pos + PadTo(SpOf(r, pos), X.SizeOf(k))
  {
    hide PadTo;
  }

  lemma GotIs(r: Source, k: X.FieldKind, pos: nat)
    requires r.base <= pos
    ensures Got(r, k, pos) == X.ReadField(r.buf, pos, r.base, r.c.le, k)
    ensures Skipped(r, k, pos) == X.SkipField(r.buf, pos, r.base, r.c.le, k)
  {
    hide X.ReadField, X.SkipField;
  }

  lemma NumberMeans(k: X.FieldKind, n: nat)
    requires !k.String?
    ensures X.NumberOf(k, n) == X.IntegerValue(Integer(k, n))
  {
    PowValues();
    hide Pow256;
  }

  lemma OnlyMultiple(r: Source, pos: nat, at: nat, w: nat)
    requires r.base <= pos && (w == 1 || w == 2 || w == 4 || w == 8) && NextMultiple(r, pos, at, w)
    ensures at == pos + PadTo(SpOf(r, pos), w)
  {
    var sp, p := SpOf(r, pos), PadTo(SpOf(r, pos), w);
    var d := at - r.base - (sp + p);
    if w == 8 {
      SameMultiple8(at - r.base, sp + p);
    } else if w == 4 {
      SameMultiple4(at - r.base, sp + p);
    } else if w == 2 {
      SameMultiple2(at - r.base, sp + p);
    }
  }

  lemma SameMultiple8(a: nat, b: nat)
    requires a % 8 == 0 && b % 8 == 0 && a < b + 8 && b < a + 8
    ensures a == b
  {
  }

  lemma SameMultiple4(a: nat, b: nat)
    requires a % 4 == 0 && b % 4 == 0 && a < b + 4 && b < a + 4
    ensures a == b
  {
  }

  lemma SameMultiple2(a: nat, b: nat)
    requires a % 2 == 0 && b % 2 == 0 && a < b + 2 && b < a + 2
    ensures a == b
  {
  }

  /**
    A string: a length and as many bytes, of which a last one that is 0 is dropped and any other one is kept; nothing
    when they are not all there, or what is kept is not UTF-8.
   */
  lemma TextExtracted(r: Source, pos: nat, at: nat)
    requires r.base <= pos && NextMultiple(r, pos, at, 4)
    ensures at + 4 > |r.buf| ==> X.ReadField(r.buf, pos, r.base, r.c.le, X.String) == Wrappers.None
    ensures at + 4 <= |r.buf| ==>
              var n, got := Get(r.buf[at..at + 4], r.c.le), X.ReadField(r.buf, pos, r.base, r.c.le, X.String);
              var end := at + 4 + n;
              && (end > |r.buf| ==> got == Wrappers.None)
              && (end <= |r.buf| && n > 0 && r.buf[end - 1] == 0 ==> got == IfText(r.buf[at + 4..end - 1], end))
              && (end <= |r.buf| && (n == 0 || r.buf[end - 1] != 0) ==> got == IfText(r.buf[at + 4..end], end))
  {
    hide *;
    OnlyMultiple(r, pos, at, 4);
    X.AlignBodyPads(pos, r.base, 4);
    SpIsHere(r, pos);
    TextField(r, pos, at);
    if at + 4 <= |r.buf| {
      var n := Get(r.buf[at..at + 4], r.c.le);
      if at + 4 + n <= |r.buf| {
        TextKept(r.buf, at + 4, n);
      }
    }
  }

  lemma SpIsHere(r: Source, pos: nat)
    requires r.base <= pos
    ensures SpOf(r, pos) == pos - r.base
  {
  }

  lemma TextField(r: Source, pos: nat, at: nat)
    requires r.base <= pos && at == X.AlignBody(pos, r.base, 4)
    ensures X.ReadField(r.buf, pos, r.base, r.c.le, X.String) ==
            if at + 4 > |r.buf| then Wrappers.None
            else
              var end := at + 4 + Get(r.buf[at..at + 4], r.c.le);
              if end > |r.buf| then Wrappers.None else IfText(X.TextOf(r.buf[at + 4..end]), end)
  {
    hide Get, X.AlignBody, X.TextOf, Utf8.IsUtf8;
  }

  lemma TextKept(buf: seq<byte>, start: nat, n: nat)
    requires start + n <= |buf|
    ensures X.TextOf(buf[start..start + n]) ==
            if n > 0 && buf[start + n - 1] == 0 then buf[start..start + n - 1] else buf[start..start + n]
  {
    var raw := buf[start..start + n];
    if n > 0 {
      assert raw[n - 1] == buf[start + n - 1] && raw[..n - 1] == buf[start..start + n - 1];
    }
  }

  function IfText(s: seq<byte>, end: nat): Wrappers.Option<(X.Parameter, nat)> {
    if Utf8.IsUtf8(s) then Wrappers.Some((X.TextValue(s), end)) else Wrappers.None
  }
}
