/**
  Does the field extractor find what the CDR writer wrote?

  The extractor aligns 64-bit fields to 8 in every stream, while the writer aligns to at most 4 in XCDR2.
  It stays in step with the writer exactly as long as the 64-bit fields happen to lie on multiples of 8.
 */
module ExtractorAgreement {
  import opened Bytes
  import opened Scripts
  import opened WriterSteps
  import opened WireTypes
  import opened Decoding
  import opened Readback
  import opened Evolution
  import opened EvolutionProof
  import opened Messages
  import Utf8
  import Wrappers
  import X = FieldExtractor

  /** Where a writer keeps a string makes no difference on the wire. */
  const AnyText: Type := Str(Wrappers.None)

  function TypeOf(k: X.FieldKind): (t: Type)
    ensures IsType(t) && (IsScalar(t) || t.Str?)
  {
    match k
    case String => AnyText
    case Bool => Bool
    case Int8 => Int(1)
    case UInt8 => Int(1)
    case Int16 => Int(2)
    case UInt16 => Int(2)
    case Int32 => Int(4)
    case UInt32 => Int(4)
    case Int64 => Int(8)
    case UInt64 => Int(8)
  }

  function TypesOf(fields: seq<X.FieldDescriptor>): (ts: seq<Type>)
    ensures |ts| == |fields| && AreTypes(ts)
  {
    seq(|fields|, i requires 0 <= i < |fields| => TypeOf(fields[i].kind))
  }

  /** What the extractor should return for a field the writer wrote as `v`. */
  function Expected(k: X.FieldKind, v: Value): X.Parameter
    requires HasType(v, TypeOf(k))
  {
    match k
    case String => X.TextValue(v.s)
    case Int8 => X.IntegerValue(ToSigned(v.n, 1))
    case Int16 => X.IntegerValue(ToSigned(v.n, 2))
    case Int32 => X.IntegerValue(ToSigned(v.n, 4))
    case Int64 => X.IntegerValue(ToSigned(v.n, 8))
    case _ => X.IntegerValue(v.n)
  }

  predicate IsLong(k: X.FieldKind) {
    k.Int64? || k.UInt64?
  }

  /** A 64-bit field in an XCDR2 stream lies on a multiple of 8. */
  predicate OnEight(r: Source, k: X.FieldKind, pos: nat)
    requires r.base <= pos
  {
    r.c.xcdr2 && IsLong(k) ==> (SpOf(r, pos) + PadAt(r, pos)) % 8 == 0
  }

  function Skipped(r: Source, k: X.FieldKind, pos: nat): Wrappers.Option<nat>
    requires r.base <= pos
  {
    X.SkipField(r.buf, pos, r.base, r.c.le, k)
  }

  function Got(r: Source, k: X.FieldKind, pos: nat): Wrappers.Option<(X.Parameter, nat)>
    requires r.base <= pos
  {
    X.ReadField(r.buf, pos, r.base, r.c.le, k)
  }

  lemma PadsApart(sp: nat)
    ensures (sp + PadTo(sp, 4)) % 8 == 0 ==> PadTo(sp, 8) == PadTo(sp, 4)
    ensures (sp + PadTo(sp, 4)) % 8 != 0 ==> PadTo(sp, 8) == PadTo(sp, 4) + 4
  {
    var q, m := sp / 8, sp % 8;
    assert sp == 8 * q + m;
    Quotient4(sp, 2 * q + m / 4, m % 4);
    if m == 0 || m > 4 {
      Quotient8(sp + PadTo(sp, 4), if m == 0 then q else q + 1, 0);
    } else {
      Quotient8(sp + PadTo(sp, 4), q, 4);
    }
  }

  lemma PadAgrees(r: Source, k: X.FieldKind, pos: nat)
    requires r.base <= pos && !k.String? && OnEight(r, k, pos)
    ensures PadTo(SpOf(r, pos), X.SizeOf(k)) == Pad(r.c, SpOf(r, pos), X.SizeOf(k))
  {
    if r.c.xcdr2 && X.SizeOf(k) == 8 {
      PadsApart(SpOf(r, pos));
    }
  }

  lemma NumberCalls(c: Cfg, k: X.FieldKind, v: Value)
    requires !k.String? && HasType(v, TypeOf(k))
    ensures v.Num? && v.n < Pow256(X.SizeOf(k)) && IdsFit(Field(c, TypeOf(k), v))
    ensures Field(c, TypeOf(k), v) == Scalar(X.SizeOf(k), v.n, Done)
  {
    PowValues();
    hide Pow256;
  }

  lemma SizesOf(k: X.FieldKind)
    ensures AlignOf(X.SizeOf(k)) == X.SizeOf(k)
  {
  }

  lemma ReadyHolds(r: Source, k: Calls, pos: nat)
    requires Ready(r, k, pos)
    ensures r.base <= pos && Holds(r, pos, Layout(r.c, k, SpOf(r, pos))) && EndOf(r, k, pos) == pos + |Layout(r.c, k, SpOf(r, pos))|
  {
    hide Layout, Holds, IdsFit;
  }

  lemma NumberLies(r: Source, k: X.FieldKind, v: Value, pos: nat)
    requires r.base <= pos <= |r.buf| && !k.String? && HasType(v, TypeOf(k)) && Ready(r, Field(r.c, TypeOf(k), v), pos)
    ensures var w := X.SizeOf(k);
            var at := pos + Pad(r.c, SpOf(r, pos), w);
            && After(r, TypeOf(k), v, pos) == at + w <= |r.buf|
            && Holds(r, at, Put(v.n, w, r.c.le))
            && v.n < Pow256(w)
  {
    hide *;
    NumberCalls(r.c, k, v);
    var t, w := TypeOf(k), X.SizeOf(k);
    var f := Field(r.c, t, v);
    SizesOf(k);
    ScalarLayout(r.c, w, v.n, SpOf(r, pos));
    ReadyHolds(r, f, pos);
    AfterIsEnd(r, t, v, pos);
    HoldsSplit(r, pos, Zeros(Pad(r.c, SpOf(r, pos), w)), Put(v.n, w, r.c.le));
    ReadyBuf(r, f, pos);
  }

  /** A number in step: the extractor looks where the writer wrote. */
  lemma NumberStep(r: Source, k: X.FieldKind, v: Value, pos: nat)
    requires r.base <= pos <= |r.buf| && !k.String? && HasType(v, TypeOf(k)) && Ready(r, Field(r.c, TypeOf(k), v), pos)
    requires OnEight(r, k, pos)
    ensures Got(r, k, pos) == Wrappers.Some((Expected(k, v), After(r, TypeOf(k), v, pos)))
  {
    hide *;
    var w := X.SizeOf(k);
    var at := pos + Pad(r.c, SpOf(r, pos), w);
    ExpectedNumber(k, v);
    NumberLies(r, k, v, pos);
    PadAgrees(r, k, pos);
    ReadsNumber(r, at, w, v.n);
    NumberAt(r, k, pos, at, v.n);
  }

  lemma ExpectedNumber(k: X.FieldKind, v: Value)
    requires HasType(v, TypeOf(k)) && !k.String?
    ensures v.Num? && Expected(k, v) == X.NumberOf(k, v.n)
  {
  }

  /** What the extractor makes of a number at `at`. */
  lemma NumberAt(r: Source, k: X.FieldKind, pos: nat, at: nat, n: nat)
    requires r.base <= pos && !k.String? && at == pos + PadTo(SpOf(r, pos), X.SizeOf(k)) && at + X.SizeOf(k) <= |r.buf|
    requires Get(r.buf[at..at + X.SizeOf(k)], r.c.le) == n
    ensures Got(r, k, pos) == Wrappers.Some((X.NumberOf(k, n), at + X.SizeOf(k)))
    ensures Skipped(r, k, pos) == Wrappers.Some(at + X.SizeOf(k))
  {
    hide Get, PadTo, X.AlignBody, X.NumberOf;
    var w := X.SizeOf(k);
    X.AlignBodyPads(pos, r.base, w);
    if w == 1 {
      GetOne(r.buf[at..at + 1], r.c.le);
      assert at == pos;
    }
  }

  lemma GetOne(b: seq<byte>, le: bool)
    requires |b| == 1
    ensures Get(b, le) == b[0]
  {
    assert FromLe(b) == b[0] + 256 * FromLe(b[1..]);
    assert Reverse(b) == b;
  }

  lemma TextStep(r: Source, s: seq<byte>, pos: nat)
    requires r.base <= pos <= |r.buf| && Ready(r, Field(r.c, AnyText, Txt(s)), pos)
    ensures Skipped(r, X.String, pos) == Wrappers.Some(After(r, AnyText, Txt(s), pos))
    ensures Utf8.IsUtf8(s) ==> Got(r, X.String, pos) == Wrappers.Some((X.TextValue(s), After(r, AnyText, Txt(s), pos)))
  {
    hide *;
    TextReady(r, s, pos);
    TextLies(r, s, pos);
    TextAt(r, s, pos);
  }

  lemma TextReady(r: Source, s: seq<byte>, pos: nat)
    requires r.base <= pos && Ready(r, Field(r.c, AnyText, Txt(s)), pos)
    ensures |s| + 5 < U32 && Holds(r, pos, TextBytes(r.c, PadAt(r, pos), s))
    ensures After(r, AnyText, Txt(s), pos) == pos + PadAt(r, pos) + 4 + |s| + 1
  {
    hide Layout, Holds, Pad, Put, Zeros;
    var f := Field(r.c, AnyText, Txt(s));
    assert f == Text(s, Done);
    LayoutOne(r.c, f, SpOf(r, pos));
    ReadyHead(r, f, pos);
  }

  /** What the extractor makes of a terminated string. */
  lemma TextAt(r: Source, s: seq<byte>, pos: nat)
    requires r.base <= pos
    requires var p := pos + PadAt(r, pos);
             && p + 4 + |s| + 1 <= |r.buf|
             && Get(r.buf[p..p + 4], r.c.le) == |s| + 1
             && r.buf[p + 4..p + 4 + |s| + 1] == s + [0]
    ensures Skipped(r, X.String, pos) == Wrappers.Some(pos + PadAt(r, pos) + 4 + |s| + 1)
    ensures Utf8.IsUtf8(s) ==> Got(r, X.String, pos) == Wrappers.Some((X.TextValue(s), pos + PadAt(r, pos) + 4 + |s| + 1))
  {
    hide *;
    AlignsTo4(r, pos);
    TextSkipped(r.buf, pos, r.base, r.c.le, s);
    TextGot(r.buf, pos, r.base, r.c.le, s);
    Unwrap(r, X.String, pos);
  }

  lemma Unwrap(r: Source, k: X.FieldKind, pos: nat)
    requires r.base <= pos
    ensures Skipped(r, k, pos) == X.SkipField(r.buf, pos, r.base, r.c.le, k)
    ensures Got(r, k, pos) == X.ReadField(r.buf, pos, r.base, r.c.le, k)
  {
    hide X.SkipField, X.ReadField;
  }

  lemma AlignsTo4(r: Source, pos: nat)
    requires r.base <= pos
    ensures X.AlignBody(pos, r.base, 4) == pos + PadAt(r, pos)
  {
    X.AlignBodyPads(pos, r.base, 4);
    hide X.AlignBody, PadTo;
  }

  lemma TextSkipped(data: seq<byte>, pos: nat, base: nat, le: bool, s: seq<byte>)
    requires base <= pos
    requires var p := X.AlignBody(pos, base, 4); p + 4 + |s| + 1 <= |data| && Get(data[p..p + 4], le) == |s| + 1
    ensures X.SkipField(data, pos, base, le, X.String) == Wrappers.Some(X.AlignBody(pos, base, 4) + 4 + |s| + 1)
  {
    hide Get, X.AlignBody;
  }

  lemma TextGot(data: seq<byte>, pos: nat, base: nat, le: bool, s: seq<byte>)
    requires base <= pos
    requires var p := X.AlignBody(pos, base, 4);
             p + 4 + |s| + 1 <= |data| && Get(data[p..p + 4], le) == |s| + 1 && data[p + 4..p + 4 + |s| + 1] == s + [0]
    ensures Utf8.IsUtf8(s) ==>
              X.ReadField(data, pos, base, le, X.String) == Wrappers.Some((X.TextValue(s), X.AlignBody(pos, base, 4) + 4 + |s| + 1))
  {
    hide Get, X.AlignBody, Utf8.IsUtf8, X.TextOf;
    NulDropped(s);
  }

  lemma NulDropped(s: seq<byte>)
    ensures X.TextOf(s + [0]) == s
  {
  }

  lemma TextLies(r: Source, s: seq<byte>, pos: nat)
    requires r.base <= pos && |s| + 5 < U32 && Holds(r, pos, TextBytes(r.c, PadAt(r, pos), s))
    ensures var p := pos + PadAt(r, pos);
            && p + 4 + |s| + 1 <= |r.buf|
            && Get(r.buf[p..p + 4], r.c.le) == |s| + 1
            && r.buf[p + 4..p + 4 + |s| + 1] == s + [0]
  {
    hide *;
    WordIs();
    var z, n := Zeros(PadAt(r, pos)), Put(|s| + 1, 4, r.c.le);
    TextPieces(r.c, PadAt(r, pos), s);
    HoldsSplit(r, pos, z + n, s + [0]);
    HoldsSplit(r, pos, z, n);
    ReadsNumber(r, pos + |z|, 4, |s| + 1);
    HeldBytes(r, pos + |z| + 4, s + [0]);
  }

  lemma TextPieces(c: Cfg, pad: nat, s: seq<byte>)
    ensures TextBytes(c, pad, s) == Zeros(pad) + Put(|s| + 1, 4, c.le) + (s + [0])
  {
    hide Put, Zeros;
  }

  lemma HeldBytes(r: Source, pos: nat, b: seq<byte>)
    requires Holds(r, pos, b)
    ensures pos + |b| <= |r.buf| && r.buf[pos..pos + |b|] == b
  {
  }

  /** Out of step by one word: the extractor looks 4 bytes behind where the writer wrote, if there is that much. */
  lemma NumberOff(r: Source, k: X.FieldKind, v: Value, pos: nat)
    requires r.base <= pos <= |r.buf| && HasType(v, TypeOf(k)) && Ready(r, Field(r.c, TypeOf(k), v), pos)
    requires !OnEight(r, k, pos)
    ensures Skipped(r, k, pos) == if After(r, TypeOf(k), v, pos) + 4 <= |r.buf| then Wrappers.Some(After(r, TypeOf(k), v, pos) + 4) else Wrappers.None
    ensures Got(r, k, pos).Some? <==> Skipped(r, k, pos).Some?
    ensures Got(r, k, pos).Some? ==>
              var end := After(r, TypeOf(k), v, pos);
              end >= 4 && Got(r, k, pos).value.0 == X.NumberOf(k, Get(r.buf[end - 4..end + 4], r.c.le))
  {
    hide *;
    OffByOneWord(r, k, pos);
    NumberLies(r, k, v, pos);
    if After(r, TypeOf(k), v, pos) + 4 <= |r.buf| {
      var at := pos + PadTo(SpOf(r, pos), 8);
      NumberAt(r, k, pos, at, Get(r.buf[at..at + 8], r.c.le));
    } else {
      NumberBeyond(r, k, pos);
    }
  }

  lemma OffByOneWord(r: Source, k: X.FieldKind, pos: nat)
    requires r.base <= pos && !OnEight(r, k, pos)
    ensures !k.String? && X.SizeOf(k) == 8 && PadTo(SpOf(r, pos), 8) == Pad(r.c, SpOf(r, pos), 8) + 4
  {
    PadsApart(SpOf(r, pos));
    hide PadTo;
  }

  lemma NumberBeyond(r: Source, k: X.FieldKind, pos: nat)
    requires r.base <= pos && !k.String? && pos + PadTo(SpOf(r, pos), X.SizeOf(k)) + X.SizeOf(k) > |r.buf|
    ensures Skipped(r, k, pos).None? && Got(r, k, pos).None?
  {
    hide Get, PadTo, X.AlignBody, X.NumberOf;
    X.AlignBodyPads(pos, r.base, X.SizeOf(k));
  }

  /** One field: skipping stays in step exactly when the field is no stray 64-bit one, and then its value is read. */
  lemma FieldStep(r: Source, k: X.FieldKind, v: Value, pos: nat)
    requires r.base <= pos <= |r.buf| && HasType(v, TypeOf(k)) && Ready(r, Field(r.c, TypeOf(k), v), pos)
    ensures Skipped(r, k, pos) == Wrappers.Some(After(r, TypeOf(k), v, pos)) <==> OnEight(r, k, pos)
    ensures OnEight(r, k, pos) && (k.String? ==> Utf8.IsUtf8(v.s)) ==>
              Got(r, k, pos) == Wrappers.Some((Expected(k, v), After(r, TypeOf(k), v, pos)))
  {
    if k.String? {
      assert v == Txt(v.s);
      hide Ready, Field, After, X.ReadField, X.SkipField, Utf8.IsUtf8;
      TextStep(r, v.s, pos);
    } else if OnEight(r, k, pos) {
      hide *;
      NumberStep(r, k, v, pos);
      GotSkipped(r, k, pos);
    } else {
      hide *;
      NumberOff(r, k, v, pos);
    }
  }

  lemma GotSkipped(r: Source, k: X.FieldKind, pos: nat)
    requires r.base <= pos && Got(r, k, pos).Some?
    ensures Skipped(r, k, pos) == Wrappers.Some(Got(r, k, pos).value.1)
  {
    X.SkipAgreesWithRead(r.buf, pos, r.base, r.c.le, k);
    hide X.ReadField, X.SkipField;
  }

  /** The position of field `i`, as the writer laid the fields out from `pos` on. */
  function WrittenAt(r: Source, fields: seq<X.FieldDescriptor>, vs: seq<Value>, pos: nat, i: nat): (p: nat)
    requires r.base <= pos && HaveTypes(vs, TypesOf(fields)) && i <= |fields|
    ensures pos <= p
    decreases i
  {
    if i == 0 then pos
    else
      Tail(fields, vs);
      WrittenAt(r, fields[1..], vs[1..], After(r, TypeOf(fields[0].kind), vs[0], pos), i - 1)
  }

  lemma Tail(fields: seq<X.FieldDescriptor>, vs: seq<Value>)
    requires HaveTypes(vs, TypesOf(fields)) && fields != []
    ensures vs != [] && HasType(vs[0], TypeOf(fields[0].kind)) && HaveTypes(vs[1..], TypesOf(fields[1..]))
    ensures TypesOf(fields)[0] == TypeOf(fields[0].kind) && TypesOf(fields)[1..] == TypesOf(fields[1..])
  {
    hide HasType, TypeOf;
  }

  /** The position the extractor reaches by skipping `i` fields. */
  function SkipTo(r: Source, fields: seq<X.FieldDescriptor>, pos: nat, i: nat): (e: Wrappers.Option<nat>)
    requires r.base <= pos && i <= |fields|
    ensures e.Some? ==> pos <= e.value
    decreases i
  {
    if i == 0 then Wrappers.Some(pos)
    else
      match Skipped(r, fields[0].kind, pos)
      case None => Wrappers.None
      case Some(next) =>
        X.SkipAgreesWithRead(r.buf, pos, r.base, r.c.le, fields[0].kind);
        SkipTo(r, fields[1..], next, i - 1)
  }

  /** The first `n` fields hold no 64-bit field off the multiples of 8 (in an XCDR2 stream). */
  predicate AllOnEight(r: Source, fields: seq<X.FieldDescriptor>, vs: seq<Value>, pos: nat, n: nat)
    requires r.base <= pos && HaveTypes(vs, TypesOf(fields)) && n <= |fields|
  {
    forall i :: 0 <= i < n ==> OnEight(r, fields[i].kind, WrittenAt(r, fields, vs, pos, i))
  }

  predicate InStep(r: Source, fields: seq<X.FieldDescriptor>, vs: seq<Value>, pos: nat, n: nat)
    requires r.base <= pos && HaveTypes(vs, TypesOf(fields)) && n <= |fields|
  {
    forall i :: 0 <= i <= n ==> SkipTo(r, fields, pos, i) == Wrappers.Some(WrittenAt(r, fields, vs, pos, i))
  }

  lemma ReadyTail(r: Source, fields: seq<X.FieldDescriptor>, vs: seq<Value>, pos: nat)
    requires r.base <= pos && HaveTypes(vs, TypesOf(fields)) && fields != []
    requires Ready(r, Fields(r.c, TypesOf(fields), vs), pos)
    ensures vs != [] && HasType(vs[0], TypeOf(fields[0].kind)) && HaveTypes(vs[1..], TypesOf(fields[1..]))
    ensures var p := After(r, TypeOf(fields[0].kind), vs[0], pos);
            && Ready(r, Field(r.c, TypeOf(fields[0].kind), vs[0]), pos) && pos <= p <= |r.buf|
            && Ready(r, Fields(r.c, TypesOf(fields[1..]), vs[1..]), p)
  {
    Tail(fields, vs);
    hide Ready, TypesOf, TypeOf, HasType, Field, IsType, Append;
    var t := TypeOf(fields[0].kind);
    ReadyAppend(r, Field(r.c, t, vs[0]), Fields(r.c, TypesOf(fields[1..]), vs[1..]), pos);
    AfterIsEnd(r, t, vs[0], pos);
    ReadyBuf(r, Field(r.c, t, vs[0]), pos);
  }

  lemma AllOnEightUnfold(r: Source, fields: seq<X.FieldDescriptor>, vs: seq<Value>, pos: nat, n: nat)
    requires r.base <= pos && HaveTypes(vs, TypesOf(fields)) && 0 < n <= |fields|
    requires vs != [] && HasType(vs[0], TypeOf(fields[0].kind)) && HaveTypes(vs[1..], TypesOf(fields[1..]))
    ensures AllOnEight(r, fields, vs, pos, n) <==>
              OnEight(r, fields[0].kind, pos) &&
              AllOnEight(r, fields[1..], vs[1..], After(r, TypeOf(fields[0].kind), vs[0], pos), n - 1)
  {
    hide HaveTypes, OnEight, After, HasType;
    var p := After(r, TypeOf(fields[0].kind), vs[0], pos);
    var rest := fields[1..];
    forall i | 0 < i < n
      ensures WrittenAt(r, fields, vs, pos, i) == WrittenAt(r, rest, vs[1..], p, i - 1) && fields[i] == rest[i - 1]
    {
    }
    if AllOnEight(r, fields, vs, pos, n) {
      forall i | 0 <= i < n - 1 ensures OnEight(r, rest[i].kind, WrittenAt(r, rest, vs[1..], p, i)) {
        assert OnEight(r, fields[i + 1].kind, WrittenAt(r, fields, vs, pos, i + 1));
      }
      assert OnEight(r, fields[0].kind, WrittenAt(r, fields, vs, pos, 0));
    }
  }

  lemma InStepUnfold(r: Source, fields: seq<X.FieldDescriptor>, vs: seq<Value>, pos: nat, n: nat)
    requires r.base <= pos && HaveTypes(vs, TypesOf(fields)) && 0 < n <= |fields|
    requires vs != [] && HasType(vs[0], TypeOf(fields[0].kind)) && HaveTypes(vs[1..], TypesOf(fields[1..]))
    ensures InStep(r, fields, vs, pos, n) <==>
              Skipped(r, fields[0].kind, pos) == Wrappers.Some(After(r, TypeOf(fields[0].kind), vs[0], pos)) &&
              InStep(r, fields[1..], vs[1..], After(r, TypeOf(fields[0].kind), vs[0], pos), n - 1)
  {
    hide HaveTypes, After, HasType, Skipped;
    var p := After(r, TypeOf(fields[0].kind), vs[0], pos);
    var rest := fields[1..];
    if InStep(r, fields, vs, pos, n) {
      assert SkipTo(r, fields, pos, 1) == Wrappers.Some(WrittenAt(r, fields, vs, pos, 1));
      assert WrittenAt(r, fields, vs, pos, 1) == WrittenAt(r, rest, vs[1..], p, 0) == p;
      forall i | 0 <= i <= n - 1 ensures SkipTo(r, rest, p, i) == Wrappers.Some(WrittenAt(r, rest, vs[1..], p, i)) {
        assert SkipTo(r, fields, pos, i + 1) == Wrappers.Some(WrittenAt(r, fields, vs, pos, i + 1));
      }
    } else if Skipped(r, fields[0].kind, pos) == Wrappers.Some(p) && InStep(r, rest, vs[1..], p, n - 1) {
      forall i | 0 <= i <= n ensures SkipTo(r, fields, pos, i) == Wrappers.Some(WrittenAt(r, fields, vs, pos, i)) {
        if i > 0 {
          assert SkipTo(r, rest, p, i - 1) == Wrappers.Some(WrittenAt(r, rest, vs[1..], p, i - 1));
        }
      }
    }
  }

  /** Skipping fields keeps the extractor in step with the writer exactly when no 64-bit field is off the multiples of 8. */
  lemma {:induction false} InStepIff(r: Source, fields: seq<X.FieldDescriptor>, vs: seq<Value>, pos: nat, n: nat)
    requires r.base <= pos <= |r.buf| && HaveTypes(vs, TypesOf(fields)) && n <= |fields|
    requires Ready(r, Fields(r.c, TypesOf(fields), vs), pos)
    ensures InStep(r, fields, vs, pos, n) <==> AllOnEight(r, fields, vs, pos, n)
    decreases n
  {
    if n == 0 {
    } else {
      hide *;
      ReadyTail(r, fields, vs, pos);
      FieldStep(r, fields[0].kind, vs[0], pos);
      InStepIff(r, fields[1..], vs[1..], After(r, TypeOf(fields[0].kind), vs[0], pos), n - 1);
      AllOnEightUnfold(r, fields, vs, pos, n);
      InStepUnfold(r, fields, vs, pos, n);
    }
  }

  /** The extractor returns what the writer wrote, as long as every field up to the one asked for is in step. */
  lemma {:induction false} ExtractsWritten(r: Source, fields: seq<X.FieldDescriptor>, vs: seq<Value>, pos: nat, name: string)
    requires r.base <= pos <= |r.buf| && HaveTypes(vs, TypesOf(fields))
    requires Ready(r, Fields(r.c, TypesOf(fields), vs), pos)
    requires var i := X.FirstNamed(fields, name);
             i < |fields| && HasType(vs[i], TypeOf(fields[i].kind)) && AllOnEight(r, fields, vs, pos, i + 1)
             && (fields[i].kind.String? ==> Utf8.IsUtf8(vs[i].s))
    ensures var i := X.FirstNamed(fields, name);
            X.Extract(r.buf, fields, pos, r.base, r.c.le, name) == X.Ok(Expected(fields[i].kind, vs[i]))
    decreases |fields|
  {
    hide *;
    var i := X.FirstNamed(fields, name);
    ReadyTail(r, fields, vs, pos);
    ExtractUnfold(r, fields, pos, name);
    WrittenAtUnfold(r, fields, vs, pos, i);
    AllOnEightUnfold(r, fields, vs, pos, i + 1);
    FieldStep(r, fields[0].kind, vs[0], pos);
    if i > 0 {
      ExtractsWritten(r, fields[1..], vs[1..], After(r, TypeOf(fields[0].kind), vs[0], pos), name);
    }
  }

  /** A value whose two halves differ in a way that a read shifted by one word cannot reproduce. */
  function Telltale(le: bool): nat {
    if le then 1 else 0x1_0000_0000
  }

  lemma FromLeShort(b: seq<byte>)
    requires |b| == 8 && b[0] == 0 && b[1] == 0 && b[2] == 0 && b[3] == 0
    ensures FromLe(b) % 0x1_0000_0000 == 0 && FromLe(b) < 0x1_0000_0000_0000_0000
  {
    LeBytesOfFromLe(b);
    PowValues();
    var b1, b2, b3, b4 := b[1..], b[2..], b[3..], b[4..];
    assert b1[1..] == b2 && b2[1..] == b3 && b3[1..] == b4;
    assert FromLe(b) == 256 * FromLe(b1) && FromLe(b1) == 256 * FromLe(b2);
    assert FromLe(b2) == 256 * FromLe(b3) && FromLe(b3) == 256 * FromLe(b4);
    assert FromLe(b) == 0x1_0000_0000 * FromLe(b4);
    hide FromLe, Pow256;
    WordMultiple(FromLe(b4));
  }

  lemma WordMultiple(m: nat)
    ensures (0x1_0000_0000 * m) % 0x1_0000_0000 == 0
  {
  }

  lemma FromLeSmall(b: seq<byte>)
    requires |b| == 8 && b[4] == 0 && b[5] == 0 && b[6] == 0 && b[7] == 0
    ensures FromLe(b) < 0x1_0000_0000
  {
    var lo := b[..4];
    LeBytesOfFromLe(lo);
    PowValues();
    FromLeZeros(lo, 4);
    assert b == lo + Zeros(4);
  }

  lemma {:induction false} FromLeZeros(b: seq<byte>, n: nat)
    ensures FromLe(b + Zeros(n)) == FromLe(b)
    decreases |b| + n
  {
    if b != [] {
      assert (b + Zeros(n))[1..] == b[1..] + Zeros(n);
      FromLeZeros(b[1..], n);
    } else if n > 0 {
      assert ([] + Zeros(n))[1..] == [] + Zeros(n - 1);
      FromLeZeros([], n - 1);
    }
  }

  lemma TelltaleBytes(le: bool)
    ensures var b := Put(Telltale(le), 8, le); b[4] == 0 && b[5] == 0 && b[6] == 0 && b[7] == 0
    ensures Telltale(le) < Pow256(8)
  {
    PowValues();
    hide Pow256;
    if le {
      LeZeros(7);
      assert LeBytes(1, 8) == [1] + LeBytes(0, 7);
    } else {
      var b := LeBytes(0x1_0000_0000, 8);
      assert b == [0] + LeBytes(0x100_0000, 7);
      assert LeBytes(0x100_0000, 7) == [0] + LeBytes(0x1_0000, 6);
      assert LeBytes(0x1_0000, 6) == [0] + LeBytes(0x100, 5);
      assert LeBytes(0x100, 5) == [0] + LeBytes(1, 4);
      assert b[0] == 0 && b[1] == 0 && b[2] == 0 && b[3] == 0;
    }
  }

  /** Whatever bytes follow, the shifted read does not return the telltale value. */
  lemma ShiftedReadDiffers(k: X.FieldKind, raw: seq<byte>, le: bool)
    requires X.SizeOf(k) == 8 && |raw| == 8 && raw[0] == 0 && raw[1] == 0 && raw[2] == 0 && raw[3] == 0
    ensures X.NumberOf(k, Get(raw, le)) != X.NumberOf(k, Telltale(le))
  {
    PowValues();
    if le {
      FromLeShort(raw);
    } else {
      FromLeSmall(Reverse(raw));
    }
    hide FromLe, Pow256, Reverse;
  }

  lemma StrayNumber(r: Source, k: X.FieldKind, v: Value, pos: nat)
    requires r.base <= pos <= |r.buf| && HasType(v, TypeOf(k)) && Ready(r, Field(r.c, TypeOf(k), v), pos)
    requires !OnEight(r, k, pos) && v == Num(Telltale(r.c.le))
    ensures Got(r, k, pos).Some? ==> Got(r, k, pos).value.0 != Expected(k, v)
  {
    hide *;
    OffByOneWord(r, k, pos);
    NumberOff(r, k, v, pos);
    NumberLies(r, k, v, pos);
    ExpectedNumber(k, v);
    TelltaleBytes(r.c.le);
    var end := After(r, TypeOf(k), v, pos);
    if Got(r, k, pos).Some? {
      ShiftedBytes(r, end, Put(v.n, 8, r.c.le));
      ShiftedReadDiffers(k, r.buf[end - 4..end + 4], r.c.le);
    }
  }

  lemma ShiftedBytes(r: Source, end: nat, wrote: seq<byte>)
    requires 8 <= end && end + 4 <= |r.buf| && |wrote| == 8 && Holds(r, end - 8, wrote)
    requires wrote[4] == 0 && wrote[5] == 0 && wrote[6] == 0 && wrote[7] == 0
    ensures var raw := r.buf[end - 4..end + 4]; raw[0] == 0 && raw[1] == 0 && raw[2] == 0 && raw[3] == 0
  {
    var got := r.buf[end - 8..end - 8 + 8];
    assert got[4] == 0 && got[5] == 0 && got[6] == 0 && got[7] == 0;
  }

  /** Extraction one field at a time. */
  lemma ExtractUnfold(r: Source, fields: seq<X.FieldDescriptor>, pos: nat, name: string)
    requires r.base <= pos && fields != []
    ensures fields[0].name == name ==>
              X.Extract(r.buf, fields, pos, r.base, r.c.le, name) ==
              match Got(r, fields[0].kind, pos) case None => X.Err(X.CannotParse(name)) case Some((p, _)) => X.Ok(p)
    ensures fields[0].name != name && Skipped(r, fields[0].kind, pos).Some? && r.base <= Skipped(r, fields[0].kind, pos).value ==>
              X.Extract(r.buf, fields, pos, r.base, r.c.le, name) ==
              X.Extract(r.buf, fields[1..], Skipped(r, fields[0].kind, pos).value, r.base, r.c.le, name)
    ensures X.FirstNamed(fields, name) == if fields[0].name == name then 0 else 1 + X.FirstNamed(fields[1..], name)
  {
    hide X.ReadField, X.SkipField;
  }

  /**
    The alignment condition is needed: at the first 64-bit field off the multiples of 8 the extractor fails or
    returns something else, whatever the other fields hold.
   */
  lemma {:induction false} StrayFieldMisread(r: Source, fields: seq<X.FieldDescriptor>, vs: seq<Value>, pos: nat, name: string)
    requires r.base <= pos <= |r.buf| && HaveTypes(vs, TypesOf(fields))
    requires Ready(r, Fields(r.c, TypesOf(fields), vs), pos)
    requires var i := X.FirstNamed(fields, name);
             i < |fields| && HasType(vs[i], TypeOf(fields[i].kind)) && AllOnEight(r, fields, vs, pos, i)
             && !OnEight(r, fields[i].kind, WrittenAt(r, fields, vs, pos, i)) && vs[i] == Num(Telltale(r.c.le))
    ensures var i := X.FirstNamed(fields, name);
            X.Extract(r.buf, fields, pos, r.base, r.c.le, name) != X.Ok(Expected(fields[i].kind, vs[i]))
    decreases |fields|
  {
    hide *;
    var i := X.FirstNamed(fields, name);
    ReadyTail(r, fields, vs, pos);
    ExtractUnfold(r, fields, pos, name);
    WrittenAtUnfold(r, fields, vs, pos, i);
    if i == 0 {
      StrayNumber(r, fields[0].kind, vs[0], pos);
    } else {
      AllOnEightUnfold(r, fields, vs, pos, i);
      FieldStep(r, fields[0].kind, vs[0], pos);
      StrayFieldMisread(r, fields[1..], vs[1..], After(r, TypeOf(fields[0].kind), vs[0], pos), name);
    }
  }

  lemma WrittenAtUnfold(r: Source, fields: seq<X.FieldDescriptor>, vs: seq<Value>, pos: nat, i: nat)
    requires r.base <= pos && HaveTypes(vs, TypesOf(fields)) && i < |fields|
    requires vs != [] && HasType(vs[0], TypeOf(fields[0].kind)) && HaveTypes(vs[1..], TypesOf(fields[1..]))
    ensures |vs| == |fields|
    ensures i == 0 ==> WrittenAt(r, fields, vs, pos, i) == pos
    ensures i > 0 ==> WrittenAt(r, fields, vs, pos, i) ==
                      WrittenAt(r, fields[1..], vs[1..], After(r, TypeOf(fields[0].kind), vs[0], pos), i - 1)
  {
    hide HasType, After, TypeOf;
  }

  function FlatType(ext: Ext, fields: seq<X.FieldDescriptor>): (t: Type)
    requires |fields| < U32
    ensures t.Struct? && t.ext == ext && t.types == TypesOf(fields) && IsType(t)
  {
    Struct(ext, seq(|fields|, i requires 0 <= i < |fields| => Tag(i, false, false)), TypesOf(fields))
  }

  /** Where the writer puts the first field of a message. */
  function FirstField(c: Cfg, ext: Ext): nat {
    if c.xcdr2 && ext.Appendable? then 8 else 4
  }

  /** The extractor starts where the writer's fields start, with the writer's byte order. */
  lemma MessageFields(c: Cfg, ext: Ext, fields: seq<X.FieldDescriptor>, vs: seq<Value>, tail: seq<byte>)
    requires |fields| < U32 && !ext.Mutable? && HasType(List(vs), FlatType(ext, fields))
    requires Representable(c, FlatType(ext, fields), List(vs))
    ensures HaveTypes(vs, TypesOf(fields))
    ensures var data := Message(c, FlatType(ext, fields), List(vs)) + tail;
            && |data| >= 4 && (Get(data[..2], false) % 2 == 1 <==> c.le)
            && X.StartOf(data, ext) == FirstField(c, ext) <= |data|
            && Ready(Source(data, 4, c), Fields(c, TypesOf(fields), vs), FirstField(c, ext))
  {
    FlatCalls(c, ext, fields, vs);
    hide *;
    var t, v := FlatType(ext, fields), List(vs);
    var on := c.xcdr2 && ext.Appendable?;
    var r := Source(Message(c, t, v) + tail, 4, c);
    var k := Fields(c, TypesOf(fields), vs);
    MessageReady(c, t, v, tail);
    HeaderId(c, t, v, tail);
    FrameUnfold(r, on, k, 4);
    if on {
      FrameReads(r, k, 4);
      FirstBody(r);
      ReadyBuf(r, k, 8);
    } else {
      ReadyBuf(r, k, 4);
    }
    StartIs(c, ext, r.buf);
  }

  lemma FlatCalls(c: Cfg, ext: Ext, fields: seq<X.FieldDescriptor>, vs: seq<Value>)
    requires |fields| < U32 && !ext.Mutable? && HasType(List(vs), FlatType(ext, fields))
    ensures HaveTypes(vs, TypesOf(fields))
    ensures Plain(c, FlatType(ext, fields), List(vs)) == Frame(c.xcdr2 && ext.Appendable?, Fields(c, TypesOf(fields), vs))
  {
    hide Fields, TypesOf;
  }

  lemma FirstBody(r: Source)
    requires r.base == 4
    ensures BodyAt(r, true, 4) == 8
  {
  }

  /** Both sides agree on the byte order and on where the fields start. */
  lemma StartIs(c: Cfg, ext: Ext, data: seq<byte>)
    requires |data| >= 4 && !ext.Mutable? && Get(data[..2], false) == EncapId(c, ext) && FirstField(c, ext) <= |data|
    ensures Get(data[..2], false) % 2 == 1 <==> c.le
    ensures X.StartOf(data, ext) == FirstField(c, ext)
  {
    hide Get;
  }

  lemma HeaderId(c: Cfg, t: Type, v: Value, tail: seq<byte>)
    requires t.Struct? && IsType(t) && HasType(v, t)
    ensures |Message(c, t, v)| >= 4
    ensures Get((Message(c, t, v) + tail)[..2], false) == EncapId(c, t.ext)
  {
    hide Layout, Plain, IsType, HasType;
    var id := EncapId(c, t.ext);
    assert (Message(c, t, v) + tail)[..2] == Put(id, 2, false);
    PowValues();
    GetPut(id, 2, false);
  }

  /**
    End to end: from any message of a final or appendable flat struct, in step up to the field asked for, the
    extractor returns what the writer wrote.
   */
  lemma MessageExtract(c: Cfg, ext: Ext, fields: seq<X.FieldDescriptor>, vs: seq<Value>, tail: seq<byte>, name: string)
    requires |fields| < U32 && !ext.Mutable? && HasType(List(vs), FlatType(ext, fields))
    requires Representable(c, FlatType(ext, fields), List(vs)) && HaveTypes(vs, TypesOf(fields))
    requires var i := X.FirstNamed(fields, name);
             var r := Source(Message(c, FlatType(ext, fields), List(vs)) + tail, 4, c);
             i < |fields| && HasType(vs[i], TypeOf(fields[i].kind)) && (fields[i].kind.String? ==> Utf8.IsUtf8(vs[i].s))
             && AllOnEight(r, fields, vs, FirstField(c, ext), i + 1)
    ensures var data := Message(c, FlatType(ext, fields), List(vs)) + tail;
            var i := X.FirstNamed(fields, name);
            |data| >= 4 &&
            X.Extract(data, fields, X.StartOf(data, ext), 4, Get(data[..2], false) % 2 == 1, name)
            == X.Ok(Expected(fields[i].kind, vs[i]))
  {
    hide *;
    var r := Source(Message(c, FlatType(ext, fields), List(vs)) + tail, 4, c);
    MessageFields(c, ext, fields, vs, tail);
    AtLeast4(c, ext);
    ExtractsWritten(r, fields, vs, FirstField(c, ext), name);
  }

  lemma AtLeast4(c: Cfg, ext: Ext)
    ensures FirstField(c, ext) >= 4
  {
  }

  /** In XCDR1 there is nothing to check. */
  lemma Xcdr1Extract(c: Cfg, ext: Ext, fields: seq<X.FieldDescriptor>, vs: seq<Value>, tail: seq<byte>, name: string)
    requires !c.xcdr2 && |fields| < U32 && !ext.Mutable? && HasType(List(vs), FlatType(ext, fields))
    requires Representable(c, FlatType(ext, fields), List(vs)) && HaveTypes(vs, TypesOf(fields))
    requires var i := X.FirstNamed(fields, name);
             i < |fields| && HasType(vs[i], TypeOf(fields[i].kind)) && (fields[i].kind.String? ==> Utf8.IsUtf8(vs[i].s))
    ensures var data := Message(c, FlatType(ext, fields), List(vs)) + tail;
            var i := X.FirstNamed(fields, name);
            |data| >= 4 &&
            X.Extract(data, fields, X.StartOf(data, ext), 4, Get(data[..2], false) % 2 == 1, name)
            == X.Ok(Expected(fields[i].kind, vs[i]))
  {
    hide *;
    var r := Source(Message(c, FlatType(ext, fields), List(vs)) + tail, 4, c);
    AtLeast4(c, ext);
    Xcdr1OnEight(r, fields, vs, FirstField(c, ext), X.FirstNamed(fields, name) + 1);
    MessageExtract(c, ext, fields, vs, tail, name);
  }

  lemma Xcdr1OnEight(r: Source, fields: seq<X.FieldDescriptor>, vs: seq<Value>, pos: nat, n: nat)
    requires !r.c.xcdr2 && r.base <= pos && HaveTypes(vs, TypesOf(fields)) && n <= |fields|
    ensures AllOnEight(r, fields, vs, pos, n)
  {
    hide HaveTypes, WrittenAt, TypesOf;
  }
}
