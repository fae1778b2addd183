/**
  Where the codec stops being lossless, stated exactly.
 */
module Limits {
  import opened Bytes
  import BulkCopy
  import opened Scripts
  import opened WriterSteps
  import opened CdrWriter
  import opened WireTypes
  import opened Decoding
  import opened Readback
  import opened Evolution
  import opened RoundTrip
  import opened Messages

  /** A string comes back exactly when its length with terminator fits in 32 bits. */
  lemma TextRoundTripIff(r: Source, pos: nat, s: seq<byte>)
    requires r.base <= pos && Holds(r, pos, TextBytes(r.c, PadAt(r, pos), s))
    ensures ReadText(r, pos) == Ok(s, pos + |TextBytes(r.c, PadAt(r, pos), s)|) <==> |s| + 1 < U32
  {
    if |s| + 1 < U32 {
      hide Holds, TextBytes, ReadText;
      ReadsText(r, pos, s);
    } else {
      LongTextCut(r, pos, s);
    }
  }

  lemma LongTextCut(r: Source, pos: nat, s: seq<byte>)
    requires r.base <= pos && Holds(r, pos, TextBytes(r.c, PadAt(r, pos), s)) && |s| + 1 >= U32
    ensures ReadText(r, pos).Ok? ==> |ReadText(r, pos).value| < |s|
  {
    hide *;
    var h := ScalarBytes(r.c, SpOf(r, pos), 4, |s| + 1);
    TextParts(r, pos, s);
    HoldsSplit(r, pos, h, s + [0]);
    ScalarCutOff(r, pos, |s| + 1);
    ShorterText(r, pos);
  }

  lemma ShorterText(r: Source, pos: nat)
    requires r.base <= pos && ReadScalar(r, pos, 4).Ok? && ReadScalar(r, pos, 4).value < U32
    ensures ReadText(r, pos).Ok? ==> |ReadText(r, pos).value| + 1 < U32
  {
    hide ReadScalar;
  }

  /** A 32-bit field holds less than 2^32, whatever was written to it. */
  lemma ScalarCutOff(r: Source, pos: nat, v: nat)
    requires r.base <= pos && Holds(r, pos, ScalarBytes(r.c, SpOf(r, pos), 4, v))
    ensures ReadScalar(r, pos, 4).Ok? && ReadScalar(r, pos, 4).value < U32
  {
    var low := FromLe(LeBytes(v, 4));
    PutLow(v, 4, r.c.le);
    PowValues();
    hide Put, Pow256, FromLe, LeBytes, Holds;
    ReadsScalar(r, pos, 4, low);
  }

  const Empty: Type := Struct(Final, [], [])

  function EmptyValues(n: nat): (vs: seq<Value>)
    ensures |vs| == n && AllHaveType(vs, Empty)
  {
    seq(n, i => List([]))
  }

  lemma EmptyField(c: Cfg, v: Value)
    requires HasType(v, Empty)
    ensures Field(c, Empty, v) == Done
  {
    assert !IsVariableLength(Empty);
  }

  lemma {:induction false} EmptyElements(c: Cfg, vs: seq<Value>)
    requires AllHaveType(vs, Empty)
    ensures Elements(c, Empty, vs) == Done
    decreases |vs|
  {
    if vs != [] {
      EmptyField(c, vs[0]);
      EmptyElements(c, vs[1..]);
    }
  }

  const EmptySeq: Type := Seq(Empty)
  const Holder: Type := Struct(Final, [Tag(0, false, false)], [EmptySeq])

  function Held(n: nat): Value {
    List([List(EmptyValues(n))])
  }

  lemma HolderTypes(c: Cfg, n: nat)
    requires n < U32
    ensures IsType(EmptySeq) && HasType(List(EmptyValues(n)), EmptySeq) && IsFramed(c, EmptySeq) == c.xcdr2
    ensures IsType(Holder) && HasType(Held(n), Holder)
  {
    assert IsType(EmptySeq) && HasType(List(EmptyValues(n)), EmptySeq);
  }

  lemma HolderCalls(c: Cfg, n: nat)
    requires n < U32 && IsType(Holder) && HasType(Held(n), Holder)
    ensures Plain(c, Holder, Held(n)) == Frame(c.xcdr2, Scalar(4, n, Done))
  {
    HolderTypes(c, n);
    EmptyElements(c, EmptyValues(n));
    FieldsOf1(c, EmptySeq, List(EmptyValues(n)));
    hide Elements, Fields, HasType, IsType;
    assert Field(c, EmptySeq, List(EmptyValues(n))) == Frame(c.xcdr2, Scalar(4, n, Done));
    AppendDone(Frame(c.xcdr2, Scalar(4, n, Done)));
  }

  /**
    The message of a struct that holds a sequence of empty structs is rejected as soon as the sequence has an
    element, although it was written without error: the count is larger than the number of bytes left.
   */
  lemma EmptyElementsRejected(c: Cfg, n: nat)
    requires 0 < n < U32
    ensures IsType(Holder) && HasType(Held(n), Holder) && Representable(c, Holder, Held(n))
    ensures DecodePlain(Source(Message(c, Holder, Held(n)), 4, c), Holder, 4).Bad?
  {
    HolderTypes(c, n);
    HolderCalls(c, n);
    HolderSize(c, n);
    var m := Message(c, Holder, Held(n));
    assert m + [] == m;
    var r := Source(m, 4, c);
    HolderDoesNotFit(r, n);
    hide *;
    EvolvesToItself(c, Holder);
    MessageReads(c, Holder, Holder, Held(n), []);
  }

  lemma HolderSize(c: Cfg, n: nat)
    requires n < U32 && IsType(Holder) && HasType(Held(n), Holder)
    requires Plain(c, Holder, Held(n)) == Frame(c.xcdr2, Scalar(4, n, Done))
    ensures Representable(c, Holder, Held(n)) && |Message(c, Holder, Held(n))| == if c.xcdr2 then 12 else 8
  {
    CountSize(c, n);
    hide Layout, Plain, Put, HasType, IsType, IdsFit, Frame;
  }

  lemma CountSize(c: Cfg, n: nat)
    ensures var k := Frame(c.xcdr2, Scalar(4, n, Done)); IdsFit(k) && |Layout(c, k, 0)| == if c.xcdr2 then 8 else 4
  {
    var k := Scalar(4, n, Done);
    LayoutOne(c, Frame(c.xcdr2, k), 0);
    LayoutOne(c, k, 4);
    hide Layout, Put;
    assert IdsFit(Done) && IdsFit(k) && IdsFit(Frame(c.xcdr2, k));
  }

  lemma HolderDoesNotFit(r: Source, n: nat)
    requires 0 < n < U32 && r.base == 4 && |r.buf| == (if r.c.xcdr2 then 12 else 8)
    requires IsType(Holder) && HasType(Held(n), Holder)
    ensures !PlainFits(r, Holder, Holder, Held(n), 4)
  {
    HolderTypes(r.c, n);
    var p := BodyAt(r, r.c.xcdr2, 4);
    assert p + PadAt(r, p) + 4 == |r.buf|;
    hide ElementsFit, IsFramed;
    assert !PlainFits(r, EmptySeq, EmptySeq, List(EmptyValues(n)), p);
    assert !FieldFits(r, EmptySeq, EmptySeq, List(EmptyValues(n)), 4);
    assert !FieldsFit(r, [EmptySeq], [EmptySeq], [List(EmptyValues(n))], 4);
  }

  lemma {:induction false} ElementsStored(r: Source, e: Type, n: nat, pos: nat)
    requires IsType(e) && r.base <= pos <= |r.buf|
    ensures DecodeElements(r, e, n, pos).Ok? ==> |DecodeElements(r, e, n, pos).value| == n
    decreases n
  {
    hide Decode, IsType;
    if n > 0 && Decode(r, e, pos).Ok? {
      ElementsStored(r, e, n - 1, Decode(r, e, pos).pos);
    }
  }

  /**
    On arbitrary bytes: a sequence that is read stores as many elements as the count on the wire says, which is at
    most the number of bytes behind it.  The bound in the type plays no part.
   */
  lemma StoredCount(r: Source, e: Type, pos: nat)
    requires IsType(e) && IsType(Seq(e)) && r.base <= pos <= |r.buf|
    ensures DecodePlain(r, Seq(e), pos).Ok? ==>
              var c := ReadCount(r, pos);
              && c.Ok? && DecodePlain(r, Seq(e), pos).value.List?
              && |DecodePlain(r, Seq(e), pos).value.vs| == c.value <= |r.buf| - c.pos
  {
    hide ReadScalar, DecodeElements, ReadBulk, Wrap, IsType;
    var c := ReadCount(r, pos);
    if c.Ok? {
      ElementsStored(r, e, c.value, c.pos);
    }
  }

  /** So an array of `n` octets is long enough for every stream with `room` bytes behind the count if and only if room <= n. */
  lemma RoomNeededIff(le: bool, xcdr2: bool, n: nat, room: nat)
    requires room < U32
    ensures IsType(Seq(Int(1)))
    ensures (forall b: seq<byte> :: |b| == 4 + room && DecodePlain(Source(b, 0, Cfg(le, xcdr2)), Seq(Int(1)), 0).Ok? ==>
                                      && DecodePlain(Source(b, 0, Cfg(le, xcdr2)), Seq(Int(1)), 0).value.List?
                                      && |DecodePlain(Source(b, 0, Cfg(le, xcdr2)), Seq(Int(1)), 0).value.vs| <= n) <==> room <= n
  {
    assert IsType(Int(1)) && IsType(Seq(Int(1)));
    var c := Cfg(le, xcdr2);
    forall b: seq<byte> | |b| == 4 + room && DecodePlain(Source(b, 0, c), Seq(Int(1)), 0).Ok?
      ensures DecodePlain(Source(b, 0, c), Seq(Int(1)), 0).value.List? && |DecodePlain(Source(b, 0, c), Seq(Int(1)), 0).value.vs| <= room
    {
      hide DecodePlain, ReadCount;
      StoredCount(Source(b, 0, c), Int(1), 0);
      CountTakesFour(Source(b, 0, c));
    }
    hide DecodePlain;
    FullArray(c, room);
  }

  lemma CountTakesFour(r: Source)
    requires r.base == 0
    ensures ReadCount(r, 0).Ok? ==> ReadCount(r, 0).pos >= 4
  {
    hide Get, Pad;
  }

  /** The octets of a stream can fill all the bytes behind their count. */
  lemma OctetsRead(r: Source, room: nat)
    requires r.base == 0 && |r.buf| == 4 + room && ReadCount(r, 0) == Ok(room, 4) && IsType(Seq(Int(1)))
    ensures DecodePlain(r, Seq(Int(1)), 0).Ok?
  {
    hide ReadCount, BulkCopy.Values, Wrap;
    assert room * 1 == room;
    assert Pad(r.c, 4, 1) == 0;
    assert ReadBulk(r, 4, 1, room).Ok?;
  }

  lemma FullArray(c: Cfg, room: nat)
    requires room < U32 && IsType(Seq(Int(1)))
    ensures var b := Put(room, 4, c.le) + Zeros(room);
            |b| == 4 + room && DecodePlain(Source(b, 0, c), Seq(Int(1)), 0).Ok?
            && DecodePlain(Source(b, 0, c), Seq(Int(1)), 0).value.List?
            && |DecodePlain(Source(b, 0, c), Seq(Int(1)), 0).value.vs| == room
  {
    var b := Put(room, 4, c.le) + Zeros(room);
    var r := Source(b, 0, c);
    assert ReadCount(r, 0) == Ok(room, 4) by {
      PowValues();
      GetPut(room, 4, c.le);
      hide Put, Get, Pow256;
      assert Pad(c, 0, 4) == 0 && b[0..4] == Put(room, 4, c.le);
    }
    OctetsRead(r, room);
    hide *;
    StoredCount(r, Int(1), 0);
  }
}
