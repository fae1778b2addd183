/**
  Whole messages: the encapsulation header, the generated serializer and deserializer around the writer
  and the reader, and the round trip of complete samples.
 */
module Messages {
  import opened Bytes
  import opened Scripts
  import opened WriterSteps
  import opened WriterProof
  import opened CdrWriter
  import opened WireTypes
  import opened Decoding
  import opened Evolution
  import opened EvolutionProof
  import opened RoundTrip
  import opened CdrReader

  function EncapBytes(c: Cfg, ext: Ext): (b: seq<byte>)
    ensures |b| == 4
  {
    Put(EncapId(c, ext), 2, false) + [0, 0]
  }

  /** A sample of struct type `t` as it goes over the wire. */
  function Message(c: Cfg, t: Type, v: Value): seq<byte>
    requires t.Struct? && IsType(t) && HasType(v, t)
  {
    EncapBytes(c, t.ext) + Layout(c, Plain(c, t, v), 0)
  }

  /** No length or id of the sample is cut off on the wire. */
  predicate Representable(c: Cfg, t: Type, v: Value)
    requires t.Struct? && IsType(t) && HasType(v, t)
  {
    IdsFit(Plain(c, t, v)) && |Message(c, t, v)| < U32
  }

  /** The header the writer emits makes the reader pick the writer's byte order and version. */
  lemma HeaderRecognized(c: Cfg, ext: Ext, rest: seq<byte>)
    ensures EncapCfg(Get((EncapBytes(c, ext) + rest)[..2], false)) == Ok(c, 4)
  {
    var id := EncapId(c, ext);
    assert (EncapBytes(c, ext) + rest)[..2] == Put(id, 2, false);
    PowValues();
    GetPut(id, 2, false);
  }

  lemma MessageReady(c: Cfg, t: Type, v: Value, tail: seq<byte>)
    requires t.Struct? && IsType(t) && HasType(v, t) && Representable(c, t, v)
    ensures var r := Source(Message(c, t, v) + tail, 4, c);
            && Ready(r, Plain(c, t, v), 4)
            && EndOf(r, Plain(c, t, v), 4) == |Message(c, t, v)| <= |r.buf|
  {
    hide Layout, IdsFit, Plain, IsType, HasType, EncapBytes;
    var b := Layout(c, Plain(c, t, v), 0);
    var m := Message(c, t, v);
    assert (m + tail)[4..4 + |b|] == b;
  }

  /**
    Every sample, either byte order, either version, whatever follows in the buffer: a reader of any compatible
    type recognizes the header, sees the projected value and stops behind the sample; it reports an error
    exactly when a sequence count on its way exceeds the bytes behind it or a text its destination.
   */
  lemma MessageReads(c: Cfg, rt: Type, wt: Type, v: Value, tail: seq<byte>)
    requires rt.Struct? && wt.Struct? && IsType(rt) && IsType(wt) && HasType(v, wt)
    requires Evolves(c, rt, wt) && Representable(c, wt, v)
    ensures var m := Message(c, wt, v);
            var r := Source(m + tail, 4, c);
            && EncapCfg(Get((m + tail)[..2], false)) == Ok(c, 4)
            && |m| >= 4
            && (PlainFits(r, rt, wt, v, 4) ==> DecodePlain(r, rt, 4) == Ok(Project(rt, wt, v), |m|))
            && (!PlainFits(r, rt, wt, v, 4) ==> DecodePlain(r, rt, 4).Bad?)
  {
    hide Layout, Plain, IsType, HasType, EncapBytes, Evolves, PlainFits, DecodePlain, Project, Ready, EndOf;
    var b := Layout(c, Plain(c, wt, v), 0);
    var r := Source(Message(c, wt, v) + tail, 4, c);
    Assoc(EncapBytes(c, wt.ext), b, tail);
    HeaderRecognized(c, wt.ext, b + tail);
    MessageReady(c, wt, v, tail);
    PlainReads(r, rt, wt, v, 4);
  }

  /** A sample comes back as it was written when the elements of its sequences take space. */
  lemma MessageRoundTrip(c: Cfg, t: Type, v: Value, tail: seq<byte>)
    requires t.Struct? && IsType(t) && HasType(v, t) && Representable(c, t, v) && ElementsTakeSpace(c, t)
    ensures var m := Message(c, t, v);
            && EncapCfg(Get((m + tail)[..2], false)) == Ok(c, 4)
            && |m| >= 4 && DecodePlain(Source(m + tail, 4, c), t, 4) == Ok(v, |m|)
  {
    hide *;
    var r := Source(Message(c, t, v) + tail, 4, c);
    EvolvesToItself(c, t);
    ProjectsToItself(t, v);
    OwnTextsFit(t, v);
    AlwaysSolid(c, t, v);
    MessageReady(c, t, v, tail);
    PlainAlwaysFits(r, t, t, v, 4);
    MessageReads(c, t, t, v, tail);
  }

  /** The same without an encapsulation header, for a field of any type at any stream position. */
  lemma FieldRoundTrip(r: Source, t: Type, v: Value, pos: nat)
    requires r.base <= pos <= |r.buf| && IsType(t) && HasType(v, t) && ElementsTakeSpace(r.c, t)
    requires Ready(r, Field(r.c, t, v), pos)
    ensures Decode(r, t, pos) == Ok(v, EndOf(r, Field(r.c, t, v), pos))
  {
    EvolvesToItself(r.c, t);
    ProjectsToItself(t, v);
    OwnTextsFit(t, v);
    AlwaysSolid(r.c, t, v);
    CountsAlwaysFit(r, t, t, v, pos);
    FieldReads(r, t, t, v, pos);
    hide Decode, FieldFits, Evolves, Project, Ready, EndOf, Field;
  }

  lemma EncapsulateInit(c: Cfg, cap: nat, ext: Ext)
    ensures var s := Encapsulate(Init(c, cap), ext);
            && Inv(s) && (s.error == OK <==> 4 <= cap)
            && (s.error == OK ==> s == WState(c, cap, EncapBytes(c, ext), 4, OK))
  {
    hide Put;
    var b := Put(EncapId(c, ext), 2, false) + [0, 0];
    assert [] + b == b;
  }

  /** T_serialize_cdr: the size of the sample, or 0 if it does not fit or has an id out of range */
  method SerializeCdr(buf: array<byte>, t: Type, v: Value, c: Cfg, hostLe: bool) returns (n: nat)
    requires t.Struct? && IsType(t) && HasType(v, t)
    modifies buf
    ensures n == if IdsFit(Plain(c, t, v)) && |Message(c, t, v)| <= buf.Length then |Message(c, t, v)| else 0
    ensures n > 0 ==> buf[..n] == Message(c, t, v)
  {
    hide Layout, Plain, IsType, HasType, IdsFit, Run, Encapsulate, EncapBytes;
    ghost var k := Plain(c, t, v);
    PlainWellFormed(c, t, v);
    var w := new Writer(buf, c.le, c.xcdr2, hostLe);
    EncapsulateInit(c, buf.Length, t.ext);
    var ok := w.WriteEncapsulation(t.ext);
    ghost var s := w.State();
    if ok {
      RunWrites(s, k);
    }
    w.Perform(Plain(c, t, v));
    n := if w.error == OK then w.pos else 0;
  }

  lemma PlainWellFormed(c: Cfg, t: Type, v: Value)
    requires IsType(t) && HasType(v, t)
    ensures WellFormed(Plain(c, t, v))
  {
    FieldWellFormed(c, t, v);
    hide Plain, IsType, HasType, IsFramed;
  }

  /** T_deserialize_cdr: the byte order and version come from the header */
  method DeserializeCdr(bytes: seq<byte>, t: Type, hostLe: bool) returns (ok: bool, v: Value)
    requires t.Struct? && IsType(t)
    ensures ok <==> |bytes| >= 4 && EncapCfg(Get(bytes[..2], false)).Ok?
                    && DecodePlain(Source(bytes, 4, EncapCfg(Get(bytes[..2], false)).value), t, 4).Ok?
    ensures ok ==> v == DecodePlain(Source(bytes, 4, EncapCfg(Get(bytes[..2], false)).value), t, 4).value
  {
    hide DecodePlain, IsType, EncapCfg, Get;
    v := Absent;
    var r, e := Reader.Open(bytes, hostLe);
    if r == null { return false, Absent; }
    v := r.ReadPlain(t);
    ok := r.error == OK;
  }

  /**
    Writer to reader, through the buffer, between hosts of any byte order: what was sent as `wt` and fits
    arrives as the reader's view of it, if and only if the reader has room for the texts it sees.
   */
  method Exchange(buf: array<byte>, wt: Type, v: Value, c: Cfg, rt: Type, writerLe: bool, readerLe: bool)
    returns (n: nat, ok: bool, got: Value)
    requires rt.Struct? && wt.Struct? && IsType(rt) && IsType(wt) && HasType(v, wt) && Evolves(c, rt, wt)
    modifies buf
    ensures n > 0 && n < U32 && ElementsTakeSpace(c, wt) ==> (ok <==> TextsFit(rt, wt, v)) && (ok ==> got == Project(rt, wt, v))
  {
    hide *;
    n := SerializeCdr(buf, wt, v, c, writerLe);
    ok, got := DeserializeCdr(buf[..n], rt, readerLe);
    if n > 0 && n < U32 && ElementsTakeSpace(c, wt) {
      ghost var m := Message(c, wt, v);
      assert m + [] == m;
      Representables(c, wt, v);
      MessageReady(c, wt, v, []);
      AlwaysSolid(c, wt, v);
      PlainAlwaysFits(Source(m + [], 4, c), rt, wt, v, 4);
      MessageReads(c, rt, wt, v, []);
    }
  }

  lemma Representables(c: Cfg, t: Type, v: Value)
    requires t.Struct? && IsType(t) && HasType(v, t)
    ensures Representable(c, t, v) <==> IdsFit(Plain(c, t, v)) && |Message(c, t, v)| < U32
  {
    hide Plain, IsType, HasType, IdsFit, Message;
  }

  /** A message ends with the struct in it. */
  lemma WholeMessage(c: Cfg, t: Type, v: Value)
    requires t.Struct? && IsType(t) && HasType(v, t)
    ensures EndOf(Source(Message(c, t, v), 4, c), Plain(c, t, v), 4) == |Message(c, t, v)|
  {
    hide Layout, Plain, IsType, HasType;
  }
}
