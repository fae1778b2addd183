/**
  A final struct gets a DHEADER of its own as soon as anything below it has variable length.  So when a nested
  appendable struct, which by itself may evolve, gains a member of variable length, the framing of the final
  struct around it changes, and an old reader takes the two headers for the object.
 */
module Framing {
  import opened Wrappers
  import opened Bytes
  import opened Scripts
  import opened WriterSteps
  import opened WireTypes
  import opened Decoding
  import opened Readback
  import opened Evolution
  import opened EvolutionProof
  import opened RoundTrip
  import opened Messages

  function Tags(n: nat): seq<Tag> {
    seq(n, i => Tag(0, false, false))
  }

  function Inner(ts: seq<Type>): Type {
    Struct(Appendable, Tags(|ts|), ts)
  }

  /** A final struct around an appendable one. */
  function Outer(ts: seq<Type>): Type {
    Struct(Final, Tags(1), [Inner(ts)])
  }

  function Nest(vs: seq<Value>): Value {
    List([List(vs)])
  }

  /** The members before and the members gained: scalars, and then anything with something of variable length in it. */
  predicate Gains(ts: seq<Type>, us: seq<Type>) {
    && AreTypes(ts) && AreTypes(us)
    && (forall i :: 0 <= i < |ts| ==> IsScalar(ts[i]))
    && (exists i :: 0 <= i < |us| && IsVariableLength(us[i]))
  }

  lemma OuterTypes(c: Cfg, ts: seq<Type>, us: seq<Type>)
    requires Gains(ts, us) && c.xcdr2
    ensures AreTypes(ts + us) && IsType(Inner(ts)) && IsType(Outer(ts)) && IsType(Inner(ts + us)) && IsType(Outer(ts + us))
    ensures !IsFramed(c, Outer(ts)) && IsFramed(c, Outer(ts + us))
    ensures !IsFramed(c, Inner(ts)) && !IsFramed(c, Inner(ts + us))
  {
    hide IsType;
    AppendTypes(ts, us);
    StructType(Appendable, ts);
    StructType(Appendable, ts + us);
    StructType(Final, [Inner(ts)]);
    StructType(Final, [Inner(ts + us)]);
    OldIsFixed(ts);
    NewIsVariable(ts, us);
  }

  lemma StructType(ext: Ext, types: seq<Type>)
    requires AreTypes(types) && !ext.Mutable?
    ensures IsType(Struct(ext, Tags(|types|), types))
  {
  }

  lemma AppendTypes(ts: seq<Type>, us: seq<Type>)
    requires AreTypes(ts) && AreTypes(us)
    ensures AreTypes(ts + us)
  {
  }

  lemma OldIsFixed(ts: seq<Type>)
    requires forall i :: 0 <= i < |ts| ==> IsScalar(ts[i])
    ensures !IsVariableLength(Outer(ts))
  {
    assert !IsVariableLength(Inner(ts));
  }

  lemma NewIsVariable(ts: seq<Type>, us: seq<Type>)
    requires exists i :: 0 <= i < |us| && IsVariableLength(us[i])
    ensures IsVariableLength(Outer(ts + us))
  {
    var i :| 0 <= i < |us| && IsVariableLength(us[i]);
    assert IsVariableLength((ts + us)[|ts| + i]);
    assert IsVariableLength(Inner(ts + us));
    assert IsVariableLength(Outer(ts + us).types[0]);
  }

  /** The appendable struct alone may evolve. */
  lemma InnerEvolves(c: Cfg, ts: seq<Type>, us: seq<Type>)
    requires Gains(ts, us) && c.xcdr2
    ensures Evolves(c, Inner(ts), Inner(ts + us))
  {
    forall i | 0 <= i < |ts| ensures Evolves(c, ts[i], (ts + us)[i]) {
      assert (ts + us)[i] == ts[i] && !IsFramed(c, ts[i]);
    }
    assert PrefixEvolves(c, ts, ts + us);
  }

  lemma NestTypes(ts: seq<Type>, vs: seq<Value>)
    requires HaveTypes(vs, ts)
    ensures HasType(List(vs), Inner(ts)) && HasType(Nest(vs), Outer(ts)) && HaveTypes([List(vs)], [Inner(ts)])
  {
    assert HasType(List(vs), Inner(ts));
  }

  /** What the new writer writes: two headers and the members. */
  lemma OuterCalls(c: Cfg, ts: seq<Type>, us: seq<Type>, vs: seq<Value>)
    requires Gains(ts, us) && c.xcdr2 && HaveTypes(vs, ts + us)
    ensures AreTypes(ts + us) && IsType(Outer(ts + us)) && HasType(Nest(vs), Outer(ts + us))
    ensures Field(c, Outer(ts + us), Nest(vs)) == Delimited(Delimited(Fields(c, ts + us, vs), Done), Done)
  {
    OuterTypes(c, ts, us);
    NestTypes(ts + us, vs);
    hide IsType, HasType, IsFramed;
    var body := Fields(c, ts + us, vs);
    hide Fields;
    assert Field(c, Inner(ts + us), List(vs)) == Delimited(body, Done);
    FieldsOf1(c, Inner(ts + us), List(vs));
  }

  lemma DecodeFieldsOf1(r: Source, t: Type, pos: nat)
    requires IsType(t) && r.base <= pos <= |r.buf|
    ensures DecodeFields(r, [t], pos) ==
            match Decode(r, t, pos)
            case Bad(err) => Bad(err)
            case Ok(v, p) => Ok([v], p)
  {
    hide Decode, IsType;
    if Decode(r, t, pos).Ok? {
      var v, p := Decode(r, t, pos).value, Decode(r, t, pos).pos;
      assert DecodeFields(r, [t][1..], p) == Ok([], p);
      assert [v] + [] == [v];
    }
  }

  /** The old reader: one header, the members it knows, and on to the announced end. */
  lemma OldDecode(r: Source, ts: seq<Type>, pos: nat, size: nat, start: nat)
    requires r.base <= pos <= start <= start + size <= |r.buf| && r.c.xcdr2
    requires AreTypes(ts) && IsType(Inner(ts)) && IsType(Outer(ts)) && !IsFramed(r.c, Outer(ts)) && !IsFramed(r.c, Inner(ts))
    requires ReadScalar(r, pos, 4) == Ok(size, start)
    ensures Decode(r, Outer(ts), pos) ==
            match DecodeFields(r, ts, start)
            case Bad(err) => Bad(err)
            case Ok(xs, _) => Ok(Nest(xs), start + size)
  {
    DecodeFieldsOf1(r, Inner(ts), pos);
    hide ReadScalar, DecodeFields, IsType, IsFramed;
    assert Decode(r, Inner(ts), pos) == DecodeDelimited(r, ts, pos);
    assert Decode(r, Outer(ts), pos) == Listed(DecodeFields(r, [Inner(ts)], pos));
  }

  /** What the old reader takes for its first member: the leading bytes of the inner header. */
  lemma {:induction false} FirstTaken(r: Source, ts: seq<Type>, start: nat)
    requires ts != [] && AreTypes(ts) && IsScalar(ts[0]) && r.base <= start <= |r.buf| && r.c.xcdr2 && PadAt(r, start) == 0
    ensures var w := Width(ts[0]);
            DecodeFields(r, ts, start).Ok? ==>
              && start + w <= |r.buf| && DecodeFields(r, ts, start).value != []
              && DecodeFields(r, ts, start).value[0] == Seen(ts[0], Get(r.buf[start..start + w], r.c.le))
  {
    var t := ts[0];
    ScalarDecodes(r, t, start);
    hide Decode, IsType, Get, PadAt;
  }

  function Seen(t: Type, n: nat): Value {
    Num(if t.Bool? then (if n != 0 then 1 else 0) else n)
  }

  lemma ScalarDecodes(r: Source, t: Type, start: nat)
    requires IsType(t) && IsScalar(t) && r.base <= start <= |r.buf| && r.c.xcdr2 && PadAt(r, start) == 0
    ensures var w := Width(t);
            Decode(r, t, start).Ok? ==>
              start + w <= |r.buf| && Decode(r, t, start).value == Seen(t, Get(r.buf[start..start + w], r.c.le))
  {
    NoPadding(r, start, Width(t));
    ScalarIsPlain(r, t, start);
    hide *;
    if Decode(r, t, start).Ok? {
      ScalarTakes(r, start, Width(t));
    }
  }

  lemma ScalarIsPlain(r: Source, t: Type, start: nat)
    requires IsType(t) && IsScalar(t) && r.base <= start <= |r.buf|
    ensures Decode(r, t, start).Ok? ==>
              ReadScalar(r, start, Width(t)).Ok? && Decode(r, t, start).value == Seen(t, ReadScalar(r, start, Width(t)).value)
  {
    hide ReadScalar, DecodeItems, DecodeFields, DecodeMutable, DecodeDelimited, ReadStr, ReadCount;
  }

  lemma ScalarTakes(r: Source, start: nat, w: nat)
    requires r.base <= start && Pad(r.c, start - r.base, AlignOf(w)) == 0 && ReadScalar(r, start, w).Ok?
    ensures start + w <= |r.buf| && ReadScalar(r, start, w).value == Get(r.buf[start..start + w], r.c.le)
  {
    hide Pad, Get;
  }

  lemma NoPadding(r: Source, start: nat, w: nat)
    requires r.base <= start && r.c.xcdr2 && PadAt(r, start) == 0 && (w == 1 || w == 2 || w == 4 || w == 8 || w == 16)
    ensures Pad(r.c, start - r.base, AlignOf(w)) == 0
  {
  }

  /** A value of the first member that the old reader cannot report; `size` is what the inner header says. */
  function TelltaleOf(c: Cfg, t: Type, size: nat): nat
    requires IsScalar(t)
  {
    if Width(t) <= 4 && Get(Put(size, 4, c.le)[..Width(t)], c.le) == 0 then 1 else 0
  }

  lemma TelltaleTyped(c: Cfg, t: Type, size: nat)
    requires IsType(t) && IsScalar(t)
    ensures HasType(Num(TelltaleOf(c, t, size)), t)
  {
    PowValues();
    hide Get, Put, Pow256;
  }

  lemma ZeroBytes(b: seq<byte>, le: bool)
    requires Get(b, le) == 0
    ensures b == Put(0, |b|, le)
  {
    PutGet(b, le);
  }

  /** The header is not zero, so no number that starts with it is. */
  lemma NotZero(b: seq<byte>, size: nat, le: bool)
    requires |b| >= 4 && b[..4] == Put(size, 4, le) && 0 < size < U32
    ensures Get(b, le) != 0
  {
    hide *;
    WordIs();
    if Get(b, le) == 0 {
      ZeroBytes(b, le);
      ZerosPut(|b|, le);
      ZerosPut(4, le);
      assert Put(size, 4, le) == Put(0, 4, le);
      GetPut(size, 4, le);
      GetPut(0, 4, le);
    }
  }

  lemma {:induction false} ZerosPut(w: nat, le: bool)
    ensures |Put(0, w, le)| == w && forall i :: 0 <= i < w ==> Put(0, w, le)[i] == 0
  {
    LeZeros(w);
  }

  lemma TelltaleDiffers(c: Cfg, t: Type, b: seq<byte>, size: nat)
    requires IsType(t) && IsScalar(t) && |b| == Width(t) && 0 < size < U32
    requires if |b| <= 4 then b == Put(size, 4, c.le)[..|b|] else b[..4] == Put(size, 4, c.le)
    ensures Seen(t, Get(b, c.le)) != Num(TelltaleOf(c, t, size))
  {
    if |b| > 4 {
      NotZero(b, size, c.le);
    }
    hide Get, Put;
  }

  /** The size of the members, as the inner header gives it. */
  function BodySize(r: Source, types: seq<Type>, vs: seq<Value>, pos: nat): nat
    requires AreTypes(types) && HaveTypes(vs, types) && r.base <= pos
  {
    |Layout(r.c, Fields(r.c, types, vs), SpOf(r, pos + PadAt(r, pos) + 8))|
  }

  /** The two headers in front of a body, as they lie in the buffer. */
  lemma TwoHeaders(r: Source, body: Calls, pos: nat)
    requires Ready(r, Delimited(Delimited(body, Done), Done), pos)
    ensures r.base <= pos
    ensures var start := pos + PadAt(r, pos) + 4;
            var size := EndOf(r, body, start + 4) - (start + 4);
            && PadAt(r, start) == 0 && 0 <= size < U32
            && start + 4 + size == EndOf(r, Delimited(Delimited(body, Done), Done), pos) <= |r.buf|
            && ReadScalar(r, pos, 4) == Ok(4 + size, start) && ReadScalar(r, start, 4) == Ok(size, start + 4)
  {
    hide *;
    ReadyBuf(r, Delimited(Delimited(body, Done), Done), pos);
    var start := BodyAt(r, true, pos);
    BodyStarts(r, pos);
    FrameReads(r, Delimited(body, Done), pos);
    FrameReads(r, body, start);
    ReadyBuf(r, body, start + 4);
    ReadySize(r, body, start + 4);
  }

  lemma OutcomeBehind(r: Source, ts: seq<Type>, body: Calls, pos: nat)
    requires r.base <= pos <= |r.buf| && r.c.xcdr2
    requires AreTypes(ts) && IsType(Inner(ts)) && IsType(Outer(ts)) && !IsFramed(r.c, Outer(ts)) && !IsFramed(r.c, Inner(ts))
    requires Ready(r, Delimited(Delimited(body, Done), Done), pos)
    ensures var start := pos + PadAt(r, pos) + 4;
            start <= |r.buf| &&
            Decode(r, Outer(ts), pos) ==
            match DecodeFields(r, ts, start)
            case Bad(err) => Bad(err)
            case Ok(xs, _) => Ok(Nest(xs), EndOf(r, Delimited(Delimited(body, Done), Done), pos))
  {
    hide *;
    TwoHeaders(r, body, pos);
    var start := pos + PadAt(r, pos) + 4;
    OldDecode(r, ts, pos, EndOf(r, body, start + 4) - start, start);
  }

  lemma BodyStarts(r: Source, pos: nat)
    requires r.base <= pos
    ensures var start := BodyAt(r, true, pos);
            start == pos + PadAt(r, pos) + 4 && PadAt(r, start) == 0 && BodyAt(r, true, start) == start + 4
  {
    AfterWord(r, pos);
    hide PadAt;
  }

  lemma ReadySize(r: Source, k: Calls, pos: nat)
    requires Ready(r, k, pos)
    ensures r.base <= pos && EndOf(r, k, pos) < pos + U32
  {
    hide Layout, Holds, IdsFit;
  }

  lemma SizeUnfold(r: Source, types: seq<Type>, vs: seq<Value>, pos: nat)
    requires AreTypes(types) && HaveTypes(vs, types) && r.base <= pos
    ensures var p := pos + PadAt(r, pos) + 8; EndOf(r, Fields(r.c, types, vs), p) == p + BodySize(r, types, vs, pos)
  {
    hide Layout, Fields, PadAt;
  }

  lemma HeaderBytes(r: Source, start: nat, size: nat)
    requires r.base <= start && PadAt(r, start) == 0 && ReadScalar(r, start, 4) == Ok(size, start + 4)
    ensures start + 4 <= |r.buf| && r.buf[start..start + 4] == Put(size, 4, r.c.le)
  {
    hide Get, Put, PadTo;
    PutGet(r.buf[start..start + 4], r.c.le);
  }

  lemma BodyTakesSpace(r: Source, types: seq<Type>, vs: seq<Value>, pos: nat)
    requires types != [] && AreTypes(types) && HaveTypes(vs, types) && IsScalar(types[0]) && r.base <= pos
    ensures BodySize(r, types, vs, pos) > 0
  {
    hide *;
    var p := pos + PadAt(r, pos) + 8;
    ScalarTakesSpace(r.c, types[0]);
    FieldsTakeSpace(r.c, types, vs, 0, SpOf(r, p));
    SizeUnfold(r, types, vs, pos);
    EndIs(r, Fields(r.c, types, vs), p);
  }

  lemma ScalarTakesSpace(c: Cfg, t: Type)
    requires IsScalar(t)
    ensures TakesSpace(c, t)
  {
  }

  lemma EndIs(r: Source, k: Calls, pos: nat)
    requires r.base <= pos
    ensures EndOf(r, k, pos) == pos + |Layout(r.c, k, SpOf(r, pos))|
  {
    hide Layout;
  }

  lemma FirstSlice(buf: seq<byte>, start: nat, w: nat, h: seq<byte>)
    requires start + w <= |buf| && start + 4 <= |buf| && buf[start..start + 4] == h
    ensures if w <= 4 then buf[start..start + w] == h[..w] else buf[start..start + w][..4] == h
  {
    if w <= 4 {
      assert buf[start..start + 4][..w] == buf[start..start + w];
    } else {
      assert buf[start..start + w][..4] == buf[start..start + 4];
    }
  }

  /** The old reader never reports the telltale value of its first member. */
  lemma NotReported(r: Source, ts: seq<Type>, start: nat, size: nat)
    requires ts != [] && AreTypes(ts) && IsScalar(ts[0]) && r.base <= start <= |r.buf| && r.c.xcdr2
    requires PadAt(r, start) == 0 && ReadScalar(r, start, 4) == Ok(size, start + 4) && 0 < size < U32
    ensures DecodeFields(r, ts, start).Ok? ==>
              && DecodeFields(r, ts, start).value != []
              && DecodeFields(r, ts, start).value[0] != Num(TelltaleOf(r.c, ts[0], size))
  {
    hide *;
    FirstTaken(r, ts, start);
    HeaderBytes(r, start, size);
    var w := Width(ts[0]);
    if DecodeFields(r, ts, start).Ok? {
      FirstIsType(ts);
      FirstSlice(r.buf, start, w, Put(size, 4, r.c.le));
      TelltaleDiffers(r.c, ts[0], r.buf[start..start + w], size);
    }
  }

  lemma FirstIsType(ts: seq<Type>)
    requires ts != [] && AreTypes(ts)
    ensures IsType(ts[0])
  {
  }

  /** What the old reader should see: the members it knows. */
  lemma ProjectsToKnown(ts: seq<Type>, us: seq<Type>, vs: seq<Value>)
    requires Gains(ts, us) && HaveTypes(vs, ts + us)
    ensures Project(Outer(ts), Outer(ts + us), Nest(vs)) == Nest(vs[..|ts|])
  {
    forall i | 0 <= i < |ts| ensures Project(ts[i], (ts + us)[i], vs[i]) == vs[i] {
      assert (ts + us)[i] == ts[i];
    }
    assert ProjectPrefix(ts, ts + us, vs) == vs[..|ts|];
    assert Project(Inner(ts), Inner(ts + us), List(vs)) == List(vs[..|ts|]);
    hide ProjectPrefix;
    assert ProjectPrefix([Inner(ts)], [Inner(ts + us)], [List(vs)]) == [List(vs[..|ts|])] by { OneProjected(Inner(ts), Inner(ts + us), List(vs)); }
  }

  lemma OneProjected(rt: Type, wt: Type, v: Value)
    ensures ProjectPrefix([rt], [wt], [v]) == [Project(rt, wt, v)]
  {
    hide Project;
  }

  /**
    In XCDR2, for every such pair of types, at every position: an old reader that knew no member sees what it
    should; one that knew any misses every value whose first member is the telltale.
   */
  lemma FramingChangeMisread(r: Source, ts: seq<Type>, us: seq<Type>, vs: seq<Value>, pos: nat)
    requires Gains(ts, us) && r.c.xcdr2 && HaveTypes(vs, ts + us) && r.base <= pos <= |r.buf|
    requires IsType(Outer(ts + us)) && HasType(Nest(vs), Outer(ts + us)) && IsType(Outer(ts))
    requires Ready(r, Field(r.c, Outer(ts + us), Nest(vs)), pos) && AreTypes(ts + us) && (ts != [] ==> IsScalar(ts[0]) && vs != [])
    ensures Evolves(r.c, Inner(ts), Inner(ts + us)) && IsFramed(r.c, Outer(ts)) != IsFramed(r.c, Outer(ts + us))
    ensures ts == [] ==>
              Decode(r, Outer(ts), pos) ==
              Ok(Project(Outer(ts), Outer(ts + us), Nest(vs)), EndOf(r, Field(r.c, Outer(ts + us), Nest(vs)), pos))
    ensures ts != [] && vs[0] == Num(TelltaleOf(r.c, ts[0], BodySize(r, ts + us, vs, pos))) ==> Misses(r, ts, us, vs, pos)
  {
    hide *;
    OuterTypes(r.c, ts, us);
    InnerEvolves(r.c, ts, us);
    if ts == [] {
      NoneMissed(r, ts, us, vs, pos);
    } else {
      FirstMissed(r, ts, us, vs, pos);
    }
  }

  /** The old reader's outcome in terms of what it reads behind the first header. */
  lemma OldOutcome(r: Source, ts: seq<Type>, us: seq<Type>, vs: seq<Value>, pos: nat)
    requires Gains(ts, us) && r.c.xcdr2 && HaveTypes(vs, ts + us) && r.base <= pos <= |r.buf|
    requires IsType(Outer(ts + us)) && HasType(Nest(vs), Outer(ts + us)) && IsType(Outer(ts))
    requires Ready(r, Field(r.c, Outer(ts + us), Nest(vs)), pos)
    ensures AreTypes(ts) && AreTypes(ts + us)
    ensures var start := pos + PadAt(r, pos) + 4;
            start <= |r.buf| &&
            Decode(r, Outer(ts), pos) ==
            match DecodeFields(r, ts, start)
            case Bad(err) => Bad(err)
            case Ok(xs, _) => Ok(Nest(xs), EndOf(r, Field(r.c, Outer(ts + us), Nest(vs)), pos))
  {
    ScalarsAhead(ts, us);
    hide *;
    OuterTypes(r.c, ts, us);
    OuterCalls(r.c, ts, us, vs);
    OutcomeBehind(r, ts, Fields(r.c, ts + us, vs), pos);
  }

  lemma NoneMissed(r: Source, ts: seq<Type>, us: seq<Type>, vs: seq<Value>, pos: nat)
    requires Gains(ts, us) && r.c.xcdr2 && HaveTypes(vs, ts + us) && r.base <= pos <= |r.buf|
    requires IsType(Outer(ts + us)) && HasType(Nest(vs), Outer(ts + us)) && IsType(Outer(ts))
    requires Ready(r, Field(r.c, Outer(ts + us), Nest(vs)), pos) && ts == []
    ensures Decode(r, Outer(ts), pos) ==
            Ok(Project(Outer(ts), Outer(ts + us), Nest(vs)), EndOf(r, Field(r.c, Outer(ts + us), Nest(vs)), pos))
  {
    hide *;
    OldOutcome(r, ts, us, vs, pos);
    ProjectsToKnown(ts, us, vs);
    NothingKnown(r, pos + PadAt(r, pos) + 4, vs);
  }

  lemma FirstMissed(r: Source, ts: seq<Type>, us: seq<Type>, vs: seq<Value>, pos: nat)
    requires Gains(ts, us) && r.c.xcdr2 && HaveTypes(vs, ts + us) && r.base <= pos <= |r.buf|
    requires IsType(Outer(ts + us)) && HasType(Nest(vs), Outer(ts + us)) && IsType(Outer(ts))
    requires Ready(r, Field(r.c, Outer(ts + us), Nest(vs)), pos) && ts != [] && IsScalar(ts[0]) && AreTypes(ts + us)
    ensures vs != []
    ensures vs[0] == Num(TelltaleOf(r.c, ts[0], BodySize(r, ts + us, vs, pos))) ==> Misses(r, ts, us, vs, pos)
  {
    ManyValues(ts, us, vs);
    hide *;
    var size := BodySize(r, ts + us, vs, pos);
    if vs[0] == Num(TelltaleOf(r.c, ts[0], size)) {
      FirstUnseen(r, ts, us, vs, pos);
      OldOutcome(r, ts, us, vs, pos);
      ProjectsToKnown(ts, us, vs);
      MissedIf(r, ts, us, vs, pos, DecodeFields(r, ts, pos + PadAt(r, pos) + 4));
    }
  }

  lemma OuterHeaders(r: Source, ts: seq<Type>, us: seq<Type>, vs: seq<Value>, pos: nat)
    requires Gains(ts, us) && r.c.xcdr2 && HaveTypes(vs, ts + us) && r.base <= pos <= |r.buf| && AreTypes(ts + us)
    requires IsType(Outer(ts + us)) && HasType(Nest(vs), Outer(ts + us)) && Ready(r, Field(r.c, Outer(ts + us), Nest(vs)), pos)
    ensures var start, size := pos + PadAt(r, pos) + 4, BodySize(r, ts + us, vs, pos);
            start <= |r.buf| && PadAt(r, start) == 0 && size < U32 && ReadScalar(r, start, 4) == Ok(size, start + 4)
  {
    hide *;
    OuterCalls(r.c, ts, us, vs);
    TwoHeaders(r, Fields(r.c, ts + us, vs), pos);
    SizeUnfold(r, ts + us, vs, pos);
  }

  lemma FirstUnseen(r: Source, ts: seq<Type>, us: seq<Type>, vs: seq<Value>, pos: nat)
    requires Gains(ts, us) && r.c.xcdr2 && HaveTypes(vs, ts + us) && r.base <= pos <= |r.buf|
    requires IsType(Outer(ts + us)) && HasType(Nest(vs), Outer(ts + us)) && IsType(Outer(ts))
    requires Ready(r, Field(r.c, Outer(ts + us), Nest(vs)), pos) && ts != [] && IsScalar(ts[0]) && AreTypes(ts + us)
    requires |ts| <= |vs| && vs[0] == Num(TelltaleOf(r.c, ts[0], BodySize(r, ts + us, vs, pos)))
    ensures var start := pos + PadAt(r, pos) + 4;
            && AreTypes(ts) && start <= |r.buf|
            && (DecodeFields(r, ts, start).Ok? ==> Nest(DecodeFields(r, ts, start).value) != Nest(vs[..|ts|]))
  {
    hide *;
    ScalarsAhead(ts, us);
    var start, size := pos + PadAt(r, pos) + 4, BodySize(r, ts + us, vs, pos);
    OuterHeaders(r, ts, us, vs, pos);
    BodyTakesSpace(r, ts + us, vs, pos);
    NotReported(r, ts, start, size);
    TelltaleMissed(r, ts, start, size, vs);
  }

  lemma MissedIf(r: Source, ts: seq<Type>, us: seq<Type>, vs: seq<Value>, pos: nat, x: Read<seq<Value>>)
    requires IsType(Outer(ts)) && r.base <= pos <= |r.buf| && |ts| <= |vs|
    requires x.Ok? ==> Nest(x.value) != Nest(vs[..|ts|])
    requires Project(Outer(ts), Outer(ts + us), Nest(vs)) == Nest(vs[..|ts|])
    requires Decode(r, Outer(ts), pos).Ok? ==> x.Ok? && Decode(r, Outer(ts), pos).value == Nest(x.value)
    ensures Misses(r, ts, us, vs, pos)
  {
    hide Decode, Project, IsType, Nest;
  }

  /** The reader fails or returns something else than it should. */
  predicate Misses(r: Source, ts: seq<Type>, us: seq<Type>, vs: seq<Value>, pos: nat)
    requires IsType(Outer(ts)) && r.base <= pos <= |r.buf|
  {
    var x := Decode(r, Outer(ts), pos);
    x.Ok? ==> x.value != Project(Outer(ts), Outer(ts + us), Nest(vs))
  }

  lemma ManyValues(ts: seq<Type>, us: seq<Type>, vs: seq<Value>)
    requires HaveTypes(vs, ts + us)
    ensures |ts| <= |vs| && (ts != [] ==> vs != [])
  {
  }

  lemma TelltaleMissed(r: Source, ts: seq<Type>, start: nat, size: nat, vs: seq<Value>)
    requires ts != [] && AreTypes(ts) && IsScalar(ts[0]) && r.base <= start <= |r.buf| && |ts| <= |vs|
    requires var x := DecodeFields(r, ts, start);
             x.Ok? ==> x.value != [] && x.value[0] != Num(TelltaleOf(r.c, ts[0], size))
    ensures var x := DecodeFields(r, ts, start);
            x.Ok? && vs[0] == Num(TelltaleOf(r.c, ts[0], size)) ==> Nest(x.value) != Nest(vs[..|ts|])
  {
    hide *;
    var x := DecodeFields(r, ts, start);
    if x.Ok? && vs[0] == Num(TelltaleOf(r.c, ts[0], size)) {
      NestsDiffer(x.value, vs[..|ts|]);
    }
  }

  lemma ScalarsAhead(ts: seq<Type>, us: seq<Type>)
    requires Gains(ts, us)
    ensures AreTypes(ts)
    ensures ts != [] ==> ts + us != [] && (ts + us)[0] == ts[0] && IsScalar(ts[0])
  {
  }

  lemma NothingKnown(r: Source, start: nat, vs: seq<Value>)
    requires r.base <= start <= |r.buf|
    ensures AreTypes([]) && DecodeFields(r, [], start) == Ok([], start) && vs[..0] == []
  {
  }

  lemma NestsDiffer(xs: seq<Value>, ys: seq<Value>)
    requires xs != [] && ys != [] && xs[0] != ys[0]
    ensures Nest(xs) != Nest(ys)
  {
  }

  /** A message whose struct holds the final one. */
  function Top(ts: seq<Type>): Type {
    Struct(Final, Tags(1), [Outer(ts)])
  }

  function Held(vs: seq<Value>): Value {
    List([Nest(vs)])
  }

  predicate Case(c: Cfg, ts: seq<Type>, us: seq<Type>) {
    c.xcdr2 && Gains(ts, us) && IsType(Outer(ts)) && IsType(Outer(ts + us)) && IsType(Top(ts)) && IsType(Top(ts + us))
  }

  lemma EveryCase(c: Cfg, ts: seq<Type>, us: seq<Type>)
    requires c.xcdr2 && Gains(ts, us)
    ensures Case(c, ts, us)
  {
    OuterTypes(c, ts, us);
    hide IsType, Gains;
    StructType(Final, [Outer(ts)]);
    StructType(Final, [Outer(ts + us)]);
  }

  predicate IsValue(ts: seq<Type>, us: seq<Type>, vs: seq<Value>) {
    HasType(Nest(vs), Outer(ts + us)) && HasType(Held(vs), Top(ts + us))
  }

  lemma EveryValue(ts: seq<Type>, us: seq<Type>, vs: seq<Value>)
    requires HaveTypes(vs, ts + us)
    ensures IsValue(ts, us, vs)
  {
    NestTypes(ts + us, vs);
    assert HaveTypes([Nest(vs)], [Outer(ts + us)]) by { hide HasType, Outer; }
    hide Outer, Nest;
  }

  /** A sample the new writer can send, none of its ids and lengths cut off. */
  predicate IsSent(c: Cfg, ts: seq<Type>, us: seq<Type>, vs: seq<Value>)
    requires Case(c, ts, us)
  {
    IsValue(ts, us, vs) && Representable(c, Top(ts + us), Held(vs))
  }

  function Sent(c: Cfg, ts: seq<Type>, us: seq<Type>, vs: seq<Value>): Source
    requires Case(c, ts, us) && IsValue(ts, us, vs)
  {
    Source(Message(c, Top(ts + us), Held(vs)), 4, c)
  }

  predicate OldSees(c: Cfg, ts: seq<Type>, us: seq<Type>, vs: seq<Value>)
    requires Case(c, ts, us) && IsValue(ts, us, vs)
  {
    var r := Sent(c, ts, us, vs);
    |r.buf| >= 4 && DecodePlain(r, Top(ts), 4) == Ok(Project(Top(ts), Top(ts + us), Held(vs)), |r.buf|)
  }

  lemma CaseOf(c: Cfg, ts: seq<Type>, us: seq<Type>)
    requires Case(c, ts, us)
    ensures c.xcdr2 && Gains(ts, us) && IsType(Outer(ts)) && IsType(Outer(ts + us)) && IsType(Top(ts)) && IsType(Top(ts + us))
  {
    hide Gains, IsType;
  }

  lemma ValueOf(ts: seq<Type>, us: seq<Type>, vs: seq<Value>)
    requires IsValue(ts, us, vs)
    ensures HasType(Nest(vs), Outer(ts + us)) && HasType(Held(vs), Top(ts + us)) && HaveTypes(vs, ts + us)
  {
    NestOnly(ts + us, vs);
    hide HasType;
  }

  lemma NestOnly(ts: seq<Type>, vs: seq<Value>)
    requires HasType(Nest(vs), Outer(ts))
    ensures HaveTypes(vs, ts)
  {
    assert HasType([List(vs)][0], [Inner(ts)][0]);
  }

  lemma TopCalls(c: Cfg, ts: seq<Type>, us: seq<Type>, vs: seq<Value>)
    requires Case(c, ts, us) && IsValue(ts, us, vs) && IsType(Top(ts + us)) && HasType(Held(vs), Top(ts + us))
    ensures IsType(Outer(ts + us)) && HasType(Nest(vs), Outer(ts + us))
    ensures Plain(c, Top(ts + us), Held(vs)) == Field(c, Outer(ts + us), Nest(vs))
  {
    CaseOf(c, ts, us);
    ValueOf(ts, us, vs);
    hide Gains, Field, HasType, IsType, Outer, Nest;
    FieldsOf1(c, Outer(ts + us), Nest(vs));
    OuterCalls(c, ts, us, vs);
    assert Plain(c, Top(ts + us), Held(vs)) == Fields(c, [Outer(ts + us)], [Nest(vs)]);
    assert Append(Done, Done) == Done;
  }

  lemma SentReady(c: Cfg, ts: seq<Type>, us: seq<Type>, vs: seq<Value>)
    requires Case(c, ts, us) && IsSent(c, ts, us, vs) && IsValue(ts, us, vs)
    requires IsType(Outer(ts + us)) && HasType(Nest(vs), Outer(ts + us))
    ensures var r := Sent(c, ts, us, vs);
            && r.c == c && r.base == 4 <= |r.buf| && HaveTypes(vs, ts + us)
            && Ready(r, Field(c, Outer(ts + us), Nest(vs)), 4)
            && EndOf(r, Field(c, Outer(ts + us), Nest(vs)), 4) == |r.buf|
  {
    hide *;
    CaseOf(c, ts, us);
    ValueOf(ts, us, vs);
    TopCalls(c, ts, us, vs);
    SentOf(c, ts, us, vs);
    TopIsStruct(ts + us);
    var m := Message(c, Top(ts + us), Held(vs));
    assert m + [] == m;
    MessageReady(c, Top(ts + us), Held(vs), []);
    WholeMessage(c, Top(ts + us), Held(vs));
    ReadyBuf(Sent(c, ts, us, vs), Field(c, Outer(ts + us), Nest(vs)), 4);
  }

  lemma TopIsStruct(ts: seq<Type>)
    ensures Top(ts).Struct? && Top(ts).ext == Final
  {
  }

  lemma SentOf(c: Cfg, ts: seq<Type>, us: seq<Type>, vs: seq<Value>)
    requires Case(c, ts, us) && IsSent(c, ts, us, vs) && IsValue(ts, us, vs) && IsType(Top(ts + us)) && HasType(Held(vs), Top(ts + us))
    ensures Sent(c, ts, us, vs) == Source(Message(c, Top(ts + us), Held(vs)), 4, c) && Representable(c, Top(ts + us), Held(vs))
  {
    hide Message, Representable, Case, IsType, HasType, Outer, Nest;
  }

  /** Replacing a scalar by another value of its type changes no length. */
  lemma SameLength(c: Cfg, types: seq<Type>, vs: seq<Value>, x: Value, sp: nat)
    requires types != [] && AreTypes(types) && IsScalar(types[0]) && HaveTypes(vs, types) && HasType(x, types[0])
    ensures |vs| > 0 && HaveTypes(vs[0 := x], types)
    ensures |Layout(c, Fields(c, types, vs[0 := x]), sp)| == |Layout(c, Fields(c, types, vs), sp)|
    ensures IdsFit(Fields(c, types, vs[0 := x])) == IdsFit(Fields(c, types, vs))
  {
    var t := types[0];
    var ws := vs[0 := x];
    assert ws[1..] == vs[1..];
    FieldsHead(c, types, vs);
    FieldsHead(c, types, ws);
    hide *;
    ScalarAhead(c, t, vs[0], Fields(c, types[1..], vs[1..]), sp);
    ScalarAhead(c, t, x, Fields(c, types[1..], vs[1..]), sp);
  }

  lemma ScalarAhead(c: Cfg, t: Type, v: Value, rest: Calls, sp: nat)
    requires IsType(t) && IsScalar(t) && HasType(v, t)
    ensures var n := Pad(c, sp, AlignOf(Width(t))) + Width(t);
            |Layout(c, Append(Field(c, t, v), rest), sp)| == n + |Layout(c, rest, sp + n)|
    ensures IdsFit(Append(Field(c, t, v), rest)) == IdsFit(rest)
  {
    hide *;
    ScalarCalls(c, t, v);
    LayoutAppend(c, Field(c, t, v), rest, sp);
    ScalarLayout(c, Width(t), v.n, sp);
    AppendKeeps(Field(c, t, v), rest);
  }

  lemma ScalarCalls(c: Cfg, t: Type, v: Value)
    requires IsType(t) && IsScalar(t) && HasType(v, t)
    ensures v.Num? && Field(c, t, v) == Scalar(Width(t), v.n, Done) && IdsFit(Field(c, t, v))
  {
  }

  lemma DelimitedFits(k: Calls)
    ensures IdsFit(Delimited(k, Done)) == IdsFit(k)
  {
    assert IdsFit(Done);
  }

  lemma NoPadAt(c: Cfg)
    ensures Pad(c, 0, 4) == 0 && Pad(c, 4, 4) == 0
  {
  }

  lemma DelimitedLength(c: Cfg, k: Calls)
    ensures |Layout(c, Delimited(Delimited(k, Done), Done), 0)| == 8 + |Layout(c, k, 8)|
    ensures IdsFit(Delimited(Delimited(k, Done), Done)) == IdsFit(k)
  {
    hide *;
    DelimitedFits(k);
    DelimitedFits(Delimited(k, Done));
    DelimitedLayout(c, Delimited(k, Done), 0);
    DelimitedLayout(c, k, 4);
    NoPadAt(c);
  }

  /**
    For every such pair of types that has a sample at all: an old reader sees what it should of every message if and
    only if it knew no member.
   */
  lemma FramingChangeIff(c: Cfg, ts: seq<Type>, us: seq<Type>, vs: seq<Value>)
    requires Case(c, ts, us) && IsSent(c, ts, us, vs)
    ensures (forall ws :: IsSent(c, ts, us, ws) ==> OldSees(c, ts, us, ws)) <==> ts == []
  {
    hide Case, IsValue, Representable, OldSees, Gains, IsType;
    if ts == [] {
      forall ws | IsSent(c, ts, us, ws) ensures OldSees(c, ts, us, ws) {
        SentIsValue(c, ts, us, ws);
        NoneKnown(c, ts, us, ws);
      }
    } else {
      SentIsValue(c, ts, us, vs);
      var ws := TelltaleValue(c, ts, us, vs);
      assert IsSent(c, ts, us, ws) && !OldSees(c, ts, us, ws);
    }
  }

  lemma SentIsValue(c: Cfg, ts: seq<Type>, us: seq<Type>, vs: seq<Value>)
    requires Case(c, ts, us) && IsSent(c, ts, us, vs)
    ensures IsValue(ts, us, vs)
  {
    hide Case, IsValue, Representable;
  }

  /** The old reader of the message is the old reader of the final struct in it. */
  lemma OldReads(c: Cfg, ts: seq<Type>, us: seq<Type>, vs: seq<Value>)
    requires Case(c, ts, us) && IsValue(ts, us, vs) && IsType(Outer(ts)) && Sent(c, ts, us, vs).base == 4 <= |Sent(c, ts, us, vs).buf|
    ensures var r := Sent(c, ts, us, vs);
            OldSees(c, ts, us, vs) <==>
              Decode(r, Outer(ts), 4) == Ok(Project(Outer(ts), Outer(ts + us), Nest(vs)), |r.buf|)
  {
    var r := Sent(c, ts, us, vs);
    DecodeFieldsOf1(r, Outer(ts), 4);
    OneProjected(Outer(ts), Outer(ts + us), Nest(vs));
    hide Decode, Project, ProjectPrefix, DecodeFields, Message, HasType, Outer, Nest, Case, IsType;
    TopDecodes(r, ts);
    TopProjects(ts, ts + us, vs);
  }

  lemma TopDecodes(r: Source, ts: seq<Type>)
    requires IsType(Top(ts)) && IsType(Outer(ts)) && r.base <= 4 <= |r.buf| && AreTypes([Outer(ts)])
    ensures DecodePlain(r, Top(ts), 4) == Listed(DecodeFields(r, [Outer(ts)], 4))
  {
    hide DecodeFields, Outer, IsType;
  }

  lemma TopProjects(ts: seq<Type>, us: seq<Type>, vs: seq<Value>)
    ensures Project(Top(ts), Top(us), Held(vs)) == List(ProjectPrefix([Outer(ts)], [Outer(us)], [Nest(vs)]))
  {
    hide ProjectPrefix, Outer, Nest;
  }

  lemma NoneKnown(c: Cfg, ts: seq<Type>, us: seq<Type>, vs: seq<Value>)
    requires Case(c, ts, us) && IsSent(c, ts, us, vs) && IsValue(ts, us, vs) && ts == []
    ensures OldSees(c, ts, us, vs)
  {
    hide *;
    CaseOf(c, ts, us);
    ValueOf(ts, us, vs);
    SentReady(c, ts, us, vs);
    NoneMissed(Sent(c, ts, us, vs), ts, us, vs, 4);
    OldReads(c, ts, us, vs);
  }

  lemma TelltaleValue(c: Cfg, ts: seq<Type>, us: seq<Type>, vs: seq<Value>) returns (ws: seq<Value>)
    requires Case(c, ts, us) && IsSent(c, ts, us, vs) && IsValue(ts, us, vs) && ts != []
    ensures IsValue(ts, us, ws) && IsSent(c, ts, us, ws) && !OldSees(c, ts, us, ws)
  {
    hide *;
    CaseOf(c, ts, us);
    ValueOf(ts, us, vs);
    ScalarsAhead(ts, us);
    SentReady(c, ts, us, vs);
    OuterTypes(c, ts, us);
    FirstIsType(ts);
    OuterCalls(c, ts, us, vs);
    var body := Fields(c, ts + us, vs);
    var size := |Layout(c, body, 8)|;
    var x := Num(TelltaleOf(c, ts[0], size));
    TelltaleTyped(c, ts[0], size);
    SameLength(c, ts + us, vs, x, 8);
    ws := vs[0 := x];
    EveryValue(ts, us, ws);
    ValueOf(ts, us, ws);
    OuterCalls(c, ts, us, ws);
    DelimitedLength(c, body);
    DelimitedLength(c, Fields(c, ts + us, ws));
    StillSent(c, ts, us, vs, ws);
    SentReady(c, ts, us, ws);
    var r := Sent(c, ts, us, ws);
    SizeAtStart(r, ts + us, ws);
    FirstMissed(r, ts, us, ws, 4);
    NotSeen(c, ts, us, ws);
  }

  lemma StillSent(c: Cfg, ts: seq<Type>, us: seq<Type>, vs: seq<Value>, ws: seq<Value>)
    requires Case(c, ts, us) && IsSent(c, ts, us, vs) && IsValue(ts, us, vs) && IsValue(ts, us, ws)
    requires IsType(Outer(ts + us)) && HasType(Nest(vs), Outer(ts + us)) && HasType(Nest(ws), Outer(ts + us))
    requires var k, l := Field(c, Outer(ts + us), Nest(vs)), Field(c, Outer(ts + us), Nest(ws));
             |Layout(c, l, 0)| == |Layout(c, k, 0)| && IdsFit(l) == IdsFit(k)
    ensures IsSent(c, ts, us, ws)
  {
    CaseOf(c, ts, us);
    ValueOf(ts, us, vs);
    ValueOf(ts, us, ws);
    TopCalls(c, ts, us, vs);
    TopCalls(c, ts, us, ws);
    hide Layout, Field, Plain, IsType, HasType, IdsFit, Gains, Case, IsValue, Outer, Nest;
  }

  lemma SizeAtStart(r: Source, types: seq<Type>, vs: seq<Value>)
    requires AreTypes(types) && HaveTypes(vs, types) && r.base == 4
    ensures BodySize(r, types, vs, 4) == |Layout(r.c, Fields(r.c, types, vs), 8)|
  {
    hide Layout, Fields;
    assert PadAt(r, 4) == 0;
  }

  lemma NotSeen(c: Cfg, ts: seq<Type>, us: seq<Type>, vs: seq<Value>)
    requires Case(c, ts, us) && IsValue(ts, us, vs) && IsType(Outer(ts))
    requires var r := Sent(c, ts, us, vs); r.base == 4 <= |r.buf| && Misses(r, ts, us, vs, 4)
    ensures !OldSees(c, ts, us, vs)
  {
    OldReads(c, ts, us, vs);
    hide Decode, Project, Sent, Case, IsValue, IsType, OldSees, Outer, Nest;
  }

  /** For one: an int32 to which a string is added.  Samples exist, so the old reader is wrong about some of them. */
  lemma StringAfterInt32(le: bool, x: nat, s: seq<byte>)
    requires x < U32 && |s| < 1000
    ensures Case(Cfg(le, true), [Int(4)], [Str(None)]) && IsSent(Cfg(le, true), [Int(4)], [Str(None)], [Num(x), Txt(s)])
    ensures exists ws :: IsSent(Cfg(le, true), [Int(4)], [Str(None)], ws) && !OldSees(Cfg(le, true), [Int(4)], [Str(None)], ws)
  {
    var c, ts, us, vs := Cfg(le, true), [Int(4)], [Str(None)], [Num(x), Txt(s)];
    GainsOne();
    EveryCase(c, ts, us);
    TypedPair(x, s);
    PairSent(c, x, s);
    hide *;
    SentIsValue(c, ts, us, vs);
    var ws := TelltaleValue(c, ts, us, vs);
    assert IsSent(c, ts, us, ws) && !OldSees(c, ts, us, ws);
  }

  lemma GainsOne()
    ensures Gains([Int(4)], [Str(None)])
  {
    assert IsVariableLength([Str(None)][0]);
  }

  lemma TypedPair(x: nat, s: seq<byte>)
    requires x < U32
    ensures HaveTypes([Num(x), Txt(s)], [Int(4)] + [Str(None)])
  {
    PowValues();
  }

  lemma PairSent(c: Cfg, x: nat, s: seq<byte>)
    requires c.xcdr2 && |s| < 1000 && Case(c, [Int(4)], [Str(None)]) && HaveTypes([Num(x), Txt(s)], [Int(4)] + [Str(None)])
    ensures IsSent(c, [Int(4)], [Str(None)], [Num(x), Txt(s)])
  {
    var ts, us, vs := [Int(4)], [Str(None)], [Num(x), Txt(s)];
    CaseOf(c, ts, us);
    EveryValue(ts, us, vs);
    ValueOf(ts, us, vs);
    OuterCalls(c, ts, us, vs);
    TopCalls(c, ts, us, vs);
    PairCalls(c, x, s);
    PairSize(c, x, s);
    DelimitedLength(c, Scalar(4, x, Text(s, Done)));
    hide Layout, Field, Fields, Plain, IsType, HasType, IdsFit, Gains, Case, IsValue, Outer, Nest;
  }

  lemma PairCalls(c: Cfg, x: nat, s: seq<byte>)
    requires AreTypes([Int(4)] + [Str(None)]) && HaveTypes([Num(x), Txt(s)], [Int(4)] + [Str(None)])
    ensures Fields(c, [Int(4)] + [Str(None)], [Num(x), Txt(s)]) == Scalar(4, x, Text(s, Done))
  {
    var types, vs := [Int(4)] + [Str(None)], [Num(x), Txt(s)];
    FieldsHead(c, types, vs);
    assert types[0] == Int(4) && types[1..] == [Str(None)] && vs[1..] == [Txt(s)];
    FieldsOf1(c, Str(None), Txt(s));
    hide Fields;
    assert Field(c, Int(4), Num(x)) == Scalar(4, x, Done) && Field(c, Str(None), Txt(s)) == Text(s, Done);
    assert Append(Text(s, Done), Done) == Text(s, Done);
    assert Append(Scalar(4, x, Done), Text(s, Done)) == Scalar(4, x, Text(s, Done));
  }

  lemma PairSize(c: Cfg, x: nat, s: seq<byte>)
    requires |s| < 1000
    ensures var k := Scalar(4, x, Text(s, Done)); IdsFit(k) && |Layout(c, k, 8)| < 2000
  {
    var l := Text(s, Done);
    var k := Scalar(4, x, l);
    assert IdsFit(Done);
    assert IdsFit(l);
    assert IdsFit(k);
    hide IdsFit;
    LayoutUnfold(c, k, 8);
    LayoutOne(c, l, 8 + |Head(c, k, 8)|);
    hide Layout, Put, Zeros;
  }
}
