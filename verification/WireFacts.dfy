/**
  What stands where in the bytes of generated code, read off them word by word.
 */
module WireFacts {
  import opened Bytes
  import opened Scripts
  import opened WriterSteps
  import opened WireTypes
  import opened Messages
  import opened WireFormat

  // ------------------------------------------------------------------------------------ reading bytes

  /** Little-endian: the first byte is the lowest.  Big-endian: the last one is. */
  lemma ByteOrder(x: byte, b: seq<byte>)
    ensures Get([x] + b, true) == x + 256 * Get(b, true)
    ensures Get(b + [x], false) == x + 256 * Get(b, false)
    ensures Get([], true) == Get([], false) == 0
  {
    assert ([x] + b)[1..] == b;
    ReverseLast(b, x);
  }

  lemma ReverseLast(b: seq<byte>, x: byte)
    ensures Reverse(b + [x]) == [x] + Reverse(b)
  {
  }

  /** Bytes up to the next multiple of 4. */
  function ToFour(sp: nat): nat {
    if sp % 4 == 0 then 0 else 4 - sp % 4
  }

  predicate HasWord(b: seq<byte>, at: nat, n: nat, le: bool) {
    at + 4 <= |b| && Get(b[at..at + 4], le) == n
  }

  predicate HasHalf(b: seq<byte>, at: nat, n: nat, le: bool) {
    at + 2 <= |b| && Get(b[at..at + 2], le) == n
  }

  /** Behind the padding stands the number of all bytes behind it. */
  predicate Announces(b: seq<byte>, sp: nat, le: bool) {
    var p := ToFour(sp);
    p + 4 <= |b| && (forall i :: 0 <= i < p ==> b[i] == 0) && HasWord(b, p, |b| - p - 4, le)
  }

  lemma WordAt(a: seq<byte>, n: nat, b: seq<byte>, le: bool)
    requires n < 0x1_0000_0000
    ensures HasWord(a + Put(n, 4, le) + b, |a|, n, le)
  {
    var s := a + Put(n, 4, le) + b;
    assert s[|a|..|a| + 4] == Put(n, 4, le);
    PowValues();
    hide Put, Get, Pow256;
    GetPut(n, 4, le);
  }

  lemma HalfAt(a: seq<byte>, n: nat, b: seq<byte>, le: bool)
    requires n < 0x1_0000
    ensures HasHalf(a + Put(n, 2, le) + b, |a|, n, le)
  {
    var s := a + Put(n, 2, le) + b;
    assert s[|a|..|a| + 2] == Put(n, 2, le);
    PowValues();
    hide Put, Get, Pow256;
    GetPut(n, 2, le);
  }

  lemma GapLength(sp: nat)
    ensures |Gap4(sp)| == ToFour(sp) && forall i :: 0 <= i < ToFour(sp) ==> Gap4(sp)[i] == 0
  {
  }

  lemma BoxAnnounces(c: Cfg, sp: nat, b: seq<byte>)
    requires |b| < 0x1_0000_0000
    ensures Announces(Boxed(c, sp, b), sp, c.le) && Boxed(c, sp, b)[ToFour(sp) + 4..] == b
  {
    GapLength(sp);
    hide Gap4, ToFour, Put, Get;
    WordAt(Gap4(sp), |b|, b, c.le);
    var s := Boxed(c, sp, b);
    assert forall i :: 0 <= i < |Gap4(sp)| ==> s[i] == Gap4(sp)[i];
  }

  // ------------------------------------------------------------------------------ sequences and arrays

  /** The bytes a number takes. */
  function BytesOf(e: Type): nat
    requires IsPrimitive(e)
  {
    match e
    case Bool => 1
    case Int(w) => w
    case Quad => 16
  }

  /** The padding in front of a number. */
  function PaddingOf(c: Cfg, e: Type, sp: nat): nat
    requires IsPrimitive(e)
  {
    match e
    case Bool => 0
    case Int(w) => if w == 1 then 0 else if w == 2 then sp % 2 else if w == 8 && !c.xcdr2 then (if sp % 8 == 0 then 0 else 8 - sp % 8) else ToFour(sp)
    case Quad => if !c.xcdr2 then (if sp % 8 == 0 then 0 else 8 - sp % 8) else ToFour(sp)
  }

  /** A collection of composite elements, in XCDR2: the length of all that follows, and for a sequence then its count. */
  lemma CompositesOnWire(c: Cfg, t: Type, v: Value, sp: nat)
    requires c.xcdr2 && IsType(t) && HasType(v, t) && (t.Seq? || t.Arr?)
    requires t.elem.Str? || t.elem.Enum? || t.elem.Struct? || t.elem.Seq? || t.elem.Arr?
    requires |Layout(c, Field(c, t, v), sp)| < 0x1_0000_0000
    ensures var b := Layout(c, Field(c, t, v), sp);
            Announces(b, sp, c.le) && (t.Seq? ==> HasWord(b, ToFour(sp) + 4, |v.vs|, c.le))
  {
    LayoutIsWire(c, t, v, sp);
    hide Layout, Field, Row, Put, Get, Gap4, HasType, Announces, Counted;
    var q := BehindWord(sp);
    if t.Seq? {
      var b := Counted(c, t.elem, v.vs, q);
      BoxAnnounces(c, sp, b);
      CountFirst(c, t.elem, v.vs, sp);
    } else {
      BoxAnnounces(c, sp, Row(c, t.elem, v.vs, q));
    }
  }

  lemma CountedIs4(c: Cfg, e: Type, vs: seq<Value>, sp: nat)
    requires IsType(e) && AllHaveType(vs, e)
    ensures Counted(c, e, vs, sp) == Gap4(sp) + Put(|vs|, 4, c.le) + Row(c, e, vs, BehindWord(sp))
  {
    hide Row, Gap4, Put, BehindWord, HasType, IsType;
  }

  lemma BoxedIs4(c: Cfg, sp: nat, b: seq<byte>)
    ensures Boxed(c, sp, b) == Gap4(sp) + Put(|b|, 4, c.le) + b
    ensures BehindWord(sp) == sp + |Gap4(sp)| + 4
  {
    hide Gap4, Put;
  }

  lemma CountFirst(c: Cfg, e: Type, vs: seq<Value>, sp: nat)
    requires IsType(e) && AllHaveType(vs, e) && |vs| < 0x1_0000_0000
    ensures HasWord(Boxed(c, sp, Counted(c, e, vs, BehindWord(sp))), ToFour(sp) + 4, |vs|, c.le)
    ensures HasWord(Counted(c, e, vs, sp), ToFour(sp), |vs|, c.le)
  {
    hide *;
    GapLength(sp);
    GapLength(BehindWord(sp));
    AfterWord(sp);
    CountedIs4(c, e, vs, sp);
    CountedIs4(c, e, vs, BehindWord(sp));
    WordAt(Gap4(sp), |vs|, Row(c, e, vs, BehindWord(sp)), c.le);
    var b := Counted(c, e, vs, BehindWord(sp));
    BoxedIs4(c, sp, b);
    NoGap(Put(|vs|, 4, c.le));
    var k, n, row := Put(|b|, 4, c.le), Put(|vs|, 4, c.le), Row(c, e, vs, BehindWord(BehindWord(sp)));
    assert Gap4(BehindWord(sp)) == [] && [] + n == n;
    Assoc(Gap4(sp) + k, n, row);
    WordAt(Gap4(sp) + k, |vs|, row, c.le);
  }

  lemma AfterWord(sp: nat)
    ensures ToFour(BehindWord(sp)) == 0
  {
    GapLength(sp);
    hide Gap4;
  }

  lemma SeqOfNumbers(c: Cfg, e: Type, v: Value, sp: nat)
    requires (e.Bool? || e.Int? || e.Quad?) && IsType(Seq(e)) && HasType(v, Seq(e))
    ensures IsType(e) && v.List? && |v.vs| < 0x1_0000_0000 && AllHaveType(v.vs, e) && IsPrimitive(e)
    ensures Layout(c, Field(c, Seq(e), v), sp) == Counted(c, e, v.vs, sp)
  {
    LayoutIsWire(c, Seq(e), v, sp);
    hide Layout, Field, Counted;
  }

  lemma Tail4(a: seq<byte>, b: seq<byte>, rest: seq<byte>)
    requires |b| == 4
    ensures (a + b + rest)[|a| + 4..] == rest
  {
  }

  /** A sequence of numbers: the count, and the numbers one after the other. */
  lemma NumberSeqOnWire(c: Cfg, e: Type, v: Value, sp: nat)
    requires (e.Bool? || e.Int? || e.Quad?) && IsType(Seq(e)) && HasType(v, Seq(e))
    ensures var b := Layout(c, Field(c, Seq(e), v), sp);
            var p := ToFour(sp);
            && HasWord(b, p, |v.vs|, c.le)
            && |b| == p + 4 + NumbersSpan(c, e, v.vs, sp + p + 4)
            && NumbersAt(c, e, v.vs, b[p + 4..], sp + p + 4)
  {
    hide *;
    var p := ToFour(sp);
    GapLength(sp);
    SeqOfNumbers(c, e, v, sp);
    CountFirst(c, e, v.vs, sp);
    CountedIs4(c, e, v.vs, sp);
    BoxedIs4(c, sp, []);
    var row := Row(c, e, v.vs, sp + p + 4);
    Tail4(Gap4(sp), Put(|v.vs|, 4, c.le), row);
    NumbersOnWire(c, e, v.vs, sp + p + 4);
  }

  /** An array of numbers: nothing but the numbers. */
  lemma NumberArrOnWire(c: Cfg, e: Type, n: nat, v: Value, sp: nat)
    requires (e.Bool? || e.Int? || e.Quad?) && IsType(Arr(e, n)) && HasType(v, Arr(e, n))
    ensures var b := Layout(c, Field(c, Arr(e, n), v), sp);
            |b| == NumbersSpan(c, e, v.vs, sp) && NumbersAt(c, e, v.vs, b, sp)
  {
    LayoutIsWire(c, Arr(e, n), v, sp);
    hide Layout, Field, Row, NumbersAt, NumbersSpan;
    NumbersOnWire(c, e, v.vs, sp);
  }

  function NumbersSpan(c: Cfg, e: Type, vs: seq<Value>, sp: nat): nat
    requires IsPrimitive(e)
  {
    if vs == [] then 0 else PaddingOf(c, e, sp) + |vs| * BytesOf(e)
  }

  predicate NumberAt(c: Cfg, e: Type, vs: seq<Value>, b: seq<byte>, sp: nat, i: nat)
    requires IsPrimitive(e) && i < |vs|
  {
    var at := PaddingOf(c, e, sp) + i * BytesOf(e);
    vs[i].Num? && at + BytesOf(e) <= |b| && Get(b[at..at + BytesOf(e)], c.le) == vs[i].n
  }

  predicate NumbersAt(c: Cfg, e: Type, vs: seq<Value>, b: seq<byte>, sp: nat)
    requires IsPrimitive(e)
  {
    forall i :: 0 <= i < |vs| ==> NumberAt(c, e, vs, b, sp, i)
  }

  lemma WireOfPrimitive(c: Cfg, e: Type, v: Value, sp: nat)
    requires IsPrimitive(e) && IsType(e) && HasType(v, e)
    ensures v.Num? && v.n < Pow256(BytesOf(e))
    ensures Wire(c, e, v, sp) == Zeros(PaddingOf(c, e, sp)) + Put(v.n, BytesOf(e), c.le)
  {
    PowValues();
    GapLength(sp);
    hide Pow256, Put, Zeros;
    NoGap(Put(v.n, BytesOf(e), c.le));
  }

  lemma PaddingIs(c: Cfg, e: Type, sp: nat)
    requires IsPrimitive(e) && IsType(e)
    ensures PaddingOf(c, e, sp) == Pad(c, sp, AlignOf(BytesOf(e)))
    ensures BytesOf(e) == 1 || BytesOf(e) == 2 || BytesOf(e) == 4 || BytesOf(e) == 8 || BytesOf(e) == 16
  {
  }

  lemma AlignsAsEight(w: nat)
    requires w == 8 || w == 16
    ensures AlignOf(w) == 8
  {
  }

  lemma AlignsAsItself(w: nat)
    requires w != 16
    ensures AlignOf(w) == w
  {
  }

  lemma NextAligned(c: Cfg, e: Type, sp: nat)
    requires IsPrimitive(e) && IsType(e)
    ensures PaddingOf(c, e, sp + PaddingOf(c, e, sp) + BytesOf(e)) == 0
  {
    hide *;
    var w := BytesOf(e);
    PaddingIs(c, e, sp);
    var p := sp + PaddingOf(c, e, sp) + w;
    PaddingIs(c, e, p);
    if w == 16 {
      AlignsAsEight(w);
      AlignedAfter(c, sp, 8);
      CongruentShift8(c, p - 8);
      CongruentPad(c, p - 8, p, 8);
      AlignsAsEight(8);
    } else {
      AlignsAsItself(w);
      AlignedAfter(c, sp, w);
    }
  }

  lemma NumbersOnWire(c: Cfg, e: Type, vs: seq<Value>, sp: nat)
    requires IsPrimitive(e) && IsType(e) && AllHaveType(vs, e)
    ensures |Row(c, e, vs, sp)| == NumbersSpan(c, e, vs, sp)
    ensures NumbersAt(c, e, vs, Row(c, e, vs, sp), sp)
  {
    hide Row, NumberAt, NumbersSpan, IsPrimitive, IsType, HasType;
    NumbersLength(c, e, vs, sp);
    forall i | 0 <= i < |vs| ensures NumberAt(c, e, vs, Row(c, e, vs, sp), sp, i) {
      OneNumber(c, e, vs, sp, i);
    }
  }

  lemma {:induction false} NumbersLength(c: Cfg, e: Type, vs: seq<Value>, sp: nat)
    requires IsPrimitive(e) && IsType(e) && AllHaveType(vs, e)
    ensures |Row(c, e, vs, sp)| == NumbersSpan(c, e, vs, sp)
    decreases |vs|
  {
    hide Wire, PaddingOf, BytesOf, HasType, IsType, IsPrimitive, Put;
    if vs != [] {
      RowHead(c, e, vs, sp);
      WireOfPrimitive(c, e, vs[0], sp);
      NextAligned(c, e, sp);
      var p := sp + PaddingOf(c, e, sp) + BytesOf(e);
      NumbersLength(c, e, vs[1..], p);
      OneMore(|vs|, BytesOf(e));
    }
  }

  lemma OneMore(n: nat, w: nat)
    requires n > 0
    ensures n * w == w + (n - 1) * w
  {
  }

  lemma {:induction false} OneNumber(c: Cfg, e: Type, vs: seq<Value>, sp: nat, i: nat)
    requires IsPrimitive(e) && IsType(e) && AllHaveType(vs, e) && i < |vs|
    ensures NumberAt(c, e, vs, Row(c, e, vs, sp), sp, i)
    decreases i
  {
    hide *;
    RowHead(c, e, vs, sp);
    WireOfPrimitive(c, e, vs[0], sp);
    var g, w := PaddingOf(c, e, sp), BytesOf(e);
    var p := sp + g + w;
    var z, d, rest := Zeros(g), Put(vs[0].n, w, c.le), Row(c, e, vs[1..], p);
    if i == 0 {
      Middle(z, d, rest);
      GetPut(vs[0].n, w, c.le);
      IsNumberAt(c, e, vs, Row(c, e, vs, sp), sp, i, g);
    } else {
      NextAligned(c, e, sp);
      OneNumber(c, e, vs[1..], p, i - 1);
      NumberAtMeans(c, e, vs[1..], rest, p, i - 1);
      OneMore(i, w);
      Deeper(z + d, rest, (i - 1) * w, w);
      IsNumberAt(c, e, vs, Row(c, e, vs, sp), sp, i, g + i * w);
    }
  }

  lemma Middle(a: seq<byte>, b: seq<byte>, d: seq<byte>)
    ensures (a + b + d)[|a|..|a| + |b|] == b
  {
  }

  lemma IsNumberAt(c: Cfg, e: Type, vs: seq<Value>, b: seq<byte>, sp: nat, i: nat, at: nat)
    requires IsPrimitive(e) && i < |vs| && vs[i].Num? && at == PaddingOf(c, e, sp) + i * BytesOf(e) && at + BytesOf(e) <= |b|
    requires Get(b[at..at + BytesOf(e)], c.le) == vs[i].n
    ensures NumberAt(c, e, vs, b, sp, i)
  {
    hide Get, PaddingOf, BytesOf;
  }

  lemma NumberAtMeans(c: Cfg, e: Type, vs: seq<Value>, b: seq<byte>, sp: nat, i: nat)
    requires IsPrimitive(e) && i < |vs| && NumberAt(c, e, vs, b, sp, i)
    ensures var at := PaddingOf(c, e, sp) + i * BytesOf(e);
            vs[i].Num? && at + BytesOf(e) <= |b| && Get(b[at..at + BytesOf(e)], c.le) == vs[i].n
  {
    hide Get, PaddingOf, BytesOf;
  }

  lemma Deeper(a: seq<byte>, b: seq<byte>, at: nat, w: nat)
    requires at + w <= |b|
    ensures (a + b)[|a| + at..|a| + at + w] == b[at..at + w]
  {
  }

  // ------------------------------------------------------------------------------------------ structs

  lemma StructOf(t: Type, v: Value)
    requires t.Struct? && HasType(v, t)
    ensures v.List? && v == List(v.vs)
  {
  }

  lemma VariesMeans(t: Type)
    ensures Varies(t) <==> exists u :: Contains(t, u) && (u.Str? || u.Seq?)
  {
    hide Contains;
  }

  lemma FinalWire(c: Cfg, t: Type, v: Value, sp: nat)
    requires t.Struct? && t.ext == Final && IsType(t) && HasType(v, t) && v.List? && AreTypes(t.types) && HaveTypes(v.vs, t.types)
    ensures Layout(c, Field(c, t, v), sp) ==
            if c.xcdr2 && Varies(t) then Boxed(c, sp, Members(c, t.types, v.vs, BehindWord(sp)))
            else Members(c, t.types, v.vs, sp)
  {
    LayoutIsWire(c, t, v, sp);
    hide Layout, Field, Members, Varies, Boxed, BehindWord, HasType, IsType;
  }

  lemma AppendableWire(c: Cfg, t: Type, v: Value, sp: nat)
    requires t.Struct? && t.ext == Appendable && IsType(t) && HasType(v, t) && v.List? && AreTypes(t.types) && HaveTypes(v.vs, t.types)
    ensures Layout(c, Field(c, t, v), sp) ==
            if c.xcdr2 then Boxed(c, sp, Members(c, t.types, v.vs, BehindWord(sp)))
            else Members(c, t.types, v.vs, sp)
  {
    LayoutIsWire(c, t, v, sp);
    hide Layout, Field, Members, Varies, Boxed, BehindWord, HasType, IsType;
  }

  /** A final struct, in XCDR2: announced by its length if there is a string or a sequence in it, and bare if not. */
  lemma FinalOnWire(c: Cfg, t: Type, v: Value, sp: nat)
    requires c.xcdr2 && t.Struct? && t.ext == Final && IsType(t) && HasType(v, t) && |Layout(c, Field(c, t, v), sp)| < 0x1_0000_0000
    ensures AreTypes(t.types) && HaveTypes(v.vs, t.types)
    ensures var b := Layout(c, Field(c, t, v), sp);
            if exists u :: Contains(t, u) && (u.Str? || u.Seq?)
            then Announces(b, sp, c.le) && b[ToFour(sp) + 4..] == Members(c, t.types, v.vs, sp + ToFour(sp) + 4)
            else b == Members(c, t.types, v.vs, sp)
  {
    hide *;
    StructOf(t, v);
    StructParts(t, v.vs);
    GapLength(sp);
    BoxedIs4(c, sp, []);
    FinalWire(c, t, v, sp);
    if Varies(t) {
      var m := Members(c, t.types, v.vs, BehindWord(sp));
      BoxedIs4(c, sp, m);
      BoxAnnounces(c, sp, m);
    }
    VariesMeans(t);
  }

  /** An appendable struct: announced by its length in XCDR2, bare in XCDR1. */
  lemma AppendableOnWire(c: Cfg, t: Type, v: Value, sp: nat)
    requires t.Struct? && t.ext == Appendable && IsType(t) && HasType(v, t) && |Layout(c, Field(c, t, v), sp)| < 0x1_0000_0000
    ensures AreTypes(t.types) && HaveTypes(v.vs, t.types)
    ensures var b := Layout(c, Field(c, t, v), sp);
            if c.xcdr2
            then Announces(b, sp, c.le) && b[ToFour(sp) + 4..] == Members(c, t.types, v.vs, sp + ToFour(sp) + 4)
            else b == Members(c, t.types, v.vs, sp)
  {
    hide *;
    StructOf(t, v);
    StructParts(t, v.vs);
    GapLength(sp);
    BoxedIs4(c, sp, []);
    AppendableWire(c, t, v, sp);
    if c.xcdr2 {
      var m := Members(c, t.types, v.vs, BehindWord(sp));
      BoxedIs4(c, sp, m);
      BoxAnnounces(c, sp, m);
    }
  }

  /** In XCDR1 nothing is announced: a sequence starts with its count, and a final struct is its members. */
  lemma Xcdr1OnWire(c: Cfg, t: Type, v: Value, sp: nat)
    requires !c.xcdr2 && IsType(t) && HasType(v, t)
    ensures var b := Layout(c, Field(c, t, v), sp);
            && (t.Seq? ==> HasWord(b, ToFour(sp), |v.vs|, c.le))
            && (t.Arr? ==> AllHaveType(v.vs, t.elem) && b == Row(c, t.elem, v.vs, sp))
            && (t.Struct? && t.ext == Final ==>
                  AreTypes(t.types) && HaveTypes(v.vs, t.types) && b == Members(c, t.types, v.vs, sp))
  {
    LayoutIsWire(c, t, v, sp);
    hide Layout, Field, Members, Row, Put, Get, Gap4, ToFour, HasWord;
    if t.Seq? {
      CountFirst(c, t.elem, v.vs, sp);
    } else if t.Struct? {
      StructParts(t, v.vs);
    }
  }

  // --------------------------------------------------------------------------------- parameter headers

  /** The header of a parameter, bit by bit. */
  lemma ParamOnWire(c: Cfg, id: nat, mu: bool, body: Calls, rest: Calls, sp: nat)
    requires id < 0x1_0000_0000 && |Layout(c, body, sp + ToFour(sp) + 4)| < 0x1_0000_0000
    ensures var b, p := Layout(c, Param(id, mu, body, rest), sp), ToFour(sp);
            var content := Layout(c, body, sp + p + 4);
            var short := id <= 0x3F00 && |content| <= 0xFFFF;
            && p + 4 <= |b|
            && Get(b[p..p + 2], c.le) / 0x4000 == (if mu then 1 else 0)
            && Get(b[p..p + 2], c.le) % 0x4000 == (if short then id else 0x3F01)
            && HasHalf(b, p + 2, if short then |content| else 8, c.le)
            && (!short ==> HasWord(b, p + 4, id, c.le) && HasWord(b, p + 8, |content|, c.le))
            && var start := p + if short then 4 else 12;
               start + |content| <= |b| && b[start..start + |content|] == content
  {
    hide *;
    var p := ToFour(sp);
    var content := Layout(c, body, sp + p + 4);
    ParamParts(c, id, mu, body, rest, sp);
    var b := Layout(c, Param(id, mu, body, rest), sp);
    Within(Gap4(sp), Parameter(c, id, mu, content, content), b);
    if id <= 0x3F00 && |content| <= 0xFFFF {
      ShortHeader(c, id, mu, content, b, p);
    } else {
      LongHeader(c, id, mu, content, b, p);
    }
  }

  lemma Within(a: seq<byte>, m: seq<byte>, b: seq<byte>)
    requires a + m <= b
    ensures |a| + |m| <= |b| && b[|a|..|a| + |m|] == m
  {
    assert b[..|a| + |m|] == a + m;
  }

  lemma ParamParts(c: Cfg, id: nat, mu: bool, body: Calls, rest: Calls, sp: nat)
    ensures var b, p := Layout(c, Param(id, mu, body, rest), sp), ToFour(sp);
            var content := Layout(c, body, sp + p + 4);
            Gap4(sp) + Parameter(c, id, mu, content, content) <= b && |Gap4(sp)| == p
  {
    var k := Param(id, mu, body, rest);
    GapLength(sp);
    GapIs(c, sp);
    CongruentShift8(c, sp + ToFour(sp) + 4);
    Translate(c, body, sp + ToFour(sp) + 4, sp + ToFour(sp) + 12);
    LayoutUnfold(c, k, sp);
    var content := Layout(c, body, sp + ToFour(sp) + 4);
    ParameterIs(c, id, mu, content, content, Pad(c, sp, 4));
    hide Layout, Gap4, ToFour, Pad, Put, Parameter, ParamBytes, Zeros;
  }

  /** A flag and an id in one 16-bit number. */
  lemma FlagAndId(n: nat, mu: bool, id: nat)
    requires n == (if mu then 0x4000 else 0) + id && id < 0x4000
    ensures n / 0x4000 == (if mu then 1 else 0) && n % 0x4000 == id && n < 0x1_0000
  {
  }

  lemma HalfIs(b: seq<byte>, at: nat, n: nat, le: bool)
    requires n < 0x1_0000 && at + 2 <= |b| && b[at..at + 2] == Put(n, 2, le)
    ensures HasHalf(b, at, n, le)
  {
    PowValues();
    hide Put, Get, Pow256;
    GetPut(n, 2, le);
  }

  lemma WordIs(b: seq<byte>, at: nat, n: nat, le: bool)
    requires n < 0x1_0000_0000 && at + 4 <= |b| && b[at..at + 4] == Put(n, 4, le)
    ensures HasWord(b, at, n, le)
  {
    PowValues();
    hide Put, Get, Pow256;
    GetPut(n, 4, le);
  }

  lemma ShortHeader(c: Cfg, id: nat, mu: bool, content: seq<byte>, b: seq<byte>, p: nat)
    requires id <= 0x3F00 && |content| <= 0xFFFF && p + |Parameter(c, id, mu, content, content)| <= |b|
    requires b[p..p + |Parameter(c, id, mu, content, content)|] == Parameter(c, id, mu, content, content)
    ensures p + 4 + |content| <= |b|
    ensures Get(b[p..p + 2], c.le) / 0x4000 == (if mu then 1 else 0) && Get(b[p..p + 2], c.le) % 0x4000 == id
    ensures HasHalf(b, p + 2, |content|, c.le) && b[p + 4..p + 4 + |content|] == content
  {
    var n := (if mu then 0x4000 else 0) + id;
    var m := Parameter(c, id, mu, content, content);
    FlagAndId(n, mu, id);
    hide Put, Get;
    var f, l := Put(n, 2, c.le), Put(|content|, 2, c.le);
    assert m == f + l + content;
    hide Parameter;
    Slice(b, p, m, 0, 2);
    Slice(b, p, m, 2, 2);
    Slice(b, p, m, 4, |content|);
    assert m[0..2] == f && m[2..4] == l && m[4..4 + |content|] == content;
    HalfIs(b, p, n, c.le);
    HalfIs(b, p + 2, |content|, c.le);
  }

  lemma Slice(b: seq<byte>, p: nat, m: seq<byte>, i: nat, w: nat)
    requires p + |m| <= |b| && b[p..p + |m|] == m && i + w <= |m|
    ensures b[p + i..p + i + w] == m[i..i + w]
  {
    var x, y := b[p + i..p + i + w], m[i..i + w];
    forall k | 0 <= k < w ensures x[k] == y[k] {
      assert y[k] == m[i + k] == b[p..p + |m|][i + k] == b[p + (i + k)];
    }
  }

  lemma HalfMeans(b: seq<byte>, at: nat, n: nat, le: bool)
    requires HasHalf(b, at, n, le)
    ensures at + 2 <= |b| && Get(b[at..at + 2], le) == n
  {
  }

  lemma LongIs(c: Cfg, id: nat, mu: bool, content: seq<byte>)
    requires !(id <= 0x3F00 && |content| <= 0xFFFF)
    ensures Parameter(c, id, mu, content, content) ==
            Put((if mu then 0x4000 else 0) + 0x3F01, 2, c.le) + Put(8, 2, c.le) + Put(id, 4, c.le) + Put(|content|, 4, c.le) + content
  {
    hide Put;
  }

  lemma LongHeader(c: Cfg, id: nat, mu: bool, content: seq<byte>, b: seq<byte>, p: nat)
    requires !(id <= 0x3F00 && |content| <= 0xFFFF) && id < 0x1_0000_0000 && |content| < 0x1_0000_0000
    requires p + |Parameter(c, id, mu, content, content)| <= |b|
    requires b[p..p + |Parameter(c, id, mu, content, content)|] == Parameter(c, id, mu, content, content)
    ensures p + 12 + |content| <= |b|
    ensures Get(b[p..p + 2], c.le) / 0x4000 == (if mu then 1 else 0) && Get(b[p..p + 2], c.le) % 0x4000 == 0x3F01
    ensures HasHalf(b, p + 2, 8, c.le) && HasWord(b, p + 4, id, c.le) && HasWord(b, p + 8, |content|, c.le)
    ensures b[p + 12..p + 12 + |content|] == content
  {
    hide *;
    var n := (if mu then 0x4000 else 0) + 0x3F01;
    var m := Parameter(c, id, mu, content, content);
    FlagAndId(n, mu, 0x3F01);
    var f, e, i, l := Put(n, 2, c.le), Put(8, 2, c.le), Put(id, 4, c.le), Put(|content|, 4, c.le);
    LongIs(c, id, mu, content);
    FiveParts(f, e, i, l, content);
    Slice(b, p, m, 0, 2);
    Slice(b, p, m, 2, 2);
    Slice(b, p, m, 4, 4);
    Slice(b, p, m, 8, 4);
    Slice(b, p, m, 12, |content|);
    HalfIs(b, p, n, c.le);
    HalfMeans(b, p, n, c.le);
    HalfIs(b, p + 2, 8, c.le);
    WordIs(b, p + 4, id, c.le);
    WordIs(b, p + 8, |content|, c.le);
  }

  lemma FiveParts(f: seq<byte>, e: seq<byte>, i: seq<byte>, l: seq<byte>, rest: seq<byte>)
    requires |f| == |e| == 2 && |i| == |l| == 4
    ensures var m := f + e + i + l + rest;
            m[0..2] == f && m[2..4] == e && m[4..8] == i && m[8..12] == l && m[12..12 + |rest|] == rest
  {
  }

  /** A parameter list ends in the words 0x3F02 and 0. */
  lemma {:induction false} ListEnds(c: Cfg, tags: seq<Tag>, types: seq<Type>, vs: seq<Value>, sp: nat)
    requires !c.xcdr2 && |tags| == |types| && AreTypes(types) && HaveTypes(vs, types)
    ensures var b := Layout(c, Tagged(c, tags, types, vs), sp);
            |b| >= 4 && HasHalf(b, |b| - 4, 0x3F02, c.le) && HasHalf(b, |b| - 2, 0, c.le)
  {
    hide *;
    ParametersAre(c, tags, types, vs, sp);
    ParametersEnd(c, tags, types, vs, sp);
  }

  lemma {:induction false} ParametersEnd(c: Cfg, tags: seq<Tag>, types: seq<Type>, vs: seq<Value>, sp: nat)
    requires |tags| == |types| && AreTypes(types) && HaveTypes(vs, types)
    ensures var b := Parameters(c, tags, types, vs, sp);
            |b| >= 4 && HasHalf(b, |b| - 4, 0x3F02, c.le) && HasHalf(b, |b| - 2, 0, c.le)
    decreases |types|
  {
    hide *;
    AsMany(vs, types);
    if types == [] {
      OnlySentinel(c, sp);
      var a, x, y := Gap4(sp), Put(0x3F02, 2, c.le), Put(0, 2, c.le);
      HalfAt(a, 0x3F02, y, c.le);
      HalfAt(a + x, 0, [], c.le);
      assert a + x + y + [] == a + x + y;
    } else {
      TypesTail(tags, types, vs);
      ParametersHead(c, tags, types, vs, sp);
      var m := ParameterOne(c, tags[0], types[0], vs[0], sp);
      var rest := Parameters(c, tags[1..], types[1..], vs[1..], sp + |m|);
      ParametersEnd(c, tags[1..], types[1..], vs[1..], sp + |m|);
      Further(m, rest, |rest| - 4, 0x3F02, c.le);
      Further(m, rest, |rest| - 2, 0, c.le);
    }
  }

  lemma OnlySentinel(c: Cfg, sp: nat)
    requires AreTypes([]) && HaveTypes([], [])
    ensures Parameters(c, [], [], [], sp) == Gap4(sp) + Put(0x3F02, 2, c.le) + Put(0, 2, c.le)
  {
    hide Gap4, Put;
  }

  lemma Further(a: seq<byte>, b: seq<byte>, at: nat, n: nat, le: bool)
    requires HasHalf(b, at, n, le)
    ensures HasHalf(a + b, |a| + at, n, le)
  {
    assert (a + b)[|a| + at..|a| + at + 2] == b[at..at + 2];
  }

  // ------------------------------------------------------------------------------------------ EMHEADER

  /** The word of a back-patched EMHEADER, bit by bit, and the length behind it. */
  lemma FramedOnWire(c: Cfg, id: nat, mu: bool, body: Calls, rest: Calls, sp: nat)
    requires id < 0x1000_0000 && |Layout(c, body, sp + ToFour(sp) + 8)| < 0x1_0000_0000
    ensures var b, p := Layout(c, Framed(id, mu, body, rest), sp), ToFour(sp);
            var content := Layout(c, body, sp + p + 8);
            && p + 8 + |content| <= |b| && IsMark(Get(b[p..p + 4], c.le), id, mu, 4)
            && HasWord(b, p + 4, |content|, c.le) && b[p + 8..p + 8 + |content|] == content
  {
    var k := Framed(id, mu, body, rest);
    GapLength(sp);
    GapIs(c, sp);
    LayoutUnfold(c, k, sp);
    MarkIs(id, mu, 4);
    MarkBits(id, mu, 4);
    hide Layout, Gap4, ToFour, Pad, Put, Get, EmWord, Mark, Zeros, IsMark;
    var content, n := Layout(c, body, sp + ToFour(sp) + 8), Mark(id, mu, 4);
    var l, tail := Put(|content|, 4, c.le), Layout(c, rest, sp + |Head(c, k, sp)|);
    FourParts(Gap4(sp), Put(n, 4, c.le), l, content, tail);
    assert Layout(c, k, sp) == Gap4(sp) + Put(n, 4, c.le) + l + content + tail;
    WordIs(Layout(c, k, sp), ToFour(sp), n, c.le);
    WordIs(Layout(c, k, sp), ToFour(sp) + 4, |content|, c.le);
  }

  lemma FourParts(a: seq<byte>, x: seq<byte>, y: seq<byte>, z: seq<byte>, tail: seq<byte>)
    requires |x| == |y| == 4
    ensures var m := a + x + y + z + tail;
            m[|a|..|a| + 4] == x && m[|a| + 4..|a| + 8] == y && m[|a| + 8..|a| + 8 + |z|] == z
  {
  }

  predicate IsMark(n: nat, id: nat, mu: bool, lc: nat) {
    n / 0x8000_0000 == (if mu then 1 else 0) && n / 0x1000_0000 % 8 == lc && n % 0x1000_0000 == id
  }

  lemma MarkBits(id: nat, mu: bool, lc: nat)
    requires id < 0x1000_0000 && lc < 8
    ensures IsMark(Mark(id, mu, lc), id, mu, lc) && Mark(id, mu, lc) < 0x1_0000_0000
  {
    var n := Mark(id, mu, lc);
    var top := (if mu then 8 else 0) + lc;
    assert n == 0x1000_0000 * top + id;
    assert n / 0x1000_0000 == top && n % 0x1000_0000 == id;
  }

  function Code(len: nat): nat {
    match len
    case 1 => 0
    case 2 => 1
    case 4 => 2
    case 8 => 3
    case _ => 4
  }

  lemma CodeBound(len: nat)
    ensures Code(len) < 8 && Code(len) == LengthCode(len)
  {
  }

  lemma WordMeans(b: seq<byte>, at: nat, n: nat, le: bool)
    requires HasWord(b, at, n, le)
    ensures at + 4 <= |b| && Get(b[at..at + 4], le) == n
  {
  }

  lemma EmheaderParts(c: Cfg, k: Calls, sp: nat)
    requires k.Emheader?
    ensures var lc := Code(k.len);
            Head(c, k, sp) == Gap4(sp) + Put(Mark(k.id, k.mu, lc), 4, c.le) + (if lc == 4 then Put(k.len, 4, c.le) else [])
  {
    GapIs(c, sp);
    CodeBound(k.len);
    MarkIs(k.id, k.mu, Code(k.len));
    hide Pad, Put, Zeros, Gap4, EmWord, Mark, LengthCode, Code;
  }

  /** A compact EMHEADER: lengths 1, 2, 4 and 8 have the codes 0 to 3, any other one follows as a word behind code 4. */
  lemma EmheaderOnWire(c: Cfg, id: nat, len: nat, mu: bool, rest: Calls, sp: nat)
    requires id < 0x1000_0000 && len < 0x1_0000_0000
    ensures var b, p := Layout(c, Emheader(id, len, mu, rest), sp), ToFour(sp);
            && p + 4 <= |b|
            && IsMark(Get(b[p..p + 4], c.le), id, mu, Code(len))
            && (Code(len) == 4 ==> HasWord(b, p + 4, len, c.le))
  {
    hide *;
    var k := Emheader(id, len, mu, rest);
    var lc := Code(len);
    GapLength(sp);
    LayoutUnfold(c, k, sp);
    EmheaderParts(c, k, sp);
    CodeBound(len);
    MarkBits(id, mu, lc);
    var n, tail := Mark(id, mu, lc), Layout(c, rest, sp + |Head(c, k, sp)|);
    var l := if lc == 4 then Put(len, 4, c.le) else [];
    Assoc(Gap4(sp) + Put(n, 4, c.le), l, tail);
    WordAt(Gap4(sp), n, l + tail, c.le);
    WordMeans(Layout(c, k, sp), ToFour(sp), n, c.le);
    if lc == 4 {
      WordAt(Gap4(sp) + Put(n, 4, c.le), len, tail, c.le);
    }
  }

  // ----------------------------------------------------------------------------------- whole messages

  /** The encapsulation header, in all twelve cases. */
  lemma HeaderTable(c: Cfg, t: Type, v: Value)
    requires t.Struct? && IsType(t) && HasType(v, t)
    ensures var m := Message(c, t, v);
            && |m| >= 4
            && (!c.xcdr2 && !c.le && t.ext == Final ==> m[..4] == [0, 0, 0, 0])
            && (!c.xcdr2 && c.le && t.ext == Final ==> m[..4] == [0, 1, 0, 0])
            && (!c.xcdr2 && !c.le && t.ext == Appendable ==> m[..4] == [0, 0, 0, 0])
            && (!c.xcdr2 && c.le && t.ext == Appendable ==> m[..4] == [0, 1, 0, 0])
            && (!c.xcdr2 && !c.le && t.ext == Mutable ==> m[..4] == [0, 2, 0, 0])
            && (!c.xcdr2 && c.le && t.ext == Mutable ==> m[..4] == [0, 3, 0, 0])
            && (c.xcdr2 && !c.le && t.ext == Final ==> m[..4] == [0, 6, 0, 0])
            && (c.xcdr2 && c.le && t.ext == Final ==> m[..4] == [0, 7, 0, 0])
            && (c.xcdr2 && !c.le && t.ext == Appendable ==> m[..4] == [0, 8, 0, 0])
            && (c.xcdr2 && c.le && t.ext == Appendable ==> m[..4] == [0, 9, 0, 0])
            && (c.xcdr2 && !c.le && t.ext == Mutable ==> m[..4] == [0, 10, 0, 0])
            && (c.xcdr2 && c.le && t.ext == Mutable ==> m[..4] == [0, 11, 0, 0])
  {
    var id := EncapId(c, t.ext);
    SmallHalf(id);
    hide Put, Layout, Plain, IsType, HasType;
    assert Message(c, t, v)[..4] == Put(id, 2, false) + [0, 0];
  }

  lemma SmallHalf(n: nat)
    requires n < 0x100
    ensures Put(n, 2, false) == [0, n]
  {
    assert LeBytes(n, 2) == [n] + LeBytes(0, 1) == [n, 0];
  }

  /** And back: the second byte tells byte order, version and, in XCDR2, the extensibility. */
  lemma HeaderTells(c: Cfg, t: Type, v: Value)
    requires t.Struct? && IsType(t) && HasType(v, t)
    ensures var m := Message(c, t, v);
            && |m| >= 4
            && (c.le <==> m[1] % 2 == 1) && (c.xcdr2 <==> m[1] >= 6)
            && (m[1] in {2, 3, 10, 11} <==> t.ext == Mutable)
            && (m[1] in {6, 7} <==> c.xcdr2 && t.ext == Final)
            && (m[1] in {8, 9} <==> c.xcdr2 && t.ext == Appendable)
  {
    HeaderTable(c, t, v);
    hide Message;
    var m := Message(c, t, v);
    assert m[1] == m[..4][1];
  }

  /** A message is its header and the struct, which at the top level has no DHEADER of its own as a member would. */
  lemma MessageIsWire(c: Cfg, t: Type, v: Value)
    requires t.Struct? && IsType(t) && HasType(v, t)
    ensures v.List? && HasType(List(v.vs), t) && |Message(c, t, v)| >= 4 && Message(c, t, v)[4..] == Body(c, t, v.vs, 0)
  {
    assert v == List(v.vs);
    BodyIs(c, t, v.vs, 0);
    hide Layout, Plain, Body, IsType, HasType;
  }
}
