/**
  The wire format, straight from types and values to bytes.

  `Wire` knows nothing of scripts, back-patching, bulk copies or the rules that writer and reader share: paddings,
  widths, header words and the types that get a DHEADER are written out.  `LayoutIsWire` says that the bytes of
  generated code are these, for every type, value and position.
 */
module WireFormat {
  import opened Bytes
  import opened Scripts
  import opened WriterSteps
  import opened WireTypes

  // ---------------------------------------------------------------------------------- the reference

  function Gap2(sp: nat): seq<byte> {
    Zeros(if sp % 2 == 0 then 0 else 1)
  }

  function Gap4(sp: nat): seq<byte> {
    Zeros(if sp % 4 == 0 then 0 else 4 - sp % 4)
  }

  /** Eight-byte values are on multiples of 8 in XCDR1, and of 4 in XCDR2. */
  function Gap8(c: Cfg, sp: nat): seq<byte> {
    if c.xcdr2 then Gap4(sp) else Zeros(if sp % 8 == 0 then 0 else 8 - sp % 8)
  }

  /** The position behind the next 32-bit word. */
  function BehindWord(sp: nat): nat {
    sp + |Gap4(sp)| + 4
  }

  /** Behind a DHEADER: its length, and the bytes themselves. */
  function Boxed(c: Cfg, sp: nat, b: seq<byte>): seq<byte> {
    Gap4(sp) + Put(|b|, 4, c.le) + b
  }

  predicate IsPrimitive(e: Type) {
    match e
    case Bool => true
    case Int(_) => true
    case Quad => true
    case Enum => false
    case Str(_) => false
    case Seq(_) => false
    case Arr(_, _) => false
    case Struct(_, _, _) => false
  }

  /** `u` is `t` or somewhere inside it. */
  predicate Contains(t: Type, u: Type)
    decreases t
  {
    || t == u
    || match t
       case Seq(e) => Contains(e, u)
       case Arr(e, _) => Contains(e, u)
       case Struct(_, _, types) => exists i :: 0 <= i < |types| && Contains(types[i], u)
       case _ => false
  }

  /** There is a string or a sequence in it. */
  ghost predicate Varies(t: Type) {
    exists u :: Contains(t, u) && (u.Str? || u.Seq?)
  }

  ghost function Wire(c: Cfg, t: Type, v: Value, sp: nat): seq<byte>
    requires IsType(t) && HasType(v, t)
    decreases t, 3
  {
    match t
    case Bool => Put(v.n, 1, c.le)
    case Int(w) =>
      (if w == 1 then [] else if w == 2 then Gap2(sp) else if w == 4 then Gap4(sp) else Gap8(c, sp)) + Put(v.n, w, c.le)
    case Quad => Gap8(c, sp) + Put(v.n, 16, c.le)
    case Enum => Gap4(sp) + Put(v.n, 4, c.le)
    case Str(_) => Gap4(sp) + Put(|v.s| + 1, 4, c.le) + v.s + [0]
    case Seq(e) =>
      if c.xcdr2 && !IsPrimitive(e) then Boxed(c, sp, Counted(c, e, v.vs, BehindWord(sp)))
      else Counted(c, e, v.vs, sp)
    case Arr(e, _) =>
      if c.xcdr2 && !IsPrimitive(e) then Boxed(c, sp, Row(c, e, v.vs, BehindWord(sp)))
      else Row(c, e, v.vs, sp)
    case Struct(ext, _, _) =>
      if c.xcdr2 && ext == Final && Varies(t) then Boxed(c, sp, Body(c, t, v.vs, BehindWord(sp)))
      else Body(c, t, v.vs, sp)
  }

  /** A sequence: its count and its elements. */
  ghost function Counted(c: Cfg, e: Type, vs: seq<Value>, sp: nat): seq<byte>
    requires IsType(e) && AllHaveType(vs, e)
    decreases e, 5
  {
    Gap4(sp) + Put(|vs|, 4, c.le) + Row(c, e, vs, BehindWord(sp))
  }

  /** Elements, one after the other. */
  ghost function Row(c: Cfg, e: Type, vs: seq<Value>, sp: nat): seq<byte>
    requires IsType(e) && AllHaveType(vs, e)
    decreases e, 4, |vs|
  {
    if vs == [] then []
    else
      var b := Wire(c, e, vs[0], sp);
      b + Row(c, e, vs[1..], sp + |b|)
  }

  /** A struct, as the top level of a message has it. */
  ghost function Body(c: Cfg, t: Type, vs: seq<Value>, sp: nat): seq<byte>
    requires t.Struct? && IsType(t) && HasType(List(vs), t)
    decreases t, 2
  {
    match t.ext
    case Final => Members(c, t.types, vs, sp)
    case Appendable => if c.xcdr2 then Boxed(c, sp, Members(c, t.types, vs, BehindWord(sp))) else Members(c, t.types, vs, sp)
    case Mutable =>
      if c.xcdr2 then Boxed(c, sp, Marked(c, t.tags, t.types, vs, BehindWord(sp)))
      else Parameters(c, t.tags, t.types, vs, sp)
  }

  ghost function Members(c: Cfg, types: seq<Type>, vs: seq<Value>, sp: nat): seq<byte>
    requires AreTypes(types) && HaveTypes(vs, types)
    decreases types, 0
  {
    if types == [] then []
    else
      var b := Wire(c, types[0], vs[0], sp);
      b + Members(c, types[1..], vs[1..], sp + |b|)
  }

  /** The EMHEADER word: the must-understand flag, three bits of length code, 28 bits of id. */
  function Mark(id: nat, mu: bool, lc: nat): nat {
    (if mu then 0x8000_0000 else 0) + 0x1000_0000 * lc + id % 0x1000_0000
  }

  /** The length code of the members that may have a compact EMHEADER. */
  function CodeOf(tag: Tag, t: Type): nat {
    if !tag.compact then 4
    else
      match t
      case Bool => 0
      case Int(w) => if w == 1 then 0 else if w == 2 then 1 else if w == 4 then 2 else 3
      case Enum => 2
      case _ => 4
  }

  /** XCDR2: a member behind its EMHEADER, with a length of its own when the code does not give it. */
  ghost function MarkedOne(c: Cfg, tag: Tag, t: Type, v: Value, sp: nat): seq<byte>
    requires IsType(t) && HasType(v, t)
    decreases t, 4
  {
    var lc := CodeOf(tag, t);
    var word := Gap4(sp) + Put(Mark(tag.id, tag.mu, lc), 4, c.le);
    var b := Wire(c, t, v, sp + |word| + if lc == 4 then 4 else 0);
    word + (if lc == 4 then Put(|b|, 4, c.le) else []) + b
  }

  ghost function Marked(c: Cfg, tags: seq<Tag>, types: seq<Type>, vs: seq<Value>, sp: nat): seq<byte>
    requires |tags| == |types| && AreTypes(types) && HaveTypes(vs, types)
    decreases types, 0
  {
    if types == [] then []
    else
      var m := MarkedOne(c, tags[0], types[0], vs[0], sp);
      m + Marked(c, tags[1..], types[1..], vs[1..], sp + |m|)
  }

  /** A parameter with its header; `short` and `long` are its content behind 4 and behind 12 bytes. */
  function Parameter(c: Cfg, id: nat, mu: bool, short: seq<byte>, long: seq<byte>): seq<byte> {
    if id <= 0x3F00 && |short| <= 0xFFFF then
      Put((if mu then 0x4000 else 0) + id, 2, c.le) + Put(|short|, 2, c.le) + short
    else
      Put((if mu then 0x4000 else 0) + 0x3F01, 2, c.le) + Put(8, 2, c.le) + Put(id, 4, c.le) + Put(|long|, 4, c.le) + long
  }

  /** XCDR1: a member behind its parameter header. */
  ghost function ParameterOne(c: Cfg, tag: Tag, t: Type, v: Value, sp: nat): seq<byte>
    requires IsType(t) && HasType(v, t)
    decreases t, 4
  {
    var p := sp + |Gap4(sp)|;
    Gap4(sp) + Parameter(c, tag.id, tag.mu, Wire(c, t, v, p + 4), Wire(c, t, v, p + 12))
  }

  /** The list of them ends in a sentinel. */
  ghost function Parameters(c: Cfg, tags: seq<Tag>, types: seq<Type>, vs: seq<Value>, sp: nat): seq<byte>
    requires |tags| == |types| && AreTypes(types) && HaveTypes(vs, types)
    decreases types, 0
  {
    if types == [] then Gap4(sp) + Put(0x3F02, 2, c.le) + Put(0, 2, c.le)
    else
      var m := ParameterOne(c, tags[0], types[0], vs[0], sp);
      m + Parameters(c, tags[1..], types[1..], vs[1..], sp + |m|)
  }

  // ------------------------------------------------------------------------------- paddings and words

  lemma GapIs(c: Cfg, sp: nat)
    ensures Gap2(sp) == Zeros(Pad(c, sp, 2)) && Gap4(sp) == Zeros(Pad(c, sp, 4)) && Gap8(c, sp) == Zeros(Pad(c, sp, 8))
    ensures Pad(c, sp, 1) == 0
    ensures BehindWord(sp) == sp + Pad(c, sp, 4) + 4
  {
    hide Zeros;
  }

  lemma BoxedIs(c: Cfg, k: Calls, sp: nat)
    ensures Layout(c, Delimited(k, Done), sp) == Boxed(c, sp, Layout(c, k, BehindWord(sp)))
  {
    GapIs(c, sp);
    DelimitedLayout(c, k, sp);
    hide Layout, Gap4, Pad, Put, Zeros;
  }

  lemma FrameIs(c: Cfg, on: bool, k: Calls, sp: nat)
    ensures Layout(c, Frame(on, k), sp) == if on then Boxed(c, sp, Layout(c, k, BehindWord(sp))) else Layout(c, k, sp)
  {
    BoxedIs(c, k, sp);
    hide Layout, Boxed, BehindWord;
  }

  lemma {:induction false} VariesIff(t: Type)
    ensures IsVariableLength(t) <==> Varies(t)
    decreases t
  {
    match t
    case Str(_) => assert Contains(t, t);
    case Seq(_) => assert Contains(t, t);
    case Arr(e, _) =>
      VariesIff(e);
      InsideArray(t);
    case Struct(_, _, types) =>
      forall i | 0 <= i < |types| ensures IsVariableLength(types[i]) <==> Varies(types[i]) {
        VariesIff(types[i]);
      }
      InsideStruct(t);
    case _ =>
  }

  lemma InsideArray(t: Type)
    requires t.Arr?
    ensures Varies(t) <==> Varies(t.elem)
  {
    if Varies(t) {
      var u :| Contains(t, u) && (u.Str? || u.Seq?);
      assert Contains(t.elem, u);
    }
    if Varies(t.elem) {
      var u :| Contains(t.elem, u) && (u.Str? || u.Seq?);
      assert Contains(t, u);
    }
  }

  lemma InsideStruct(t: Type)
    requires t.Struct?
    ensures Varies(t) <==> exists i :: 0 <= i < |t.types| && Varies(t.types[i])
  {
    if Varies(t) {
      var u :| Contains(t, u) && (u.Str? || u.Seq?);
      var i :| 0 <= i < |t.types| && Contains(t.types[i], u);
      assert Varies(t.types[i]);
    }
    if i :| 0 <= i < |t.types| && Varies(t.types[i]) {
      var u :| Contains(t.types[i], u) && (u.Str? || u.Seq?);
      assert Contains(t, u);
    }
  }

  // ------------------------------------------------------------------------------------ the theorem

  lemma {:induction false} LayoutIsWire(c: Cfg, t: Type, v: Value, sp: nat)
    requires IsType(t) && HasType(v, t)
    ensures Layout(c, Field(c, t, v), sp) == Wire(c, t, v, sp)
    decreases t, 3
  {
    match t
    case Seq(e) =>
      hide *;
      SeqIsWire(c, e, v, sp);
    case Arr(e, n) =>
      hide *;
      ArrIsWire(c, e, n, v, sp);
    case Struct(_, _, _) =>
      hide *;
      StructIsWire(c, t, v, sp);
    case Str(_) =>
      hide *;
      TextIsWire(c, t, v, sp);
    case _ =>
      assert IsScalar(t);
      hide *;
      NumberIsWire(c, t, v, sp);
  }

  lemma NumberIsWire(c: Cfg, t: Type, v: Value, sp: nat)
    requires IsType(t) && HasType(v, t) && IsScalar(t)
    ensures Layout(c, Field(c, t, v), sp) == Wire(c, t, v, sp)
  {
    hide *;
    NumberCalls(c, t, v);
    ScalarLayout(c, Width(t), v.n, sp);
    GapIs(c, sp);
    WireOfNumber(c, t, v, sp);
  }

  lemma NumberCalls(c: Cfg, t: Type, v: Value)
    requires IsType(t) && HasType(v, t) && IsScalar(t)
    ensures v.Num? && Field(c, t, v) == Scalar(Width(t), v.n, Done)
  {
  }

  lemma WireOfNumber(c: Cfg, t: Type, v: Value, sp: nat)
    requires IsType(t) && HasType(v, t) && IsScalar(t) && v.Num?
    requires Gap2(sp) == Zeros(Pad(c, sp, 2)) && Gap4(sp) == Zeros(Pad(c, sp, 4)) && Gap8(c, sp) == Zeros(Pad(c, sp, 8))
    requires Pad(c, sp, 1) == 0
    ensures Wire(c, t, v, sp) == Zeros(Pad(c, sp, AlignOf(Width(t)))) + Put(v.n, Width(t), c.le)
  {
    hide Gap2, Gap4, Gap8, Pad, Put, HasType;
    hide Zeros;
    NoGap(Put(v.n, Width(t), c.le));
  }

  lemma NoGap(b: seq<byte>)
    ensures Zeros(0) == [] && Zeros(0) + b == b
  {
  }

  lemma TextIsWire(c: Cfg, t: Type, v: Value, sp: nat)
    requires IsType(t) && HasType(v, t) && t.Str?
    ensures Layout(c, Field(c, t, v), sp) == Wire(c, t, v, sp)
  {
    GapIs(c, sp);
    var k := Text(v.s, Done);
    LayoutOne(c, k, sp);
    hide Layout, Gap4, Pad, Put, Zeros;
    assert Field(c, t, v) == k;
  }

  lemma {:induction false} SeqIsWire(c: Cfg, e: Type, v: Value, sp: nat)
    requires IsType(Seq(e)) && HasType(v, Seq(e))
    ensures Layout(c, Field(c, Seq(e), v), sp) == Wire(c, Seq(e), v, sp)
    decreases Seq(e), 2
  {
    var k := Scalar(4, |v.vs|, Items(c, e, v.vs));
    var on := c.xcdr2 && !IsPrimitive(e);
    assert Field(c, Seq(e), v) == Frame(on, k);
    CountedIs(c, e, v.vs, if on then BehindWord(sp) else sp);
    FrameIs(c, on, k, sp);
    hide Layout, Items, Counted, Boxed, BehindWord, HasType, IsType;
  }

  lemma {:induction false} ArrIsWire(c: Cfg, e: Type, n: nat, v: Value, sp: nat)
    requires IsType(Arr(e, n)) && HasType(v, Arr(e, n))
    ensures Layout(c, Field(c, Arr(e, n), v), sp) == Wire(c, Arr(e, n), v, sp)
    decreases Arr(e, n), 2
  {
    var k := Items(c, e, v.vs);
    var on := c.xcdr2 && !IsPrimitive(e);
    assert Field(c, Arr(e, n), v) == Frame(on, k);
    ItemsAreRow(c, e, v.vs, if on then BehindWord(sp) else sp);
    FrameIs(c, on, k, sp);
    hide Layout, Items, Row, Boxed, BehindWord, HasType, IsType;
  }

  lemma {:induction false} CountedIs(c: Cfg, e: Type, vs: seq<Value>, sp: nat)
    requires IsType(e) && AllHaveType(vs, e)
    ensures Layout(c, Scalar(4, |vs|, Items(c, e, vs)), sp) == Counted(c, e, vs, sp)
    decreases e, 7
  {
    hide Layout, Items, Row, Pad, Gap4, Put, Zeros, IsType, HasType;
    var k := Scalar(4, |vs|, Items(c, e, vs));
    GapIs(c, sp);
    LayoutUnfold(c, k, sp);
    assert Head(c, k, sp) == Zeros(Pad(c, sp, 4)) + Put(|vs|, 4, c.le);
    ItemsAreRow(c, e, vs, BehindWord(sp));
  }

  lemma {:induction false} ItemsAreRow(c: Cfg, e: Type, vs: seq<Value>, sp: nat)
    requires IsType(e) && AllHaveType(vs, e)
    ensures Layout(c, Items(c, e, vs), sp) == Row(c, e, vs, sp)
    decreases e, 6
  {
    if IsBulk(e) {
      NumbersTyped(e, vs);
      hide Layout, Row, HasType, PerElement;
      BulkIsPerElement(c, Width(e), Numbers(vs), sp);
      NumbersAreRow(c, e, vs, sp);
    } else {
      hide Layout, Row, Elements, HasType;
      ElementsAreRow(c, e, vs, sp);
    }
  }

  lemma NumbersTyped(e: Type, vs: seq<Value>)
    requires IsType(e) && IsBulk(e) && AllHaveType(vs, e)
    ensures forall i :: 0 <= i < |vs| ==> vs[i].Num?
    ensures Width(e) == 1 || Width(e) == 2 || Width(e) == 4 || Width(e) == 8
  {
  }

  /** The element-by-element loop over numbers. */
  lemma {:induction false} NumbersAreRow(c: Cfg, e: Type, vs: seq<Value>, sp: nat)
    requires IsType(e) && IsBulk(e) && IsScalar(e) && AllHaveType(vs, e) && forall i :: 0 <= i < |vs| ==> vs[i].Num?
    ensures Layout(c, PerElement(Width(e), Numbers(vs)), sp) == Row(c, e, vs, sp)
    decreases |vs|
  {
    hide *;
    if vs == [] {
      NoNumbers(c, e, sp);
    } else {
      NumbersHead(e, vs);
      RowHead(c, e, vs, sp);
      ScalarFirst(c, e, vs[0], PerElement(Width(e), Numbers(vs[1..])), sp);
      NumbersAreRow(c, e, vs[1..], sp + |Wire(c, e, vs[0], sp)|);
    }
  }

  lemma NoNumbers(c: Cfg, e: Type, sp: nat)
    requires IsType(e) && IsScalar(e) && AllHaveType([], e)
    ensures Layout(c, PerElement(Width(e), Numbers([])), sp) == Row(c, e, [], sp)
  {
    LayoutDone(c, sp);
    hide Layout;
  }

  lemma NumbersHead(e: Type, vs: seq<Value>)
    requires vs != [] && IsScalar(e) && forall i :: 0 <= i < |vs| ==> vs[i].Num?
    ensures PerElement(Width(e), Numbers(vs)) == Scalar(Width(e), vs[0].n, PerElement(Width(e), Numbers(vs[1..])))
  {
    assert Numbers(vs)[1..] == Numbers(vs[1..]);
  }

  lemma {:induction false} ElementsAreRow(c: Cfg, e: Type, vs: seq<Value>, sp: nat)
    requires IsType(e) && AllHaveType(vs, e)
    ensures Layout(c, Elements(c, e, vs), sp) == Row(c, e, vs, sp)
    decreases e, 4, |vs|
  {
    hide *;
    if vs == [] {
      NoElements(c, e, sp);
    } else {
      RowHead(c, e, vs, sp);
      ElementsHead(c, e, vs);
      var f, rest := Field(c, e, vs[0]), Elements(c, e, vs[1..]);
      LayoutIsWire(c, e, vs[0], sp);
      LayoutAppend(c, f, rest, sp);
      ElementsAreRow(c, e, vs[1..], sp + |Layout(c, f, sp)|);
    }
  }

  lemma NoElements(c: Cfg, e: Type, sp: nat)
    requires IsType(e) && AllHaveType([], e)
    ensures Layout(c, Elements(c, e, []), sp) == Row(c, e, [], sp) == []
  {
    LayoutDone(c, sp);
    hide Layout;
  }

  lemma RowHead(c: Cfg, e: Type, vs: seq<Value>, sp: nat)
    requires vs != [] && IsType(e) && AllHaveType(vs, e)
    ensures HasType(vs[0], e) && AllHaveType(vs[1..], e)
    ensures var b := Wire(c, e, vs[0], sp); Row(c, e, vs, sp) == b + Row(c, e, vs[1..], sp + |b|)
  {
    hide Wire, HasType, IsType;
  }

  lemma {:induction false} StructIsWire(c: Cfg, t: Type, v: Value, sp: nat)
    requires t.Struct? && IsType(t) && HasType(v, t)
    ensures Layout(c, Field(c, t, v), sp) == Wire(c, t, v, sp)
    decreases t, 2
  {
    var on := c.xcdr2 && t.ext == Final && Varies(t);
    VariesIff(t);
    assert IsFramed(c, t) == on by { hide Varies, IsVariableLength; }
    hide Layout, Plain, Body, Boxed, BehindWord, HasType, IsType, Varies, IsVariableLength;
    assert v == List(v.vs);
    BodyIs(c, t, v.vs, if on then BehindWord(sp) else sp);
    FrameIs(c, on, Plain(c, t, v), sp);
  }

  lemma {:induction false} BodyIs(c: Cfg, t: Type, vs: seq<Value>, sp: nat)
    requires t.Struct? && IsType(t) && HasType(List(vs), t)
    ensures Layout(c, Plain(c, t, List(vs)), sp) == Body(c, t, vs, sp)
    decreases t, 1
  {
    StructParts(t, vs);
    hide Layout, Fields, Tagged, Members, Marked, Parameters, Boxed, BehindWord, IsType, HasType;
    match t.ext
    case Final =>
      MembersAre(c, t.types, vs, sp);
    case Appendable =>
      MembersAre(c, t.types, vs, if c.xcdr2 then BehindWord(sp) else sp);
      FrameIs(c, c.xcdr2, Fields(c, t.types, vs), sp);
    case Mutable =>
      FrameIs(c, c.xcdr2, Tagged(c, t.tags, t.types, vs), sp);
      if c.xcdr2 {
        MarkedAre(c, t.tags, t.types, vs, BehindWord(sp));
      } else {
        ParametersAre(c, t.tags, t.types, vs, sp);
      }
  }

  lemma StructParts(t: Type, vs: seq<Value>)
    requires t.Struct? && IsType(t) && HasType(List(vs), t)
    ensures |t.tags| == |t.types| && AreTypes(t.types) && HaveTypes(vs, t.types)
  {
  }

  lemma {:induction false} MembersAre(c: Cfg, types: seq<Type>, vs: seq<Value>, sp: nat)
    requires AreTypes(types) && HaveTypes(vs, types)
    ensures Layout(c, Fields(c, types, vs), sp) == Members(c, types, vs, sp)
    decreases types, 0
  {
    hide *;
    AsMany(vs, types);
    if types == [] {
      NoneLeft(c, [], sp);
    } else {
      MembersHead(c, types, vs, sp);
      FieldsHead(c, types, vs);
      var f, rest := Field(c, types[0], vs[0]), Fields(c, types[1..], vs[1..]);
      LayoutIsWire(c, types[0], vs[0], sp);
      LayoutAppend(c, f, rest, sp);
      MembersAre(c, types[1..], vs[1..], sp + |Layout(c, f, sp)|);
    }
  }

  lemma AsMany(vs: seq<Value>, types: seq<Type>)
    requires HaveTypes(vs, types)
    ensures |vs| == |types|
  {
  }

  lemma NoneLeft(c: Cfg, tags: seq<Tag>, sp: nat)
    requires tags == [] && AreTypes([]) && HaveTypes([], [])
    ensures Layout(c, Fields(c, [], []), sp) == Members(c, [], [], sp)
    ensures c.xcdr2 ==> Layout(c, Tagged(c, tags, [], []), sp) == Marked(c, tags, [], [], sp)
    ensures !c.xcdr2 ==> Layout(c, Tagged(c, tags, [], []), sp) == Parameters(c, tags, [], [], sp)
  {
    LayoutDone(c, sp);
    SentinelIs(c, sp);
    hide Layout, Gap4, Put;
  }

  lemma MembersHead(c: Cfg, types: seq<Type>, vs: seq<Value>, sp: nat)
    requires types != [] && AreTypes(types) && HaveTypes(vs, types)
    ensures IsType(types[0]) && HasType(vs[0], types[0]) && AreTypes(types[1..]) && HaveTypes(vs[1..], types[1..])
    ensures var b := Wire(c, types[0], vs[0], sp); Members(c, types, vs, sp) == b + Members(c, types[1..], vs[1..], sp + |b|)
  {
    hide Wire, HasType, IsType;
  }

  lemma TypesTail(tags: seq<Tag>, types: seq<Type>, vs: seq<Value>)
    requires |tags| == |types| && types != [] && AreTypes(types) && HaveTypes(vs, types)
    ensures IsType(types[0]) && HasType(vs[0], types[0]) && AreTypes(types[1..]) && HaveTypes(vs[1..], types[1..])
  {
    hide HasType, IsType;
  }

  // ------------------------------------------------------------------------- members of mutable structs

  lemma MarkedHead(c: Cfg, tags: seq<Tag>, types: seq<Type>, vs: seq<Value>, sp: nat)
    requires |tags| == |types| && types != [] && AreTypes(types) && HaveTypes(vs, types)
    requires IsType(types[0]) && HasType(vs[0], types[0]) && AreTypes(types[1..]) && HaveTypes(vs[1..], types[1..])
    ensures var m := MarkedOne(c, tags[0], types[0], vs[0], sp);
            Marked(c, tags, types, vs, sp) == m + Marked(c, tags[1..], types[1..], vs[1..], sp + |m|)
  {
    hide MarkedOne, HasType, IsType;
  }

  lemma {:induction false} MarkedAre(c: Cfg, tags: seq<Tag>, types: seq<Type>, vs: seq<Value>, sp: nat)
    requires c.xcdr2 && |tags| == |types| && AreTypes(types) && HaveTypes(vs, types)
    ensures Layout(c, Tagged(c, tags, types, vs), sp) == Marked(c, tags, types, vs, sp)
    decreases types, 0
  {
    hide *;
    AsMany(vs, types);
    if types == [] {
      NoneLeft(c, tags, sp);
    } else {
      TaggedHead(c, tags, types, vs);
      TypesTail(tags, types, vs);
      MarkedHead(c, tags, types, vs, sp);
      var m := MarkedOne(c, tags[0], types[0], vs[0], sp);
      var rest := Tagged(c, tags[1..], types[1..], vs[1..]);
      MarkedAre(c, tags[1..], types[1..], vs[1..], sp + |m|);
      MemberMarked(c, tags[0], types[0], vs[0], rest, sp);
    }
  }

  lemma TaggedHead(c: Cfg, tags: seq<Tag>, types: seq<Type>, vs: seq<Value>)
    requires |tags| == |types| && types != [] && AreTypes(types) && HaveTypes(vs, types)
    ensures IsType(types[0]) && HasType(vs[0], types[0]) && AreTypes(types[1..]) && HaveTypes(vs[1..], types[1..])
    ensures Tagged(c, tags, types, vs) == Member(c, tags[0], types[0], vs[0], Tagged(c, tags[1..], types[1..], vs[1..]))
  {
    hide Member, HasType, IsType;
  }

  lemma {:induction false} MemberMarked(c: Cfg, tag: Tag, t: Type, v: Value, rest: Calls, sp: nat)
    requires c.xcdr2 && IsType(t) && HasType(v, t)
    ensures var m := MarkedOne(c, tag, t, v, sp);
            Layout(c, Member(c, tag, t, v, rest), sp) == m + Layout(c, rest, sp + |m|)
    decreases t, 4
  {
    hide *;
    CodesAgree(tag, t);
    if IsCompact(tag, t) {
      CompactMarked(c, tag, t, v, rest, sp);
    } else {
      LayoutIsWire(c, t, v, sp + |Gap4(sp)| + 8);
      LongMarked(c, tag, t, v, rest, sp);
    }
  }

  lemma CodesAgree(tag: Tag, t: Type)
    requires IsType(t)
    ensures IsCompact(tag, t) <==> CodeOf(tag, t) < 4
    ensures !IsCompact(tag, t) ==> CodeOf(tag, t) == 4
    ensures IsCompact(tag, t) ==> IsScalar(t) && CodeOf(tag, t) == LengthCode(Width(t))
  {
  }

  lemma MarkIs(id: nat, mu: bool, lc: nat)
    ensures Mark(id, mu, lc) == EmWord(id, lc, mu)
  {
  }

  lemma CompactMarked(c: Cfg, tag: Tag, t: Type, v: Value, rest: Calls, sp: nat)
    requires c.xcdr2 && IsType(t) && HasType(v, t) && IsCompact(tag, t) && CodeOf(tag, t) < 4
    requires IsScalar(t) && CodeOf(tag, t) == LengthCode(Width(t))
    ensures var m := MarkedOne(c, tag, t, v, sp);
            Layout(c, Member(c, tag, t, v, rest), sp) == m + Layout(c, rest, sp + |m|)
  {
    hide *;
    var lc := CodeOf(tag, t);
    CompactCalls(c, tag, t, v, rest);
    var h := Emheader(tag.id, Width(t), tag.mu, Scalar(Width(t), v.n, rest));
    var word := Gap4(sp) + Put(Mark(tag.id, tag.mu, lc), 4, c.le);
    CompactHead(c, h, sp, lc);
    LayoutUnfold(c, h, sp);
    ScalarFirst(c, t, v, rest, sp + |word|);
    var b := Wire(c, t, v, sp + |word|);
    MarkedCompact(c, tag, t, v, sp);
    assert word + [] + b == word + b;
    Assoc(word, b, Layout(c, rest, sp + |word| + |b|));
  }

  lemma CompactCalls(c: Cfg, tag: Tag, t: Type, v: Value, rest: Calls)
    requires c.xcdr2 && IsType(t) && HasType(v, t) && IsCompact(tag, t) && IsScalar(t)
    ensures v.Num? && Member(c, tag, t, v, rest) == Emheader(tag.id, Width(t), tag.mu, Scalar(Width(t), v.n, rest))
  {
  }

  lemma CompactHead(c: Cfg, h: Calls, sp: nat, lc: nat)
    requires h.Emheader? && lc == LengthCode(h.len) < 4
    ensures Head(c, h, sp) == Gap4(sp) + Put(Mark(h.id, h.mu, lc), 4, c.le)
  {
    GapIs(c, sp);
    MarkIs(h.id, h.mu, lc);
    hide Pad, Put, Zeros, Gap4, EmWord, Mark;
    var b := Zeros(Pad(c, sp, 4)) + Put(EmWord(h.id, lc, h.mu), 4, c.le);
    assert b + [] == b;
  }

  lemma MarkedCompact(c: Cfg, tag: Tag, t: Type, v: Value, sp: nat)
    requires IsType(t) && HasType(v, t) && CodeOf(tag, t) != 4
    ensures var word := Gap4(sp) + Put(Mark(tag.id, tag.mu, CodeOf(tag, t)), 4, c.le);
            MarkedOne(c, tag, t, v, sp) == word + [] + Wire(c, t, v, sp + |word|)
  {
    hide Wire, HasType, IsType, Mark, CodeOf, Gap4, Put;
  }

  lemma HeadAlone(c: Cfg, w: nat, n: nat, rest: Calls, sp: nat)
    ensures Head(c, Scalar(w, n, rest), sp) == Head(c, Scalar(w, n, Done), sp)
  {
    hide ScalarBytes;
  }

  lemma ScalarFirst(c: Cfg, t: Type, v: Value, rest: Calls, sp: nat)
    requires IsType(t) && HasType(v, t) && IsScalar(t)
    ensures var b := Wire(c, t, v, sp);
            v.Num? && Layout(c, Scalar(Width(t), v.n, rest), sp) == b + Layout(c, rest, sp + |b|)
  {
    hide *;
    NumberIsWire(c, t, v, sp);
    NumberCalls(c, t, v);
    var k := Scalar(Width(t), v.n, rest);
    LayoutUnfold(c, k, sp);
    LayoutOne(c, Scalar(Width(t), v.n, Done), sp);
    HeadAlone(c, Width(t), v.n, rest, sp);
  }

  lemma LongMarked(c: Cfg, tag: Tag, t: Type, v: Value, rest: Calls, sp: nat)
    requires c.xcdr2 && IsType(t) && HasType(v, t) && !IsCompact(tag, t) && CodeOf(tag, t) == 4
    requires var p := sp + |Gap4(sp)| + 8; Layout(c, Field(c, t, v), p) == Wire(c, t, v, p)
    ensures var m := MarkedOne(c, tag, t, v, sp);
            Layout(c, Member(c, tag, t, v, rest), sp) == m + Layout(c, rest, sp + |m|)
  {
    hide Layout, Field, Wire, Pad, Put, Zeros, Gap4, EmWord, Mark, CodeOf, IsCompact, HasType, IsType;
    var k := Framed(tag.id, tag.mu, Field(c, t, v), rest);
    assert Member(c, tag, t, v, rest) == k;
    LayoutUnfold(c, k, sp);
    GapIs(c, sp);
    MarkIs(tag.id, tag.mu, 4);
    var b := Wire(c, t, v, sp + |Gap4(sp)| + 8);
    assert Head(c, k, sp) == Gap4(sp) + Put(Mark(tag.id, tag.mu, 4), 4, c.le) + Put(|b|, 4, c.le) + b;
  }

  lemma ParametersHead(c: Cfg, tags: seq<Tag>, types: seq<Type>, vs: seq<Value>, sp: nat)
    requires |tags| == |types| && types != [] && AreTypes(types) && HaveTypes(vs, types)
    requires IsType(types[0]) && HasType(vs[0], types[0]) && AreTypes(types[1..]) && HaveTypes(vs[1..], types[1..])
    ensures var m := ParameterOne(c, tags[0], types[0], vs[0], sp);
            Parameters(c, tags, types, vs, sp) == m + Parameters(c, tags[1..], types[1..], vs[1..], sp + |m|)
  {
    hide ParameterOne, HasType, IsType;
  }

  lemma {:induction false} ParametersAre(c: Cfg, tags: seq<Tag>, types: seq<Type>, vs: seq<Value>, sp: nat)
    requires !c.xcdr2 && |tags| == |types| && AreTypes(types) && HaveTypes(vs, types)
    ensures Layout(c, Tagged(c, tags, types, vs), sp) == Parameters(c, tags, types, vs, sp)
    decreases types, 0
  {
    hide *;
    AsMany(vs, types);
    if types == [] {
      NoneLeft(c, tags, sp);
    } else {
      TaggedHead(c, tags, types, vs);
      TypesTail(tags, types, vs);
      ParametersHead(c, tags, types, vs, sp);
      var m := ParameterOne(c, tags[0], types[0], vs[0], sp);
      var rest := Tagged(c, tags[1..], types[1..], vs[1..]);
      ParametersAre(c, tags[1..], types[1..], vs[1..], sp + |m|);
      LayoutIsWire(c, types[0], vs[0], sp + |Gap4(sp)| + 4);
      LayoutIsWire(c, types[0], vs[0], sp + |Gap4(sp)| + 12);
      MemberParameter(c, tags[0], types[0], vs[0], rest, sp);
    }
  }

  lemma SentinelIs(c: Cfg, sp: nat)
    ensures Layout(c, Sentinel(Done), sp) == Gap4(sp) + Put(0x3F02, 2, c.le) + Put(0, 2, c.le)
  {
    GapIs(c, sp);
    LayoutOne(c, Sentinel(Done), sp);
    hide Layout, Gap4, Pad, Put, Zeros;
  }

  lemma MemberParameter(c: Cfg, tag: Tag, t: Type, v: Value, rest: Calls, sp: nat)
    requires !c.xcdr2 && IsType(t) && HasType(v, t)
    requires var p := sp + |Gap4(sp)| + 4; Layout(c, Field(c, t, v), p) == Wire(c, t, v, p)
    requires var p := sp + |Gap4(sp)| + 12; Layout(c, Field(c, t, v), p) == Wire(c, t, v, p)
    ensures var m := ParameterOne(c, tag, t, v, sp);
            Layout(c, Member(c, tag, t, v, rest), sp) == m + Layout(c, rest, sp + |m|)
  {
    hide Layout, Field, Wire, Pad, Put, Zeros, Gap4, HasType, IsType;
    var k := Param(tag.id, tag.mu, Field(c, t, v), rest);
    assert Member(c, tag, t, v, rest) == k;
    LayoutUnfold(c, k, sp);
    GapIs(c, sp);
    ParameterIs(c, tag.id, tag.mu, Wire(c, t, v, sp + |Gap4(sp)| + 4), Wire(c, t, v, sp + |Gap4(sp)| + 12), Pad(c, sp, 4));
    hide Parameter, ParamBytes;
  }

  lemma ParameterIs(c: Cfg, id: nat, mu: bool, short: seq<byte>, long: seq<byte>, pad: nat)
    ensures ParamBytes(c, pad, id, mu, short, long) == Zeros(pad) + Parameter(c, id, mu, short, long)
  {
    hide Zeros, Put;
    if id <= 0x3F00 {
      assert id % 0x4000 == id;
    }
  }
}
