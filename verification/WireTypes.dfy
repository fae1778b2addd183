/**
  IDL types and values, and the writer calls that generated code makes for them.
 */
module WireTypes {
  import opened Wrappers
  import opened Bytes
  import opened Scripts
  import opened WriterSteps

  datatype Type =
    | Bool
    | Int(width: nat)                      // (u)int8…64, char, wchar, float, double, bitmask-free integers
    | Quad                                 // float128
    | Enum
    | Str(capacity: Option<nat>)           // a char array of that many bytes, or a pointer
    | Seq(elem: Type)
    | Arr(elem: Type, size: nat)
    | Struct(ext: Ext, tags: seq<Tag>, types: seq<Type>)

  /**
    What identifies a member of a struct on the wire; member i has tag `tags[i]` and type `types[i]`.  In XCDR2 a
    writer that knows the length of a member beforehand may write a compact EMHEADER for it.
   */
  datatype Tag = Tag(id: nat, mu: bool, compact: bool)

  /** Numbers are bit patterns.  `Absent` is a mutable member the reader knows and the stream lacks. */
  datatype Value = Num(n: nat) | Txt(s: seq<byte>) | List(vs: seq<Value>) | Absent

  predicate IsScalar(t: Type) {
    t.Bool? || t.Int? || t.Quad? || t.Enum?
  }

  function Width(t: Type): nat
    requires IsScalar(t)
  {
    match t
    case Bool => 1
    case Int(w) => w
    case Quad => 16
    case Enum => 4
  }

  predicate DistinctIds(tags: seq<Tag>) {
    forall i, j :: 0 <= i < j < |tags| ==> tags[i].id != tags[j].id
  }

  /** Integer widths are those of C, member ids are 32-bit and unique within a mutable struct. */
  predicate IsType(t: Type) {
    match t
    case Int(w) => w == 1 || w == 2 || w == 4 || w == 8
    case Seq(e) => IsType(e)
    case Arr(e, _) => IsType(e)
    case Struct(ext, tags, types) =>
      && |tags| == |types|
      && (forall i :: 0 <= i < |tags| ==> tags[i].id < U32)
      && (forall i :: 0 <= i < |types| ==> IsType(types[i]))
      && (ext.Mutable? ==> DistinctIds(tags))
    case _ => true
  }

  /** A text and its NUL fit where they are kept. */
  predicate FitsIn(s: seq<byte>, capacity: Option<nat>) {
    capacity.Some? ==> |s| < capacity.value
  }

  predicate HasType(v: Value, t: Type)
    decreases t
  {
    match t
    case Bool => v.Num? && v.n < 2
    case Int(w) => v.Num? && v.n < Pow256(w)
    case Quad => v.Num? && v.n < Pow256(16)
    case Enum => v.Num? && v.n < Pow256(4)
    case Str(capacity) => v.Txt? && FitsIn(v.s, capacity)
    case Seq(e) => v.List? && |v.vs| < U32 && (forall i :: 0 <= i < |v.vs| ==> HasType(v.vs[i], e))
    case Arr(e, n) => v.List? && |v.vs| == n && (forall i :: 0 <= i < |v.vs| ==> HasType(v.vs[i], e))
    case Struct(_, _, types) =>
      v.List? && |v.vs| == |types| && (forall i :: 0 <= i < |types| ==> HasType(v.vs[i], types[i]))
  }

  predicate HaveTypes(vs: seq<Value>, types: seq<Type>) {
    |vs| == |types| && forall i :: 0 <= i < |types| ==> HasType(vs[i], types[i])
  }

  predicate AllHaveType(vs: seq<Value>, t: Type) {
    forall i :: 0 <= i < |vs| ==> HasType(vs[i], t)
  }

  /** Element types that a whole sequence or array of goes out in one bulk copy. */
  predicate IsBulk(e: Type) {
    e.Bool? || e.Int?
  }

  /** XCDR2 delimits a collection whose elements are not primitive; enums count as not primitive. */
  predicate NeedsDheader(e: Type) {
    !(e.Bool? || e.Int? || e.Quad?)
  }

  predicate IsVariableLength(t: Type) {
    match t
    case Str(_) => true
    case Seq(_) => true
    case Arr(e, _) => IsVariableLength(e)
    case Struct(_, _, types) => exists i :: 0 <= i < |types| && IsVariableLength(types[i])
    case _ => false
  }

  /** Is a field of this type wrapped in a DHEADER of its own?  (Appendable and mutable bodies bring another.) */
  predicate IsFramed(c: Cfg, t: Type) {
    && c.xcdr2
    && match t
       case Seq(e) => NeedsDheader(e)
       case Arr(e, _) => NeedsDheader(e)
       case Struct(ext, _, _) => ext.Final? && IsVariableLength(t)
       case _ => false
  }

  function Frame(on: bool, k: Calls): Calls {
    if on then Delimited(k, Done) else k
  }

  function Numbers(vs: seq<Value>): (ns: seq<nat>)
    requires forall i :: 0 <= i < |vs| ==> vs[i].Num?
    ensures |ns| == |vs|
  {
    seq(|vs|, i requires 0 <= i < |vs| => vs[i].n)
  }

  /** The calls that serialize a field. */
  function Field(c: Cfg, t: Type, v: Value): Calls
    requires IsType(t) && HasType(v, t)
    decreases t, 3
  {
    Frame(IsFramed(c, t), Plain(c, t, v))
  }

  function Plain(c: Cfg, t: Type, v: Value): Calls
    requires IsType(t) && HasType(v, t)
    decreases t, 2
  {
    match t
    case Str(_) => Text(v.s, Done)
    case Seq(e) => Scalar(4, |v.vs|, Items(c, e, v.vs))
    case Arr(e, _) => Items(c, e, v.vs)
    case Struct(ext, tags, types) =>
      (match ext
       case Final => Fields(c, types, v.vs)
       case Appendable => Frame(c.xcdr2, Fields(c, types, v.vs))
       case Mutable => Frame(c.xcdr2, Tagged(c, tags, types, v.vs)))
    case _ => Scalar(Width(t), v.n, Done)
  }

  function Items(c: Cfg, e: Type, vs: seq<Value>): Calls
    requires IsType(e) && AllHaveType(vs, e)
    decreases e, 5
  {
    if IsBulk(e) then Bulk(Width(e), Numbers(vs), Done) else Elements(c, e, vs)
  }

  function Elements(c: Cfg, e: Type, vs: seq<Value>): Calls
    requires IsType(e) && AllHaveType(vs, e)
    decreases e, 4, |vs|
  {
    if vs == [] then Done else Append(Field(c, e, vs[0]), Elements(c, e, vs[1..]))
  }

  predicate AreTypes(types: seq<Type>) {
    forall i :: 0 <= i < |types| ==> IsType(types[i])
  }

  function Fields(c: Cfg, types: seq<Type>, vs: seq<Value>): Calls
    requires AreTypes(types) && HaveTypes(vs, types)
    decreases types, 0
  {
    if types == [] then Done else Append(Field(c, types[0], vs[0]), Fields(c, types[1..], vs[1..]))
  }

  /** Members that go behind a compact EMHEADER, whose length code names the length. */
  predicate IsCompact(tag: Tag, t: Type) {
    tag.compact && (t.Bool? || t.Int? || t.Enum?)
  }

  /** One member in front of the others. */
  function Member(c: Cfg, tag: Tag, t: Type, v: Value, rest: Calls): Calls
    requires IsType(t) && HasType(v, t)
    decreases t, 4
  {
    if !c.xcdr2 then Param(tag.id, tag.mu, Field(c, t, v), rest)
    else if IsCompact(tag, t) then Emheader(tag.id, Width(t), tag.mu, Scalar(Width(t), v.n, rest))
    else Framed(tag.id, tag.mu, Field(c, t, v), rest)
  }

  /** Members behind EMHEADERs in XCDR2; in XCDR1 behind parameter headers, closed by a sentinel. */
  function Tagged(c: Cfg, tags: seq<Tag>, types: seq<Type>, vs: seq<Value>): Calls
    requires |tags| == |types| && AreTypes(types) && HaveTypes(vs, types)
    decreases types, 0
  {
    if types == [] then (if c.xcdr2 then Done else Sentinel(Done))
    else
      Member(c, tags[0], types[0], vs[0], Tagged(c, tags[1..], types[1..], vs[1..]))
  }

  lemma FieldsHead(c: Cfg, types: seq<Type>, vs: seq<Value>)
    requires types != [] && AreTypes(types) && HaveTypes(vs, types)
    ensures IsType(types[0]) && HasType(vs[0], types[0]) && AreTypes(types[1..]) && HaveTypes(vs[1..], types[1..])
    ensures Fields(c, types, vs) == Append(Field(c, types[0], vs[0]), Fields(c, types[1..], vs[1..]))
  {
    hide Append, Field, HasType, IsType;
  }

  lemma ElementsHead(c: Cfg, e: Type, vs: seq<Value>)
    requires vs != [] && IsType(e) && AllHaveType(vs, e)
    ensures HasType(vs[0], e) && AllHaveType(vs[1..], e)
    ensures Elements(c, e, vs) == Append(Field(c, e, vs[0]), Elements(c, e, vs[1..]))
  {
    hide Append, Field, HasType, IsType;
  }

  lemma FieldsOf1(c: Cfg, t: Type, v: Value)
    requires IsType(t) && HasType(v, t)
    ensures Fields(c, [t], [v]) == Append(Field(c, t, v), Done)
  {
    hide Field, Append, IsType, HasType;
    assert [t][1..] == [] && [v][1..] == [];
  }

  lemma {:induction false} FieldWellFormed(c: Cfg, t: Type, v: Value)
    requires IsType(t) && HasType(v, t)
    ensures WellFormed(Field(c, t, v))
    decreases t, 3
  {
    match t
    case Seq(e) => ItemsWellFormed(c, e, v.vs);
    case Arr(e, _) => ItemsWellFormed(c, e, v.vs);
    case Struct(ext, tags, types) =>
      if ext.Mutable? { TaggedWellFormed(c, tags, types, v.vs); } else { FieldsWellFormed(c, types, v.vs); }
    case _ =>
  }

  lemma {:induction false} ItemsWellFormed(c: Cfg, e: Type, vs: seq<Value>)
    requires IsType(e) && AllHaveType(vs, e)
    ensures WellFormed(Items(c, e, vs))
    decreases e, 5
  {
    if IsBulk(e) {
      PowValues();
    } else {
      ElementsWellFormed(c, e, vs);
    }
  }

  lemma {:induction false} ElementsWellFormed(c: Cfg, e: Type, vs: seq<Value>)
    requires IsType(e) && AllHaveType(vs, e)
    ensures WellFormed(Elements(c, e, vs))
    decreases e, 4, |vs|
  {
    if vs != [] {
      FieldWellFormed(c, e, vs[0]);
      ElementsWellFormed(c, e, vs[1..]);
      AppendKeeps(Field(c, e, vs[0]), Elements(c, e, vs[1..]));
    }
  }

  lemma {:induction false} FieldsWellFormed(c: Cfg, types: seq<Type>, vs: seq<Value>)
    requires AreTypes(types) && HaveTypes(vs, types)
    ensures WellFormed(Fields(c, types, vs))
    decreases types, 0
  {
    if types != [] {
      FieldWellFormed(c, types[0], vs[0]);
      FieldsWellFormed(c, types[1..], vs[1..]);
      AppendKeeps(Field(c, types[0], vs[0]), Fields(c, types[1..], vs[1..]));
    }
  }

  lemma {:induction false} TaggedWellFormed(c: Cfg, tags: seq<Tag>, types: seq<Type>, vs: seq<Value>)
    requires |tags| == |types| && AreTypes(types) && HaveTypes(vs, types)
    requires forall i :: 0 <= i < |tags| ==> tags[i].id < U32
    ensures WellFormed(Tagged(c, tags, types, vs))
    decreases types, 0
  {
    if types != [] {
      FieldWellFormed(c, types[0], vs[0]);
      TaggedWellFormed(c, tags[1..], types[1..], vs[1..]);
    }
  }
}
