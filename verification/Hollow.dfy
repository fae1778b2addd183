/**
  Sequences whose elements take no space, and exactly which types lose values because of them.
 */
module Hollow {
  import opened Scripts
  import opened WireTypes
  import opened Decoding
  import opened Readback
  import opened Evolution
  import opened EvolutionProof
  import opened RoundTrip
  import opened Messages

  predicate NoneTakesSpace(c: Cfg, types: seq<Type>) {
    forall i :: 0 <= i < |types| ==> !TakesSpace(c, types[i])
  }

  /** Some value of a type whose values take no space. */
  function Default(c: Cfg, t: Type): (v: Value)
    requires IsType(t) && !TakesSpace(c, t)
    ensures HasType(v, t)
    decreases t, 0
  {
    match t
    case Arr(e, n) => List(if n == 0 then [] else Defaults(c, e, n))
    case Struct(_, _, types) => List(DefaultFields(c, types))
    case _ => Absent
  }

  function Defaults(c: Cfg, e: Type, n: nat): (vs: seq<Value>)
    requires IsType(e) && !TakesSpace(c, e)
    ensures |vs| == n && AllHaveType(vs, e)
    decreases e, 1, n
  {
    if n == 0 then [] else [Default(c, e)] + Defaults(c, e, n - 1)
  }

  function DefaultFields(c: Cfg, types: seq<Type>): (vs: seq<Value>)
    requires AreTypes(types) && NoneTakesSpace(c, types)
    ensures HaveTypes(vs, types)
    decreases types, 0
  {
    if types == [] then [] else [Default(c, types[0])] + DefaultFields(c, types[1..])
  }

  lemma {:induction false} NoSpace(c: Cfg, t: Type, v: Value, sp: nat)
    requires IsType(t) && HasType(v, t) && !TakesSpace(c, t)
    ensures Layout(c, Field(c, t, v), sp) == [] && IdsFit(Field(c, t, v))
    decreases t, 1
  {
    if t.Arr? {
      if IsBulk(t.elem) {
        EmptyBulk(c, t, v, sp);
      } else {
        assert !IsFramed(c, t);
        assert Plain(c, t, v) == Items(c, t.elem, v.vs);
        hide Layout, Elements, IdsFit, HasType;
        ElementsNoSpace(c, t.elem, v.vs, sp);
      }
    } else {
      assert t.Struct?;
      hide Layout, Fields, IdsFit, HasType;
      FieldsNoSpace(c, t.types, v.vs, sp);
    }
  }

  lemma EmptyBulk(c: Cfg, t: Type, v: Value, sp: nat)
    requires IsType(t) && HasType(v, t) && !TakesSpace(c, t) && t.Arr? && IsBulk(t.elem)
    ensures Layout(c, Field(c, t, v), sp) == [] && IdsFit(Field(c, t, v))
  {
    var k := Bulk(Width(t.elem), [], Done);
    assert v.vs == [] && Numbers([]) == [];
    assert Field(c, t, v) == k;
    LayoutOne(c, k, sp);
    hide Layout;
    assert IdsFit(Done);
  }

  lemma {:induction false} ElementsNoSpace(c: Cfg, e: Type, vs: seq<Value>, sp: nat)
    requires IsType(e) && AllHaveType(vs, e) && (vs == [] || !TakesSpace(c, e))
    ensures Layout(c, Elements(c, e, vs), sp) == [] && IdsFit(Elements(c, e, vs))
    decreases e, 2, |vs|
  {
    if vs != [] {
      hide *;
      ElementsHead(c, e, vs);
      var f, rest := Field(c, e, vs[0]), Elements(c, e, vs[1..]);
      NoSpace(c, e, vs[0], sp);
      ElementsNoSpace(c, e, vs[1..], sp);
      LayoutAppend(c, f, rest, sp);
      AppendKeeps(f, rest);
    }
  }

  lemma {:induction false} FieldsNoSpace(c: Cfg, types: seq<Type>, vs: seq<Value>, sp: nat)
    requires AreTypes(types) && HaveTypes(vs, types) && NoneTakesSpace(c, types)
    ensures Layout(c, Fields(c, types, vs), sp) == [] && IdsFit(Fields(c, types, vs))
    decreases types, 0
  {
    if types != [] {
      FirstTakesNone(c, types);
      hide *;
      FieldsHead(c, types, vs);
      var f, rest := Field(c, types[0], vs[0]), Fields(c, types[1..], vs[1..]);
      NoSpace(c, types[0], vs[0], sp);
      FieldsNoSpace(c, types[1..], vs[1..], sp);
      LayoutAppend(c, f, rest, sp);
      AppendKeeps(f, rest);
    }
  }

  lemma FirstTakesNone(c: Cfg, types: seq<Type>)
    requires types != [] && NoneTakesSpace(c, types)
    ensures !TakesSpace(c, types[0]) && NoneTakesSpace(c, types[1..])
  {
    hide TakesSpace;
  }

  const MOST: nat := U32 - 1

  /** The value with every sequence of elements that take no space made as long as can be. */
  function Stuffed(c: Cfg, t: Type, v: Value): (w: Value)
    requires IsType(t) && HasType(v, t)
    ensures HasType(w, t)
    decreases t, 0
  {
    match t
    case Seq(e) => List(if TakesSpace(c, e) then StuffedAll(c, e, v.vs) else Defaults(c, e, MOST))
    case Arr(e, _) => List(StuffedAll(c, e, v.vs))
    case Struct(_, _, types) => List(StuffedFields(c, types, v.vs))
    case _ => v
  }

  function StuffedAll(c: Cfg, e: Type, vs: seq<Value>): (ws: seq<Value>)
    requires IsType(e) && AllHaveType(vs, e)
    ensures |ws| == |vs| && AllHaveType(ws, e)
    decreases e, 1
  {
    seq(|vs|, i requires 0 <= i < |vs| => Stuffed(c, e, vs[i]))
  }

  function StuffedFields(c: Cfg, types: seq<Type>, vs: seq<Value>): (ws: seq<Value>)
    requires AreTypes(types) && HaveTypes(vs, types)
    ensures HaveTypes(ws, types)
    decreases types, 0
  {
    seq(|types|, i requires 0 <= i < |types| => Stuffed(c, types[i], vs[i]))
  }

  // --------------------------------------------------------- stuffing changes no length, only what the counts say

  predicate SameLength(c: Cfg, k: Calls, l: Calls, sp: nat) {
    |Layout(c, k, sp)| == |Layout(c, l, sp)|
  }

  /** Scripts that take the same space everywhere, and whose ids fit or not together. */
  ghost predicate Alike(c: Cfg, k: Calls, l: Calls) {
    && (forall sp: nat :: SameLength(c, k, l, sp))
    && IdsFit(k) == IdsFit(l)
  }

  lemma {:induction false} AlikeAppend(c: Cfg, a: Calls, a': Calls, b: Calls, b': Calls)
    requires Alike(c, a, a') && Alike(c, b, b')
    ensures Alike(c, Append(a, b), Append(a', b'))
  {
    LengthsAppend(c, a, a', b, b');
    IdsAppend(a, b);
    IdsAppend(a', b');
    hide Append, IdsFit, SameLength;
  }

  lemma {:induction false} IdsAppend(a: Calls, b: Calls)
    ensures IdsFit(Append(a, b)) <==> IdsFit(a) && IdsFit(b)
  {
    AppendKeeps(a, b);
    hide *;
  }

  lemma {:induction false} LengthsAppend(c: Cfg, a: Calls, a': Calls, b: Calls, b': Calls)
    requires forall sp: nat :: SameLength(c, a, a', sp)
    requires forall sp: nat :: SameLength(c, b, b', sp)
    ensures forall sp: nat :: SameLength(c, Append(a, b), Append(a', b'), sp)
  {
    hide *;
    forall sp: nat ensures SameLength(c, Append(a, b), Append(a', b'), sp) {
      AppendLength(c, a, a', b, b', sp);
    }
  }

  lemma {:induction false} AppendLength(c: Cfg, a: Calls, a': Calls, b: Calls, b': Calls, sp: nat)
    requires SameLength(c, a, a', sp) && SameLength(c, b, b', sp + |Layout(c, a, sp)|)
    ensures SameLength(c, Append(a, b), Append(a', b'), sp)
  {
    hide Layout, Append;
    LayoutAppend(c, a, b, sp);
    LayoutAppend(c, a', b', sp);
  }

  lemma {:induction false} AlikeDelimited(c: Cfg, k: Calls, l: Calls)
    requires Alike(c, k, l)
    ensures Alike(c, Delimited(k, Done), Delimited(l, Done))
  {
    hide Layout, Pad;
    forall sp: nat ensures SameLength(c, Delimited(k, Done), Delimited(l, Done), sp) {
      assert SameLength(c, k, l, sp + Pad(c, sp, 4) + 4);
      LayoutOne(c, Delimited(k, Done), sp);
      LayoutOne(c, Delimited(l, Done), sp);
    }
    assert IdsFit(Done);
  }

  lemma {:induction false} AlikeFrame(c: Cfg, on: bool, k: Calls, l: Calls)
    requires Alike(c, k, l)
    ensures Alike(c, Frame(on, k), Frame(on, l))
  {
    hide Alike;
    if on {
      AlikeDelimited(c, k, l);
    }
  }

  /** Calls whose own bytes have the same length, in front of scripts that are alike. */
  lemma {:induction false} LengthBehind(c: Cfg, k: Calls, l: Calls, sp: nat)
    requires !k.Done? && !l.Done? && |Head(c, k, sp)| == |Head(c, l, sp)|
    requires SameLength(c, k.rest, l.rest, sp + |Head(c, k, sp)|)
    ensures SameLength(c, k, l, sp)
  {
    hide Head;
    LayoutUnfold(c, k, sp);
    LayoutUnfold(c, l, sp);
    hide Layout;
  }

  /** Any two counts in front of scripts that are alike. */
  lemma {:induction false} AlikeCounted(c: Cfg, n: nat, m: nat, k: Calls, l: Calls)
    requires Alike(c, k, l)
    ensures Alike(c, Scalar(4, n, k), Scalar(4, m, l))
  {
    hide Layout, Pad, SameLength;
    forall sp: nat ensures SameLength(c, Scalar(4, n, k), Scalar(4, m, l), sp) {
      LengthBehind(c, Scalar(4, n, k), Scalar(4, m, l), sp);
    }
  }

  lemma {:induction false} AlikeFramed(c: Cfg, id: nat, mu: bool, f: Calls, f': Calls, k: Calls, l: Calls)
    requires Alike(c, f, f') && Alike(c, k, l)
    ensures Alike(c, Framed(id, mu, f, k), Framed(id, mu, f', l))
  {
    hide Layout, Pad, EmWord;
    forall sp: nat ensures SameLength(c, Framed(id, mu, f, k), Framed(id, mu, f', l), sp) {
      assert SameLength(c, f, f', sp + Pad(c, sp, 4) + 8);
      LengthBehind(c, Framed(id, mu, f, k), Framed(id, mu, f', l), sp);
    }
  }

  lemma {:induction false} AlikeParam(c: Cfg, id: nat, mu: bool, f: Calls, f': Calls, k: Calls, l: Calls)
    requires Alike(c, f, f') && Alike(c, k, l)
    ensures Alike(c, Param(id, mu, f, k), Param(id, mu, f', l))
  {
    hide Layout, Pad, ShortPid, ExtendedPid;
    forall sp: nat ensures SameLength(c, Param(id, mu, f, k), Param(id, mu, f', l), sp) {
      assert SameLength(c, f, f', sp + Pad(c, sp, 4) + 4);
      assert SameLength(c, f, f', sp + Pad(c, sp, 4) + 12);
      LengthBehind(c, Param(id, mu, f, k), Param(id, mu, f', l), sp);
    }
  }

  lemma {:induction false} AlikeCompact(c: Cfg, id: nat, w: nat, mu: bool, n: nat, k: Calls, l: Calls)
    requires Alike(c, k, l)
    ensures Alike(c, Emheader(id, w, mu, Scalar(w, n, k)), Emheader(id, w, mu, Scalar(w, n, l)))
  {
    hide Alike;
    AlikeBehindScalar(c, w, n, k, l);
    AlikeBehindEmheader(c, id, w, mu, Scalar(w, n, k), Scalar(w, n, l));
  }

  lemma {:induction false} AlikeBehindScalar(c: Cfg, w: nat, n: nat, k: Calls, l: Calls)
    requires Alike(c, k, l)
    ensures Alike(c, Scalar(w, n, k), Scalar(w, n, l))
  {
    hide Layout, ScalarBytes, SameLength;
    forall sp: nat ensures SameLength(c, Scalar(w, n, k), Scalar(w, n, l), sp) {
      LengthBehind(c, Scalar(w, n, k), Scalar(w, n, l), sp);
    }
  }

  lemma {:induction false} AlikeBehindEmheader(c: Cfg, id: nat, len: nat, mu: bool, k: Calls, l: Calls)
    requires Alike(c, k, l)
    ensures Alike(c, Emheader(id, len, mu, k), Emheader(id, len, mu, l))
  {
    hide Layout, EmheaderBytes, SameLength;
    forall sp: nat ensures SameLength(c, Emheader(id, len, mu, k), Emheader(id, len, mu, l), sp) {
      LengthBehind(c, Emheader(id, len, mu, k), Emheader(id, len, mu, l), sp);
    }
  }

  lemma {:induction false} StuffedAlike(c: Cfg, t: Type, v: Value)
    requires IsType(t) && HasType(v, t)
    ensures Alike(c, Field(c, t, v), Field(c, t, Stuffed(c, t, v)))
    decreases t, 3
  {
    hide Alike, IsType, HasType, Stuffed, Plain;
    StuffedPlainAlike(c, t, v);
    AlikeFrame(c, IsFramed(c, t), Plain(c, t, v), Plain(c, t, Stuffed(c, t, v)));
  }

  lemma {:induction false} StuffedPlainAlike(c: Cfg, t: Type, v: Value)
    requires IsType(t) && HasType(v, t)
    ensures Alike(c, Plain(c, t, v), Plain(c, t, Stuffed(c, t, v)))
    decreases t, 2
  {
    var w := Stuffed(c, t, v);
    match t
    case Seq(e) =>
      hide Alike, Items;
      if TakesSpace(c, e) {
        ItemsAlike(c, e, v.vs);
      } else {
        NothingAlike(c, e, v.vs, w.vs);
      }
      AlikeCounted(c, |v.vs|, |w.vs|, Items(c, e, v.vs), Items(c, e, w.vs));
    case Arr(e, _) =>
      hide Alike, Items;
      ItemsAlike(c, e, v.vs);
    case Struct(ext, tags, types) =>
      hide Alike, Fields, Tagged, StuffedFields;
      if ext.Mutable? {
        TaggedAlike(c, tags, types, v.vs);
        AlikeFrame(c, c.xcdr2, Tagged(c, tags, types, v.vs), Tagged(c, tags, types, w.vs));
      } else {
        FieldsAlike(c, types, v.vs);
        AlikeFrame(c, c.xcdr2 && ext.Appendable?, Fields(c, types, v.vs), Fields(c, types, w.vs));
      }
    case _ =>
  }

  lemma {:induction false} NothingAlike(c: Cfg, e: Type, vs: seq<Value>, ws: seq<Value>)
    requires IsType(e) && AllHaveType(vs, e) && AllHaveType(ws, e) && !TakesSpace(c, e)
    ensures Alike(c, Items(c, e, vs), Items(c, e, ws))
  {
    assert !IsBulk(e);
    hide Layout, Elements, TakesSpace, IdsFit;
    forall sp: nat ensures SameLength(c, Items(c, e, vs), Items(c, e, ws), sp) {
      ElementsNoSpace(c, e, vs, sp);
      ElementsNoSpace(c, e, ws, sp);
    }
    ElementsNoSpace(c, e, vs, 0);
    ElementsNoSpace(c, e, ws, 0);
  }

  lemma {:induction false} ItemsAlike(c: Cfg, e: Type, vs: seq<Value>)
    requires IsType(e) && AllHaveType(vs, e)
    ensures Alike(c, Items(c, e, vs), Items(c, e, StuffedAll(c, e, vs)))
    decreases e, 5
  {
    if IsBulk(e) {
      assert StuffedAll(c, e, vs) == vs;
      hide Items;
    } else {
      hide Alike, Elements, StuffedAll;
      ElementsAlike(c, e, vs);
    }
  }

  lemma {:induction false} ElementsAlike(c: Cfg, e: Type, vs: seq<Value>)
    requires IsType(e) && AllHaveType(vs, e)
    ensures Alike(c, Elements(c, e, vs), Elements(c, e, StuffedAll(c, e, vs)))
    decreases e, 4, |vs|
  {
    var ws := StuffedAll(c, e, vs);
    if vs == [] {
    } else {
      assert ws[1..] == StuffedAll(c, e, vs[1..]);
      hide Alike, Append, Field, StuffedAll, Stuffed, HasType, IsType;
      StuffedAlike(c, e, vs[0]);
      ElementsAlike(c, e, vs[1..]);
      AlikeAppend(c, Field(c, e, vs[0]), Field(c, e, ws[0]), Elements(c, e, vs[1..]), Elements(c, e, ws[1..]));
    }
  }

  lemma {:induction false} FieldsAlike(c: Cfg, types: seq<Type>, vs: seq<Value>)
    requires AreTypes(types) && HaveTypes(vs, types)
    ensures Alike(c, Fields(c, types, vs), Fields(c, types, StuffedFields(c, types, vs)))
    decreases types, 0
  {
    var ws := StuffedFields(c, types, vs);
    if types == [] {
    } else {
      assert ws[1..] == StuffedFields(c, types[1..], vs[1..]);
      hide Alike, Append, Field, StuffedFields, Stuffed, HasType, IsType;
      StuffedAlike(c, types[0], vs[0]);
      FieldsAlike(c, types[1..], vs[1..]);
      AlikeAppend(c, Field(c, types[0], vs[0]), Field(c, types[0], ws[0]), Fields(c, types[1..], vs[1..]), Fields(c, types[1..], ws[1..]));
    }
  }

  lemma {:induction false} TaggedAlike(c: Cfg, tags: seq<Tag>, types: seq<Type>, vs: seq<Value>)
    requires |tags| == |types| && AreTypes(types) && HaveTypes(vs, types)
    ensures Alike(c, Tagged(c, tags, types, vs), Tagged(c, tags, types, StuffedFields(c, types, vs)))
    decreases types, 0
  {
    var ws := StuffedFields(c, types, vs);
    if types == [] {
    } else {
      assert ws[1..] == StuffedFields(c, types[1..], vs[1..]);
      hide Alike, Member, StuffedFields, Stuffed, HasType, IsType;
      StuffedAlike(c, types[0], vs[0]);
      TaggedAlike(c, tags[1..], types[1..], vs[1..]);
      MemberAlike(c, tags[0], types[0], vs[0], Tagged(c, tags[1..], types[1..], vs[1..]), Tagged(c, tags[1..], types[1..], ws[1..]));
    }
  }

  lemma {:induction false} MemberAlike(c: Cfg, tag: Tag, t: Type, v: Value, k: Calls, l: Calls)
    requires IsType(t) && HasType(v, t) && Alike(c, k, l) && Alike(c, Field(c, t, v), Field(c, t, Stuffed(c, t, v)))
    ensures Alike(c, Member(c, tag, t, v, k), Member(c, tag, t, Stuffed(c, t, v), l))
  {
    hide Alike, Field;
    var f, f' := Field(c, t, v), Field(c, t, Stuffed(c, t, v));
    if !c.xcdr2 {
      AlikeParam(c, tag.id, tag.mu, f, f', k, l);
    } else if IsCompact(tag, t) {
      AlikeCompact(c, tag.id, Width(t), tag.mu, v.n, k, l);
    } else {
      AlikeFramed(c, tag.id, tag.mu, f, f', k, l);
    }
  }

  // ------------------------------------------------------------------------- stuffed values are not accepted

  lemma {:induction false} StuffedRejected(r: Source, t: Type, v: Value, pos: nat)
    requires r.base <= pos && |r.buf| < U32 && IsType(t) && HasType(v, t) && !Solid(r.c, t, v)
    ensures !FieldFits(r, t, t, Stuffed(r.c, t, v), pos)
    decreases t, 3
  {
    hide *;
    PlainRejected(r, t, v, BodyAt(r, IsFramed(r.c, t), pos));
    CountsFromPlain(r, t, t, Stuffed(r.c, t, v), pos);
  }

  lemma {:induction false} PlainRejected(r: Source, t: Type, v: Value, pos: nat)
    requires r.base <= pos && |r.buf| < U32 && IsType(t) && HasType(v, t) && !Solid(r.c, t, v)
    ensures !PlainFits(r, t, t, Stuffed(r.c, t, v), pos)
    decreases t, 2
  {
    match t
    case Seq(e) =>
      hide *;
      SeqRejected(r, e, v, pos);
    case Arr(e, n) =>
      hide *;
      ArrRejected(r, e, n, v, pos);
    case Struct(_, _, _) =>
      hide *;
      StructRejected(r, t, v, pos);
    case _ =>
  }

  lemma {:induction false} SeqRejected(r: Source, e: Type, v: Value, pos: nat)
    requires r.base <= pos && |r.buf| < U32 && IsType(Seq(e)) && HasType(v, Seq(e)) && !Solid(r.c, Seq(e), v)
    ensures !PlainFits(r, Seq(e), Seq(e), Stuffed(r.c, Seq(e), v), pos)
    decreases Seq(e), 1
  {
    hide ElementsFit, PadAt, StuffedAll, Defaults;
    if TakesSpace(r.c, e) {
      var i := FirstHollow(r.c, e, v.vs);
      ElementsRejected(r, e, v.vs, i, pos + PadAt(r, pos) + 4);
    }
  }

  lemma {:induction false} ArrRejected(r: Source, e: Type, n: nat, v: Value, pos: nat)
    requires r.base <= pos && |r.buf| < U32 && IsType(Arr(e, n)) && HasType(v, Arr(e, n)) && !Solid(r.c, Arr(e, n), v)
    ensures !PlainFits(r, Arr(e, n), Arr(e, n), Stuffed(r.c, Arr(e, n), v), pos)
    decreases Arr(e, n), 1
  {
    hide ElementsFit, StuffedAll;
    var i := FirstHollow(r.c, e, v.vs);
    ElementsRejected(r, e, v.vs, i, pos);
  }

  lemma {:induction false} StructRejected(r: Source, t: Type, v: Value, pos: nat)
    requires t.Struct? && r.base <= pos && |r.buf| < U32 && IsType(t) && HasType(v, t) && !Solid(r.c, t, v)
    ensures !PlainFits(r, t, t, Stuffed(r.c, t, v), pos)
    decreases t, 1
  {
    var tags, types := t.tags, t.types;
    var i :| 0 <= i < |types| && !Solid(r.c, types[i], v.vs[i]);
    var start := BodyAt(r, r.c.xcdr2 && !t.ext.Final?, pos);
    hide FieldsFit, TaggedFit, StuffedFields, BodyAt, Solid;
    if t.ext.Mutable? {
      TaggedRejected(r, tags, types, 0, v.vs, i, start);
      assert tags[0..] == tags && types[0..] == types;
    } else {
      FieldsRejected(r, types, v.vs, i, start);
    }
  }

  lemma FirstHollow(c: Cfg, e: Type, vs: seq<Value>) returns (i: nat)
    requires AllHaveType(vs, e) && !AllSolid(c, e, vs)
    ensures i < |vs| && !Solid(c, e, vs[i]) && !IsBulk(e)
  {
    i :| i < |vs| && !Solid(c, e, vs[i]);
  }

  lemma {:induction false} ElementsRejected(r: Source, e: Type, vs: seq<Value>, i: nat, pos: nat)
    requires r.base <= pos && |r.buf| < U32 && IsType(e) && AllHaveType(vs, e) && i < |vs| && !Solid(r.c, e, vs[i])
    ensures !ElementsFit(r, e, e, StuffedAll(r.c, e, vs), pos)
    decreases e, 4, |vs|
  {
    var ws := StuffedAll(r.c, e, vs);
    assert ws[1..] == StuffedAll(r.c, e, vs[1..]) && ws[0] == Stuffed(r.c, e, vs[0]);
    hide *;
    ElementsUnfold(r, e, e, ws, pos);
    if i == 0 {
      StuffedRejected(r, e, vs[0], pos);
    } else {
      TailHasType(e, vs);
      ElementsRejected(r, e, vs[1..], i - 1, After(r, e, ws[0], pos));
    }
  }

  lemma TailHasType(e: Type, vs: seq<Value>)
    requires AllHaveType(vs, e) && vs != []
    ensures AllHaveType(vs[1..], e) && HasType(vs[0], e)
  {
    hide HasType;
  }

  lemma {:induction false} FieldsRejected(r: Source, types: seq<Type>, vs: seq<Value>, i: nat, pos: nat)
    requires r.base <= pos && |r.buf| < U32 && AreTypes(types) && HaveTypes(vs, types) && i < |types| && !Solid(r.c, types[i], vs[i])
    ensures !FieldsFit(r, types, types, StuffedFields(r.c, types, vs), pos)
    decreases types, 0
  {
    var ws := StuffedFields(r.c, types, vs);
    assert ws[1..] == StuffedFields(r.c, types[1..], vs[1..]) && ws[0] == Stuffed(r.c, types[0], vs[0]);
    FieldsFitCons(r, types, types, ws, pos);
    hide FieldsFit, StuffedFields, Stuffed, Solid, HasType, IsType, Fields, Append, FieldFits, EndOf;
    if i == 0 {
      StuffedRejected(r, types[0], vs[0], pos);
    } else {
      AfterIsEnd(r, types[0], ws[0], pos);
      FieldsRejected(r, types[1..], vs[1..], i - 1, After(r, types[0], ws[0], pos));
    }
  }

  /** The members from the `j`-th on; `vs` are their values and `i` is the one that is hollow. */
  lemma {:induction false} TaggedRejected(r: Source, tags: seq<Tag>, types: seq<Type>, j: nat, vs: seq<Value>, i: nat, pos: nat)
    requires r.base <= pos && |r.buf| < U32 && |tags| == |types| && DistinctIds(tags) && AreTypes(types) && j <= |types| && AreTypes(types[j..])
    requires HaveTypes(vs, types[j..]) && i < |vs| && !Solid(r.c, types[j..][i], vs[i])
    ensures !TaggedFit(r, tags, types, tags[j..], types[j..], StuffedFields(r.c, types[j..], vs), pos)
    decreases types[j..], 0
  {
    hide *;
    SuffixTypes(types, j);
    var us, ws := types[j..], StuffedFields(r.c, types[j..], vs);
    TaggedUncons(r, tags, types, j, vs, pos);
    var p := PayloadAt(r, tags[j], us[0], ws[0], pos);
    if i == 0 {
      StuffedRejected(r, us[0], vs[0], p);
    } else {
      TaggedRejected(r, tags, types, j + 1, vs[1..], i - 1, After(r, us[0], ws[0], p));
    }
  }

  lemma SuffixTypes(types: seq<Type>, j: nat)
    requires AreTypes(types) && j <= |types|
    ensures AreTypes(types[j..])
  {
    hide IsType;
  }

  lemma TaggedUncons(r: Source, tags: seq<Tag>, types: seq<Type>, j: nat, vs: seq<Value>, pos: nat)
    requires r.base <= pos && |tags| == |types| && DistinctIds(tags) && AreTypes(types) && j <= |types| && AreTypes(types[j..])
    requires HaveTypes(vs, types[j..]) && vs != []
    ensures var us, ws := types[j..], StuffedFields(r.c, types[j..], vs);
            && |us| == |vs| == |ws| && j < |types| && us[0] == types[j] && us[1..] == types[j + 1..]
            && IsType(us[0]) && HasType(vs[0], us[0]) && HasType(ws[0], us[0]) && ws[0] == Stuffed(r.c, us[0], vs[0])
            && HaveTypes(vs[1..], types[j + 1..]) && AreTypes(types[j + 1..])
            && ws[1..] == StuffedFields(r.c, types[j + 1..], vs[1..])
    ensures var us, ws := types[j..], StuffedFields(r.c, types[j..], vs);
            var p := PayloadAt(r, tags[j], us[0], ws[0], pos);
            TaggedFit(r, tags, types, tags[j..], us, ws, pos) ==>
              && FieldFits(r, us[0], us[0], ws[0], p)
              && TaggedFit(r, tags, types, tags[j + 1..], types[j + 1..], StuffedFields(r.c, types[j + 1..], vs[1..]), After(r, us[0], ws[0], p))
  {
    var us, ws := types[j..], StuffedFields(r.c, types[j..], vs);
    assert us[1..] == types[j + 1..] && tags[j..][1..] == tags[j + 1..];
    assert ws[1..] == StuffedFields(r.c, us[1..], vs[1..]) && ws[0] == Stuffed(r.c, us[0], vs[0]);
    IndexOfDistinct(tags, j);
    hide StuffedFields, Stuffed, HasType, IsType, FieldFits, PayloadAt, After, Index;
  }

  // ------------------------------------------------------------------------------------ the exact condition

  predicate IsSample(c: Cfg, t: Type, v: Value)
    requires t.Struct? && IsType(t)
  {
    HasType(v, t) && Representable(c, t, v)
  }

  predicate ComesBack(c: Cfg, t: Type, v: Value)
    requires t.Struct? && IsType(t) && HasType(v, t)
  {
    var m := Message(c, t, v);
    |m| >= 4 && DecodePlain(Source(m, 4, c), t, 4) == Ok(v, |m|)
  }

  lemma SolidComesBack(c: Cfg, t: Type, v: Value)
    requires t.Struct? && IsType(t) && IsSample(c, t, v) && Solid(c, t, v)
    ensures ComesBack(c, t, v)
  {
    assert HasType(v, t) && Representable(c, t, v);
    hide *;
    var m := Message(c, t, v);
    assert m + [] == m;
    EvolvesToItself(c, t);
    ProjectsToItself(t, v);
    OwnTextsFit(t, v);
    MessageReady(c, t, v, []);
    PlainAlwaysFits(Source(m, 4, c), t, t, v, 4);
    MessageReads(c, t, t, v, []);
    BackIf(c, t, v);
  }

  lemma BackIf(c: Cfg, t: Type, v: Value)
    requires t.Struct? && IsType(t) && HasType(v, t)
    requires var m := Message(c, t, v); |m| >= 4 && DecodePlain(Source(m, 4, c), t, 4) == Ok(v, |m|)
    ensures ComesBack(c, t, v)
  {
    hide Message, DecodePlain, IsType, HasType;
  }

  /** A message that holds a sequence of elements that take no space can be turned into one the reader rejects. */
  lemma HollowRejected(c: Cfg, t: Type, v: Value)
    requires t.Struct? && IsType(t) && IsSample(c, t, v) && !Solid(c, t, v)
    ensures IsSample(c, t, Stuffed(c, t, v))
    ensures var m := Message(c, t, Stuffed(c, t, v)); |m| >= 4 && DecodePlain(Source(m, 4, c), t, 4).Bad?
  {
    assert HasType(v, t) && Representable(c, t, v);
    hide *;
    var w := Stuffed(c, t, v);
    StuffedPlainAlike(c, t, v);
    SameSize(c, t, v, w);
    Representables(c, t, v);
    Representables(c, t, w);
    var m := Message(c, t, w);
    assert m + [] == m;
    PlainRejected(Source(m, 4, c), t, v, 4);
    EvolvesToItself(c, t);
    MessageReads(c, t, t, w, []);
    SampleIf(c, t, w);
  }

  lemma SampleIf(c: Cfg, t: Type, v: Value)
    requires t.Struct? && IsType(t) && HasType(v, t) && Representable(c, t, v)
    ensures IsSample(c, t, v)
  {
    hide IsType, HasType, Representable;
  }

  lemma {:induction false} SameSize(c: Cfg, t: Type, v: Value, w: Value)
    requires t.Struct? && IsType(t) && HasType(v, t) && HasType(w, t) && Alike(c, Plain(c, t, v), Plain(c, t, w))
    ensures |Message(c, t, v)| == |Message(c, t, w)| && IdsFit(Plain(c, t, v)) == IdsFit(Plain(c, t, w))
  {
    assert SameLength(c, Plain(c, t, v), Plain(c, t, w), 0);
    hide Layout, Plain, IsType, HasType, IdsFit;
  }

  /**
    For every struct type: all of its representable samples come back from their messages if and only if none of
    them holds a sequence whose elements take no space.
   */
  lemma RoundTripsIff(c: Cfg, t: Type)
    requires t.Struct? && IsType(t)
    ensures (forall v :: IsSample(c, t, v) ==> ComesBack(c, t, v)) <==> (forall v :: IsSample(c, t, v) ==> Solid(c, t, v))
  {
    hide ComesBack, Solid, Representable, HasType, IsType, DecodePlain, Stuffed, Message;
    if forall v :: IsSample(c, t, v) ==> Solid(c, t, v) {
      forall v | IsSample(c, t, v) ensures ComesBack(c, t, v) {
        SolidComesBack(c, t, v);
      }
    }
    if v :| IsSample(c, t, v) && !Solid(c, t, v) {
      HollowRejected(c, t, v);
      var w := Stuffed(c, t, v);
      NotBack(c, t, w);
      assert IsSample(c, t, w) && !ComesBack(c, t, w);
    }
  }

  lemma NotBack(c: Cfg, t: Type, v: Value)
    requires t.Struct? && IsType(t) && HasType(v, t)
    requires var m := Message(c, t, v); |m| >= 4 && DecodePlain(Source(m, 4, c), t, 4).Bad?
    ensures !ComesBack(c, t, v)
  {
    hide Message, DecodePlain, IsType, HasType;
  }
}
