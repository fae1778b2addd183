/**
  Consequences of the main theorem: the same type on both sides gives the value back, and when every sequence
  element takes space the reader's count check never gets in the way, so that only texts that are too long do.
 */
module RoundTrip {
  import opened Scripts
  import opened BulkCopy
  import opened WireTypes
  import opened Decoding
  import opened Readback
  import opened Evolution
  import opened EvolutionProof

  /** Every type may be read as itself. */
  lemma {:induction false} EvolvesToItself(c: Cfg, t: Type)
    requires IsType(t)
    ensures Evolves(c, t, t)
    decreases t
  {
    hide IsFramed;
    match t
    case Seq(e) => EvolvesToItself(c, e);
    case Arr(e, _) => EvolvesToItself(c, e);
    case Struct(_, tags, types) =>
      forall i | 0 <= i < |types| ensures Evolves(c, types[i], types[i]) {
        EvolvesToItself(c, types[i]);
      }
      assert PrefixEvolves(c, types, types);
      if t.ext.Mutable? {
        forall i, j | 0 <= i < |tags| && 0 <= j < |tags| && tags[i].id == tags[j].id ensures MayRead(c, types[i], types[j]) {
          assert i == j;
        }
        assert SharedEvolve(c, tags, types, tags, types);
      }
    case _ =>
  }

  lemma IndexOfDistinct(tags: seq<Tag>, i: nat)
    requires i < |tags| && DistinctIds(tags)
    ensures Index(tags, tags[i].id) == i
  {
    hide Index;
  }

  /** Read as itself, a value is seen as it is. */
  lemma {:induction false} ProjectsToItself(t: Type, v: Value)
    requires IsType(t) && HasType(v, t)
    ensures Project(t, t, v) == v
    decreases t
  {
    match t
    case Seq(e) => forall i | 0 <= i < |v.vs| ensures Project(e, e, v.vs[i]) == v.vs[i] { ProjectsToItself(e, v.vs[i]); }
    case Arr(e, _) => forall i | 0 <= i < |v.vs| ensures Project(e, e, v.vs[i]) == v.vs[i] { ProjectsToItself(e, v.vs[i]); }
    case Struct(ext, tags, types) =>
      forall i | 0 <= i < |types| ensures Project(types[i], types[i], v.vs[i]) == v.vs[i] {
        ProjectsToItself(types[i], v.vs[i]);
      }
      if ext.Mutable? {
        forall i | 0 <= i < |types| ensures Index(tags, tags[i].id) == i {
          IndexOfDistinct(tags, i);
        }
        assert ProjectShared(tags, types, tags, types, v.vs) == v.vs;
      } else {
        assert ProjectPrefix(types, types, v.vs) == v.vs;
      }
    case _ =>
  }

  /** A value fits where its own type keeps it. */
  lemma {:induction false} OwnTextsFit(t: Type, v: Value)
    requires IsType(t) && HasType(v, t)
    ensures TextsFit(t, t, v)
    decreases t
  {
    match t
    case Seq(e) => forall i | 0 <= i < |v.vs| ensures TextsFit(e, e, v.vs[i]) { OwnTextsFit(e, v.vs[i]); }
    case Arr(e, _) => forall i | 0 <= i < |v.vs| ensures TextsFit(e, e, v.vs[i]) { OwnTextsFit(e, v.vs[i]); }
    case Struct(ext, tags, types) =>
      forall i | 0 <= i < |types| ensures TextsFit(types[i], types[i], v.vs[i]) {
        OwnTextsFit(types[i], v.vs[i]);
      }
      if ext.Mutable? {
        forall i | 0 <= i < |types| ensures Index(tags, tags[i].id) == i {
          IndexOfDistinct(tags, i);
        }
      }
    case _ =>
  }

  /** Does every value of this type take at least one byte? */
  predicate TakesSpace(c: Cfg, t: Type) {
    match t
    case Arr(e, n) => IsFramed(c, t) || (n > 0 && TakesSpace(c, e))
    case Struct(ext, _, types) =>
      IsFramed(c, t) || ext.Mutable? || (ext.Appendable? && c.xcdr2) || exists i :: 0 <= i < |types| && TakesSpace(c, types[i])
    case _ => true
  }

  /** The elements of every sequence inside this type take space. */
  predicate ElementsTakeSpace(c: Cfg, t: Type) {
    match t
    case Seq(e) => TakesSpace(c, e) && ElementsTakeSpace(c, e)
    case Arr(e, _) => ElementsTakeSpace(c, e)
    case Struct(_, _, types) => forall i :: 0 <= i < |types| ==> ElementsTakeSpace(c, types[i])
    case _ => true
  }

  /** Every sequence this value holds has elements that take space. */
  predicate Solid(c: Cfg, t: Type, v: Value)
    requires HasType(v, t)
    decreases t, 0
  {
    match t
    case Seq(e) => TakesSpace(c, e) && AllSolid(c, e, v.vs)
    case Arr(e, _) => AllSolid(c, e, v.vs)
    case Struct(_, _, types) => FieldsSolid(c, types, v.vs)
    case _ => true
  }

  predicate AllSolid(c: Cfg, e: Type, vs: seq<Value>)
    requires AllHaveType(vs, e)
    decreases e, 1
  {
    forall i :: 0 <= i < |vs| ==> Solid(c, e, vs[i])
  }

  predicate FieldsSolid(c: Cfg, types: seq<Type>, vs: seq<Value>)
    requires HaveTypes(vs, types)
    decreases types, 0
  {
    forall i :: 0 <= i < |types| ==> Solid(c, types[i], vs[i])
  }

  lemma {:induction false} AlwaysSolid(c: Cfg, t: Type, v: Value)
    requires HasType(v, t) && ElementsTakeSpace(c, t)
    ensures Solid(c, t, v)
    decreases t
  {
    match t
    case Seq(e) => forall i | 0 <= i < |v.vs| ensures Solid(c, e, v.vs[i]) { AlwaysSolid(c, e, v.vs[i]); }
    case Arr(e, _) => forall i | 0 <= i < |v.vs| ensures Solid(c, e, v.vs[i]) { AlwaysSolid(c, e, v.vs[i]); }
    case Struct(_, _, types) =>
      forall i | 0 <= i < |types| ensures Solid(c, types[i], v.vs[i]) { AlwaysSolid(c, types[i], v.vs[i]); }
    case _ =>
  }

  lemma AllSolidTail(c: Cfg, e: Type, vs: seq<Value>)
    requires vs != [] && AllHaveType(vs, e) && AllSolid(c, e, vs)
    ensures Solid(c, e, vs[0]) && AllSolid(c, e, vs[1..])
  {
    hide Solid, HasType;
  }

  lemma FieldsSolidTail(c: Cfg, types: seq<Type>, vs: seq<Value>)
    requires types != [] && HaveTypes(vs, types) && FieldsSolid(c, types, vs)
    ensures Solid(c, types[0], vs[0]) && HaveTypes(vs[1..], types[1..]) && FieldsSolid(c, types[1..], vs[1..])
  {
    hide Solid, HasType;
  }

  lemma FrameTakesSpace(c: Cfg, k: Calls, sp: nat)
    ensures |Layout(c, Delimited(k, Done), sp)| >= 4
  {
    LayoutOne(c, Delimited(k, Done), sp);
    hide Layout;
  }

  lemma {:induction false} FieldTakesSpace(c: Cfg, t: Type, v: Value, sp: nat)
    requires IsType(t) && HasType(v, t) && TakesSpace(c, t)
    ensures |Layout(c, Field(c, t, v), sp)| >= 1
    decreases t, 3
  {
    if IsFramed(c, t) {
      hide Layout, Plain;
      FrameTakesSpace(c, Plain(c, t, v), sp);
    } else {
      assert Field(c, t, v) == Plain(c, t, v);
      PlainTakesSpace(c, t, v, sp);
    }
  }

  lemma {:induction false} PlainTakesSpace(c: Cfg, t: Type, v: Value, sp: nat)
    requires IsType(t) && HasType(v, t) && TakesSpace(c, t) && !IsFramed(c, t)
    ensures |Layout(c, Plain(c, t, v), sp)| >= 1
    decreases t, 2
  {
    match t
    case Arr(e, n) => ItemsTakeSpace(c, e, v.vs, sp);
    case Struct(ext, tags, types) =>
      if ext.Mutable? {
        if c.xcdr2 {
          hide Layout, Tagged;
          FrameTakesSpace(c, Tagged(c, tags, types, v.vs), sp);
        } else {
          TaggedTakesSpace(c, tags, types, v.vs, sp);
        }
      } else if ext.Appendable? && c.xcdr2 {
        hide Layout, Fields;
        FrameTakesSpace(c, Fields(c, types, v.vs), sp);
      } else {
        var i :| 0 <= i < |types| && TakesSpace(c, types[i]);
        FieldsTakeSpace(c, types, v.vs, i, sp);
      }
    case _ =>
      hide Layout;
      LayoutUnfold(c, Plain(c, t, v), sp);
  }

  lemma TaggedTakesSpace(c: Cfg, tags: seq<Tag>, types: seq<Type>, vs: seq<Value>, sp: nat)
    requires |tags| == |types| && AreTypes(types) && HaveTypes(vs, types) && !c.xcdr2
    ensures |Layout(c, Tagged(c, tags, types, vs), sp)| >= 4
  {
    var k := Tagged(c, tags, types, vs);
    if types != [] {
      assert k == Member(c, tags[0], types[0], vs[0], Tagged(c, tags[1..], types[1..], vs[1..]));
    }
    LayoutUnfold(c, k, sp);
    hide Layout;
  }

  lemma {:induction false} FieldsTakeSpace(c: Cfg, types: seq<Type>, vs: seq<Value>, i: nat, sp: nat)
    requires AreTypes(types) && HaveTypes(vs, types) && i < |types| && TakesSpace(c, types[i])
    ensures |Layout(c, Fields(c, types, vs), sp)| >= 1
    decreases types, 0
  {
    hide Layout, Append, IsType, HasType, TakesSpace, Field;
    var f, rest := Field(c, types[0], vs[0]), Fields(c, types[1..], vs[1..]);
    LayoutAppend(c, f, rest, sp);
    if i == 0 {
      FieldTakesSpace(c, types[0], vs[0], sp);
    } else {
      FieldsTakeSpace(c, types[1..], vs[1..], i - 1, sp + |Layout(c, f, sp)|);
    }
  }

  /** At least one byte per element. */
  lemma {:induction false} ItemsTakeSpace(c: Cfg, e: Type, vs: seq<Value>, sp: nat)
    requires IsType(e) && AllHaveType(vs, e) && TakesSpace(c, e)
    ensures |Layout(c, Items(c, e, vs), sp)| >= |vs|
    decreases e, 5
  {
    if IsBulk(e) {
      BulkTakesSpace(c, Width(e), Numbers(vs), sp);
    } else {
      hide Layout, Elements, TakesSpace;
      ElementsOccupy(c, e, vs, sp);
    }
  }

  lemma BulkTakesSpace(c: Cfg, w: nat, values: seq<nat>, sp: nat)
    requires w >= 1
    ensures |Layout(c, Bulk(w, values, Done), sp)| >= |values|
  {
    hide Layout, Flat;
    LayoutOne(c, Bulk(w, values, Done), sp);
    FlatLength(values, w, c.le);
    MulMono(1, w, |values|);
  }

  lemma {:induction false} ElementsOccupy(c: Cfg, e: Type, vs: seq<Value>, sp: nat)
    requires IsType(e) && AllHaveType(vs, e) && TakesSpace(c, e)
    ensures |Layout(c, Elements(c, e, vs), sp)| >= |vs|
    decreases e, 4, |vs|
  {
    hide Layout, Append, IsType, HasType, TakesSpace, Field;
    if vs != [] {
      var f, rest := Field(c, e, vs[0]), Elements(c, e, vs[1..]);
      LayoutAppend(c, f, rest, sp);
      FieldTakesSpace(c, e, vs[0], sp);
      ElementsOccupy(c, e, vs[1..], sp + |Layout(c, f, sp)|);
    }
  }

  /** When the elements a value holds take space, no count exceeds the bytes behind it: the reader accepts what it can keep. */
  lemma {:induction false} CountsAlwaysFit(r: Source, rt: Type, wt: Type, v: Value, pos: nat)
    requires r.base <= pos && IsType(rt) && IsType(wt) && HasType(v, wt)
    requires Solid(r.c, wt, v) && Ready(r, Field(r.c, wt, v), pos)
    ensures FieldFits(r, rt, wt, v, pos) <==> TextsFit(rt, wt, v)
    decreases wt, 3
  {
    hide *;
    var k := Plain(r.c, wt, v);
    var start := BodyAt(r, IsFramed(r.c, wt), pos);
    FieldUnfold(r, wt, v, pos);
    FrameUnfold(r, IsFramed(r.c, wt), k, pos);
    if IsFramed(r.c, wt) {
      FrameReads(r, k, pos);
    }
    PlainAlwaysFits(r, rt, wt, v, start);
    CountsFromPlain(r, rt, wt, v, pos);
  }

  lemma CountsFromPlain(r: Source, rt: Type, wt: Type, v: Value, pos: nat)
    requires r.base <= pos && IsType(rt) && IsType(wt) && HasType(v, wt)
    ensures FieldFits(r, rt, wt, v, pos) == PlainFits(r, rt, wt, v, BodyAt(r, IsFramed(r.c, wt), pos))
  {
    hide PlainFits, IsType, HasType, IsFramed, BodyAt;
  }

  lemma {:induction false} PlainAlwaysFits(r: Source, rt: Type, wt: Type, v: Value, pos: nat)
    requires r.base <= pos && IsType(rt) && IsType(wt) && HasType(v, wt)
    requires Solid(r.c, wt, v) && Ready(r, Plain(r.c, wt, v), pos)
    ensures PlainFits(r, rt, wt, v, pos) <==> TextsFit(rt, wt, v)
    decreases wt, 2
  {
    if rt.Seq? && wt.Seq? {
      SeqAlwaysFits(r, rt, wt, v, pos);
    } else if rt.Arr? && wt.Arr? {
      if IsBulk(wt.elem) {
        NoTexts(rt.elem, wt.elem, v.vs);
      } else {
        hide Ready, Elements, ElementsFit, HasType, IsType, AllTextsFit, AllSolid;
        ElementsAlwaysFit(r, rt.elem, wt.elem, v.vs, pos);
      }
    } else if rt.Struct? && wt.Struct? {
      StructAlwaysFits(r, rt, wt, v, pos);
    }
  }

  lemma {:induction false} SeqAlwaysFits(r: Source, rt: Type, wt: Type, v: Value, pos: nat)
    requires r.base <= pos && IsType(rt) && IsType(wt) && HasType(v, wt) && rt.Seq? && wt.Seq?
    requires Solid(r.c, wt, v) && Ready(r, Plain(r.c, wt, v), pos)
    ensures PlainFits(r, rt, wt, v, pos) <==> TextsFit(rt, wt, v)
    decreases wt, 1
  {
    hide *;
    SeqTypes(r.c, rt, wt, v);
    var p := pos + PadAt(r, pos) + 4;
    var items := Items(r.c, wt.elem, v.vs);
    ReadyBuf(r, Plain(r.c, wt, v), pos);
    SeqReads(r, wt.elem, wt.elem, v.vs, pos);
    ItemsTakeSpace(r.c, wt.elem, v.vs, SpOf(r, p));
    RoomFor(r, items, p, |v.vs|);
    if IsBulk(wt.elem) {
      NoTexts(rt.elem, wt.elem, v.vs);
    } else {
      ItemsAreElements(r.c, wt.elem, v.vs);
      ElementsAlwaysFit(r, rt.elem, wt.elem, v.vs, p);
    }
    SeqFits(r, rt, wt, v, pos);
  }

  lemma RoomFor(r: Source, k: Calls, p: nat, n: nat)
    requires Ready(r, k, p) && r.base <= p && |Layout(r.c, k, SpOf(r, p))| >= n
    ensures p + n <= |r.buf|
  {
    hide Layout;
  }

  lemma SeqFits(r: Source, rt: Type, wt: Type, v: Value, pos: nat)
    requires r.base <= pos && IsType(rt) && IsType(wt) && HasType(v, wt) && rt.Seq? && wt.Seq? && v.List?
    requires IsType(rt.elem) && IsType(wt.elem) && AllHaveType(v.vs, wt.elem)
    requires var p := pos + PadAt(r, pos) + 4;
             && p + |v.vs| <= |r.buf|
             && ((IsBulk(wt.elem) || ElementsFit(r, rt.elem, wt.elem, v.vs, p)) <==> AllTextsFit(rt.elem, wt.elem, v.vs))
    ensures PlainFits(r, rt, wt, v, pos) <==> TextsFit(rt, wt, v)
  {
    hide ElementsFit, IsType, HasType, PadAt, IsBulk, AllTextsFit;
  }

  lemma SeqTypes(c: Cfg, rt: Type, t: Type, v: Value)
    requires IsType(rt) && IsType(t) && HasType(v, t) && rt.Seq? && t.Seq? && Solid(c, t, v)
    ensures IsType(rt.elem) && v.List? && |v.vs| < U32 && IsType(t.elem) && AllHaveType(v.vs, t.elem)
    ensures TakesSpace(c, t.elem) && AllSolid(c, t.elem, v.vs)
    ensures Plain(c, t, v) == Scalar(4, |v.vs|, Items(c, t.elem, v.vs))
  {
  }

  lemma NoTexts(re: Type, we: Type, vs: seq<Value>)
    requires AllHaveType(vs, we) && IsBulk(we)
    ensures AllTextsFit(re, we, vs)
  {
  }

  lemma ItemsAreElements(c: Cfg, e: Type, vs: seq<Value>)
    requires IsType(e) && AllHaveType(vs, e) && !IsBulk(e)
    ensures Items(c, e, vs) == Elements(c, e, vs)
  {
    hide IsType, HasType, Elements;
  }

  lemma {:induction false} ElementsAlwaysFit(r: Source, re: Type, we: Type, vs: seq<Value>, pos: nat)
    requires r.base <= pos && IsType(re) && IsType(we) && AllHaveType(vs, we)
    requires AllSolid(r.c, we, vs) && Ready(r, Elements(r.c, we, vs), pos)
    ensures ElementsFit(r, re, we, vs, pos) <==> AllTextsFit(re, we, vs)
    decreases we, 4, |vs|
  {
    hide *;
    if vs == [] {
      NoElementsFit(r, re, we, pos);
      AllTextsNone(re, we);
    } else {
      ElementsUnfold(r, re, we, vs, pos);
      AllSolidTail(r.c, we, vs);
      var f, rest := Field(r.c, we, vs[0]), Elements(r.c, we, vs[1..]);
      ReadyAppend(r, f, rest, pos);
      ReadyBuf(r, f, pos);
      CountsAlwaysFit(r, re, we, vs[0], pos);
      ElementsAlwaysFit(r, re, we, vs[1..], EndOf(r, f, pos));
      AllTextsCons(re, we, vs);
    }
  }

  lemma AllTextsNone(re: Type, we: Type)
    ensures AllTextsFit(re, we, [])
  {
  }

  lemma AllTextsCons(re: Type, we: Type, vs: seq<Value>)
    requires vs != [] && AllHaveType(vs, we)
    ensures AllTextsFit(re, we, vs) <==> TextsFit(re, we, vs[0]) && AllTextsFit(re, we, vs[1..])
  {
    hide TextsFit, HasType;
    if TextsFit(re, we, vs[0]) && AllTextsFit(re, we, vs[1..]) {
      forall i | 0 <= i < |vs| ensures TextsFit(re, we, vs[i]) {
        assert i > 0 ==> vs[i] == vs[1..][i - 1];
      }
    }
  }

  lemma NoElementsFit(r: Source, re: Type, we: Type, pos: nat)
    requires r.base <= pos && IsType(re) && IsType(we)
    ensures ElementsFit(r, re, we, [], pos)
  {
  }

  lemma {:induction false} StructAlwaysFits(r: Source, rt: Type, wt: Type, v: Value, pos: nat)
    requires r.base <= pos && IsType(rt) && IsType(wt) && HasType(v, wt) && rt.Struct? && wt.Struct?
    requires Solid(r.c, wt, v) && Ready(r, Plain(r.c, wt, v), pos)
    ensures PlainFits(r, rt, wt, v, pos) <==> TextsFit(rt, wt, v)
    decreases wt, 1
  {
    var on := r.c.xcdr2 && !wt.ext.Final?;
    var start := BodyAt(r, on, pos);
    var k := if wt.ext.Mutable? then Tagged(r.c, wt.tags, wt.types, v.vs) else Fields(r.c, wt.types, v.vs);
    assert Plain(r.c, wt, v) == Frame(on, k);
    StructTypes(r.c, rt, wt, v);
    hide Ready, Fields, FieldsFit, Tagged, TaggedFit, IsType, HasType, PadAt, BodyAt, Solid, FieldsSolid, PrefixTextsFit, SharedTextsFit;
    FrameUnfold(r, on, k, pos);
    if on {
      FrameReads(r, k, pos);
    }
    if wt.ext.Mutable? {
      TaggedAlwaysFit(r, rt.tags, rt.types, wt.tags, wt.types, v.vs, start);
    } else {
      FieldsAlwaysFit(r, rt.types, wt.types, v.vs, start);
    }
  }

  lemma StructTypes(c: Cfg, rt: Type, wt: Type, v: Value)
    requires IsType(rt) && IsType(wt) && HasType(v, wt) && rt.Struct? && wt.Struct? && Solid(c, wt, v)
    ensures v.List? && |rt.tags| == |rt.types| && |wt.tags| == |wt.types|
    ensures AreTypes(rt.types) && AreTypes(wt.types) && HaveTypes(v.vs, wt.types) && FieldsSolid(c, wt.types, v.vs)
    ensures forall i :: 0 <= i < |wt.tags| ==> wt.tags[i].id < U32
  {
  }

  lemma {:induction false} FieldsAlwaysFit(r: Source, rs: seq<Type>, ws: seq<Type>, vs: seq<Value>, pos: nat)
    requires r.base <= pos && AreTypes(rs) && AreTypes(ws) && HaveTypes(vs, ws)
    requires FieldsSolid(r.c, ws, vs) && Ready(r, Fields(r.c, ws, vs), pos)
    ensures FieldsFit(r, rs, ws, vs, pos) <==> PrefixTextsFit(rs, ws, vs)
    decreases ws, 0
  {
    if rs == [] || ws == [] {
    } else {
      hide *;
      FieldsFitCons(r, rs, ws, vs, pos);
      FieldsSolidTail(r.c, ws, vs);
      var f, rest := Field(r.c, ws[0], vs[0]), Fields(r.c, ws[1..], vs[1..]);
      ReadyAppend(r, f, rest, pos);
      ReadyBuf(r, f, pos);
      CountsAlwaysFit(r, rs[0], ws[0], vs[0], pos);
      FieldsAlwaysFit(r, rs[1..], ws[1..], vs[1..], EndOf(r, f, pos));
      PrefixTextsCons(rs, ws, vs);
    }
  }

  lemma FieldsFitCons(r: Source, rs: seq<Type>, ws: seq<Type>, vs: seq<Value>, pos: nat)
    requires r.base <= pos && rs != [] && ws != [] && AreTypes(rs) && AreTypes(ws) && HaveTypes(vs, ws)
    ensures vs != [] && IsType(rs[0]) && IsType(ws[0]) && HasType(vs[0], ws[0])
    ensures AreTypes(rs[1..]) && AreTypes(ws[1..]) && HaveTypes(vs[1..], ws[1..])
    ensures Fields(r.c, ws, vs) == Append(Field(r.c, ws[0], vs[0]), Fields(r.c, ws[1..], vs[1..]))
    ensures FieldsFit(r, rs, ws, vs, pos) <==>
              FieldFits(r, rs[0], ws[0], vs[0], pos) &&
              FieldsFit(r, rs[1..], ws[1..], vs[1..], EndOf(r, Field(r.c, ws[0], vs[0]), pos))
  {
    hide Append, Field, HasType, IsType, FieldFits, Layout;
  }

  lemma PrefixTextsCons(rs: seq<Type>, ws: seq<Type>, vs: seq<Value>)
    requires rs != [] && ws != [] && HaveTypes(vs, ws)
    ensures PrefixTextsFit(rs, ws, vs) <==> TextsFit(rs[0], ws[0], vs[0]) && PrefixTextsFit(rs[1..], ws[1..], vs[1..])
  {
    hide TextsFit, HasType;
    if TextsFit(rs[0], ws[0], vs[0]) && PrefixTextsFit(rs[1..], ws[1..], vs[1..]) {
      forall i | 0 <= i < |rs| && i < |ws| ensures TextsFit(rs[i], ws[i], vs[i]) {
        assert i > 0 ==> rs[i] == rs[1..][i - 1] && ws[i] == ws[1..][i - 1] && vs[i] == vs[1..][i - 1];
      }
    }
  }

  lemma {:induction false} TaggedAlwaysFit(r: Source, rtags: seq<Tag>, rs: seq<Type>, wtags: seq<Tag>, ws: seq<Type>, vs: seq<Value>, pos: nat)
    requires r.base <= pos && |rtags| == |rs| && |wtags| == |ws| && AreTypes(rs) && AreTypes(ws) && HaveTypes(vs, ws)
    requires forall i :: 0 <= i < |wtags| ==> wtags[i].id < U32
    requires FieldsSolid(r.c, ws, vs) && Ready(r, Tagged(r.c, wtags, ws, vs), pos)
    ensures TaggedFit(r, rtags, rs, wtags, ws, vs, pos) <==> SharedTextsFit(rtags, rs, wtags, ws, vs)
    decreases ws, 0
  {
    if ws != [] {
      FieldsSolidTail(r.c, ws, vs);
      hide Ready, Member, Field, IsType, HasType, FieldFits, Solid, FieldsSolid, Layout, SharedTextsFit, PayloadAt, After, Index, ReadPid, ReadEmheader;
      var rest := Tagged(r.c, wtags[1..], ws[1..], vs[1..]);
      var p := PayloadAt(r, wtags[0], ws[0], vs[0], pos);
      var k := Index(rtags, wtags[0].id);
      if r.c.xcdr2 {
        EmMemberReads(r, wtags[0], ws[0], vs[0], rest, pos);
      } else {
        PidMemberReads(r, wtags[0], ws[0], vs[0], rest, pos);
      }
      if k < |rs| {
        CountsAlwaysFit(r, rs[k], ws[0], vs[0], p);
      }
      AfterIsEnd(r, ws[0], vs[0], p);
      ReadyBuf(r, Field(r.c, ws[0], vs[0]), p);
      TaggedAlwaysFit(r, rtags, rs, wtags[1..], ws[1..], vs[1..], After(r, ws[0], vs[0], p));
      SharedTextsCons(rtags, rs, wtags, ws, vs);
    }
  }

  lemma SharedTextsCons(rtags: seq<Tag>, rs: seq<Type>, wtags: seq<Tag>, ws: seq<Type>, vs: seq<Value>)
    requires ws != [] && |wtags| == |ws| && HaveTypes(vs, ws)
    ensures var k := Index(rtags, wtags[0].id);
            SharedTextsFit(rtags, rs, wtags, ws, vs) <==>
            (k < |rs| ==> TextsFit(rs[k], ws[0], vs[0])) && SharedTextsFit(rtags, rs, wtags[1..], ws[1..], vs[1..])
  {
    hide TextsFit, HasType, Index, SharedTextsFit;
    var k := Index(rtags, wtags[0].id);
    if (k < |rs| ==> TextsFit(rs[k], ws[0], vs[0])) && SharedTextsFit(rtags, rs, wtags[1..], ws[1..], vs[1..]) {
      SharedTextsJoin(rtags, rs, wtags, ws, vs);
    }
    if SharedTextsFit(rtags, rs, wtags, ws, vs) {
      SharedTextsSplit(rtags, rs, wtags, ws, vs);
    }
  }

  lemma SharedTextsJoin(rtags: seq<Tag>, rs: seq<Type>, wtags: seq<Tag>, ws: seq<Type>, vs: seq<Value>)
    requires ws != [] && |wtags| == |ws| && HaveTypes(vs, ws)
    requires var k := Index(rtags, wtags[0].id);
             (k < |rs| ==> TextsFit(rs[k], ws[0], vs[0])) && SharedTextsFit(rtags, rs, wtags[1..], ws[1..], vs[1..])
    ensures SharedTextsFit(rtags, rs, wtags, ws, vs)
  {
    hide TextsFit, HasType, Index;
    forall i | 0 <= i < |ws| && Index(rtags, wtags[i].id) < |rs|
      ensures TextsFit(rs[Index(rtags, wtags[i].id)], ws[i], vs[i])
    {
      assert i > 0 ==> wtags[i] == wtags[1..][i - 1] && ws[i] == ws[1..][i - 1] && vs[i] == vs[1..][i - 1];
    }
  }

  lemma SharedTextsSplit(rtags: seq<Tag>, rs: seq<Type>, wtags: seq<Tag>, ws: seq<Type>, vs: seq<Value>)
    requires ws != [] && |wtags| == |ws| && HaveTypes(vs, ws) && SharedTextsFit(rtags, rs, wtags, ws, vs)
    ensures var k := Index(rtags, wtags[0].id);
            (k < |rs| ==> TextsFit(rs[k], ws[0], vs[0])) && SharedTextsFit(rtags, rs, wtags[1..], ws[1..], vs[1..])
  {
    hide TextsFit, HasType, Index;
    forall i | 0 <= i < |ws[1..]| && Index(rtags, wtags[1..][i].id) < |rs|
      ensures TextsFit(rs[Index(rtags, wtags[1..][i].id)], ws[1..][i], vs[1..][i])
    {
      assert wtags[i + 1] == wtags[1..][i] && ws[i + 1] == ws[1..][i] && vs[i + 1] == vs[1..][i];
    }
  }
}
