/**
  Reading with one type what was written with another.

  `Evolves` says when a reader of one type may read data of another: appendable structs may have lost
  trailing members, mutable structs any members.  `Project` says what such a reader should see.
 */
module Evolution {
  import opened Bytes
  import opened Scripts
  import opened WireTypes
  import opened Decoding
  import opened Readback

  predicate Evolves(c: Cfg, rt: Type, wt: Type)
    decreases rt, 0
  {
    && IsFramed(c, rt) == IsFramed(c, wt)
    && match rt
       case Seq(e) => wt.Seq? && Evolves(c, e, wt.elem)
       case Arr(e, n) => wt.Arr? && wt.size == n && Evolves(c, e, wt.elem)
       case Struct(ext, tags, types) =>
         && wt.Struct? && wt.ext == ext
         && (if ext.Mutable? then SharedEvolve(c, tags, types, wt.tags, wt.types)
             else PrefixEvolves(c, types, wt.types) && (ext.Final? || !c.xcdr2 ==> |types| == |wt.types|))
       case Str(_) => wt.Str?
       case _ => rt == wt
  }

  /** The reader knows a prefix of the members. */
  predicate PrefixEvolves(c: Cfg, rs: seq<Type>, ws: seq<Type>)
    decreases rs, 0
  {
    |rs| <= |ws| && forall i :: 0 <= i < |rs| ==> Evolves(c, rs[i], ws[i])
  }

  /** Members with the same id are compatible; any other member may be on one side only. */
  predicate SharedEvolve(c: Cfg, rtags: seq<Tag>, rs: seq<Type>, wtags: seq<Tag>, ws: seq<Type>)
    decreases rs, 0
  {
    forall i, j :: 0 <= i < |rtags| && 0 <= j < |wtags| && i < |rs| && j < |ws| && rtags[i].id == wtags[j].id ==>
                     MayRead(c, rs[i], ws[j])
  }

  /** Inside an XCDR1 parameter, whose length is known, a struct may also have lost trailing members. */
  predicate MayRead(c: Cfg, rt: Type, wt: Type)
    decreases rt, 1
  {
    || Evolves(c, rt, wt)
    || (!c.xcdr2 && IsPrefixStruct(c, rt, wt))
  }

  predicate IsPrefixStruct(c: Cfg, rt: Type, wt: Type)
    decreases rt, 0
  {
    rt.Struct? && wt.Struct? && rt.ext == wt.ext && !rt.ext.Mutable? && PrefixEvolves(c, rt.types, wt.types)
  }

  /** What a reader of type `rt` sees of a value of type `wt`. */
  function Project(rt: Type, wt: Type, v: Value): Value
    decreases rt, 1
  {
    if rt.Seq? && wt.Seq? && v.List? then List(ProjectAll(rt.elem, wt.elem, v.vs))
    else if rt.Arr? && wt.Arr? && v.List? then List(ProjectAll(rt.elem, wt.elem, v.vs))
    else if rt.Struct? && wt.Struct? && v.List? then
      if rt.ext.Mutable? then List(ProjectShared(rt.tags, rt.types, wt.tags, wt.types, v.vs))
      else List(ProjectPrefix(rt.types, wt.types, v.vs))
    else v
  }

  function ProjectAll(re: Type, we: Type, vs: seq<Value>): (r: seq<Value>)
    ensures |r| == |vs|
    decreases re, 2
  {
    seq(|vs|, i requires 0 <= i < |vs| => Project(re, we, vs[i]))
  }

  function ProjectPrefix(rs: seq<Type>, ws: seq<Type>, vs: seq<Value>): (r: seq<Value>)
    ensures |r| == |rs|
    decreases rs, 2
  {
    seq(|rs|, i requires 0 <= i < |rs| => if i < |ws| && i < |vs| then Project(rs[i], ws[i], vs[i]) else Absent)
  }

  function ProjectShared(rtags: seq<Tag>, rs: seq<Type>, wtags: seq<Tag>, ws: seq<Type>, vs: seq<Value>): (r: seq<Value>)
    ensures |r| == |rs|
    decreases rs, 2
  {
    seq(|rs|, i requires 0 <= i < |rs| => if i < |rtags| then ProjectOne(rs[i], rtags[i].id, wtags, ws, vs) else Absent)
  }

  /** The member with the given id, or `Absent`. */
  function ProjectOne(t: Type, id: nat, wtags: seq<Tag>, ws: seq<Type>, vs: seq<Value>): Value
    decreases t, 2
  {
    var k := Index(wtags, id);
    if k < |wtags| && k < |ws| && k < |vs| then Project(t, ws[k], vs[k]) else Absent
  }

  function FieldBytes(r: Source, t: Type, v: Value, pos: nat): seq<byte>
    requires IsType(t) && HasType(v, t) && r.base <= pos
  {
    Layout(r.c, Field(r.c, t, v), SpOf(r, pos))
  }

  function After(r: Source, t: Type, v: Value, pos: nat): (p: nat)
    requires IsType(t) && HasType(v, t) && r.base <= pos
    ensures pos <= p
  {
    pos + |FieldBytes(r, t, v, pos)|
  }

  /** Where the body of a delimited object starts. */
  function BodyAt(r: Source, on: bool, pos: nat): (p: nat)
    requires r.base <= pos
    ensures pos <= p
  {
    if on then pos + PadAt(r, pos) + 4 else pos
  }

  /** Where the payload of a tagged member starts. */
  function PayloadAt(r: Source, tag: Tag, t: Type, v: Value, pos: nat): (p: nat)
    requires IsType(t) && HasType(v, t) && r.base <= pos
    ensures pos <= p
  {
    var at := pos + PadAt(r, pos);
    if r.c.xcdr2 then at + (if IsCompact(tag, t) then 4 else 8) else at + PidSize(tag.id, |FieldBytes(r, t, v, at + 4)|)
  }

  /**
    What the reader insists on: every sequence count on its way is at most the number of bytes behind it, and
    every text fits where the reader keeps it.
   */
  predicate FieldFits(r: Source, rt: Type, wt: Type, v: Value, pos: nat)
    requires IsType(rt) && IsType(wt) && HasType(v, wt) && r.base <= pos
    decreases wt, 3
  {
    PlainFits(r, rt, wt, v, BodyAt(r, IsFramed(r.c, wt), pos))
  }

  predicate PlainFits(r: Source, rt: Type, wt: Type, v: Value, pos: nat)
    requires IsType(rt) && IsType(wt) && HasType(v, wt) && r.base <= pos
    decreases wt, 2
  {
    if rt.Seq? && wt.Seq? then
      var p := pos + PadAt(r, pos) + 4;
      p + |v.vs| <= |r.buf| && (IsBulk(wt.elem) || ElementsFit(r, rt.elem, wt.elem, v.vs, p))
    else if rt.Arr? && wt.Arr? then
      IsBulk(wt.elem) || ElementsFit(r, rt.elem, wt.elem, v.vs, pos)
    else if rt.Struct? && wt.Struct? then
      var start := BodyAt(r, r.c.xcdr2 && !wt.ext.Final?, pos);
      if wt.ext.Mutable? then TaggedFit(r, rt.tags, rt.types, wt.tags, wt.types, v.vs, start)
      else FieldsFit(r, rt.types, wt.types, v.vs, start)
    else if rt.Str? && wt.Str? then FitsIn(v.s, rt.capacity)
    else true
  }

  predicate ElementsFit(r: Source, re: Type, we: Type, vs: seq<Value>, pos: nat)
    requires IsType(re) && IsType(we) && AllHaveType(vs, we) && r.base <= pos
    decreases we, 4, |vs|
  {
    vs == [] || (FieldFits(r, re, we, vs[0], pos) && ElementsFit(r, re, we, vs[1..], After(r, we, vs[0], pos)))
  }

  predicate FieldsFit(r: Source, rs: seq<Type>, ws: seq<Type>, vs: seq<Value>, pos: nat)
    requires AreTypes(rs) && AreTypes(ws) && HaveTypes(vs, ws) && r.base <= pos
    decreases ws, 0
  {
    || rs == [] || ws == []
    || (FieldFits(r, rs[0], ws[0], vs[0], pos) && FieldsFit(r, rs[1..], ws[1..], vs[1..], After(r, ws[0], vs[0], pos)))
  }

  predicate TaggedFit(r: Source, rtags: seq<Tag>, rs: seq<Type>, wtags: seq<Tag>, ws: seq<Type>, vs: seq<Value>, pos: nat)
    requires |rtags| == |rs| && |wtags| == |ws|
    requires AreTypes(rs) && AreTypes(ws) && HaveTypes(vs, ws) && r.base <= pos
    decreases ws, 0
  {
    ws == [] ||
    (var p := PayloadAt(r, wtags[0], ws[0], vs[0], pos);
     var k := Index(rtags, wtags[0].id);
     && (k < |rs| ==> FieldFits(r, rs[k], ws[0], vs[0], p))
     && TaggedFit(r, rtags, rs, wtags[1..], ws[1..], vs[1..], After(r, ws[0], vs[0], p)))
  }

  /** Every text the reader gets to see fits where it keeps it; this depends on the value alone. */
  predicate TextsFit(rt: Type, wt: Type, v: Value)
    requires HasType(v, wt)
    decreases wt, 1
  {
    if rt.Str? && wt.Str? then FitsIn(v.s, rt.capacity)
    else if rt.Seq? && wt.Seq? then AllTextsFit(rt.elem, wt.elem, v.vs)
    else if rt.Arr? && wt.Arr? then AllTextsFit(rt.elem, wt.elem, v.vs)
    else if rt.Struct? && wt.Struct? then
      if wt.ext.Mutable? then SharedTextsFit(rt.tags, rt.types, wt.tags, wt.types, v.vs)
      else PrefixTextsFit(rt.types, wt.types, v.vs)
    else true
  }

  predicate AllTextsFit(re: Type, we: Type, vs: seq<Value>)
    requires AllHaveType(vs, we)
    decreases we, 2
  {
    forall i :: 0 <= i < |vs| ==> TextsFit(re, we, vs[i])
  }

  predicate PrefixTextsFit(rs: seq<Type>, ws: seq<Type>, vs: seq<Value>)
    requires HaveTypes(vs, ws)
    decreases ws, 0
  {
    forall i :: 0 <= i < |rs| && i < |ws| ==> TextsFit(rs[i], ws[i], vs[i])
  }

  predicate SharedTextsFit(rtags: seq<Tag>, rs: seq<Type>, wtags: seq<Tag>, ws: seq<Type>, vs: seq<Value>)
    requires HaveTypes(vs, ws)
    decreases ws, 0
  {
    forall i :: 0 <= i < |ws| && i < |wtags| && Index(rtags, wtags[i].id) < |rs| ==>
                  TextsFit(rs[Index(rtags, wtags[i].id)], ws[i], vs[i])
  }
}
