/**
  The main theorem of the codec: for every pair of compatible types, the generated reader run over what
  the writer laid out returns the projected value and stops exactly behind the written object.
 */
module EvolutionProof {
  import opened Bytes
  import opened Scripts
  import opened WriterSteps
  import opened WriterProof
  import opened WireTypes
  import opened Decoding
  import opened Readback
  import opened Evolution

  /** The layout of `k` lies at `pos`, and its 28-bit ids and 32-bit lengths are not cut off. */
  predicate Ready(r: Source, k: Calls, pos: nat) {
    && r.base <= pos
    && IdsFit(k)
    && |Layout(r.c, k, SpOf(r, pos))| < U32
    && Holds(r, pos, Layout(r.c, k, SpOf(r, pos)))
  }

  function EndOf(r: Source, k: Calls, pos: nat): nat
    requires r.base <= pos
  {
    pos + |Layout(r.c, k, SpOf(r, pos))|
  }

  /** The value and the end position if everything fits, an error otherwise. */
  ghost predicate Gives<T>(x: Read<T>, fit: bool, v: T, end: nat) {
    if fit then x == Ok(v, end) else x.Bad?
  }

  lemma ReadyAppend(r: Source, a: Calls, b: Calls, pos: nat)
    requires Ready(r, Append(a, b), pos)
    ensures Ready(r, a, pos) && Ready(r, b, EndOf(r, a, pos))
    ensures EndOf(r, Append(a, b), pos) == EndOf(r, b, EndOf(r, a, pos))
  {
    hide Layout, IdsFit, Append, Holds;
    LayoutAppend(r.c, a, b, SpOf(r, pos));
    AppendKeeps(a, b);
    HoldsSplit(r, pos, Layout(r.c, a, SpOf(r, pos)), Layout(r.c, b, SpOf(r, EndOf(r, a, pos))));
  }

  lemma ReadyHead(r: Source, k: Calls, pos: nat)
    requires !k.Done? && Ready(r, k, pos)
    ensures var h := Head(r.c, k, SpOf(r, pos));
            && HeadIdsFit(k) && |h| < U32 && Holds(r, pos, h) && Ready(r, k.rest, pos + |h|)
            && EndOf(r, k, pos) == EndOf(r, k.rest, pos + |h|)
  {
    hide Head, Layout, IdsFit, HeadIdsFit, Holds;
    var h := Head(r.c, k, SpOf(r, pos));
    LayoutUnfold(r.c, k, SpOf(r, pos));
    IdsSplit(k);
    HoldsSplit(r, pos, h, Layout(r.c, k.rest, SpOf(r, pos) + |h|));
  }

  lemma ReadyBuf(r: Source, k: Calls, pos: nat)
    requires Ready(r, k, pos)
    ensures r.base <= pos <= EndOf(r, k, pos) <= |r.buf|
  {
    hide Layout;
  }

  /** Opening a delimited object. */
  lemma FrameReads(r: Source, k: Calls, pos: nat)
    requires Ready(r, Delimited(k, Done), pos)
    ensures var start := BodyAt(r, true, pos);
            && Ready(r, k, start)
            && ReadScalar(r, pos, 4) == Ok(EndOf(r, k, start) - start, start)
            && EndOf(r, Delimited(k, Done), pos) == EndOf(r, k, start)
  {
    hide Layout, Holds, ReadScalar, Pad, IdsFit, Put, Zeros;
    var d := Delimited(k, Done);
    var body := Layout(r.c, k, SpOf(r, BodyAt(r, true, pos)));
    LayoutOne(r.c, d, SpOf(r, pos));
    ReadyHead(r, d, pos);
    ReadsDelimiter(r, pos, body);
  }

  /** Opening a member behind an EMHEADER whose length was written afterwards. */
  lemma FramedMemberReads(r: Source, tag: Tag, t: Type, v: Value, rest: Calls, pos: nat)
    requires IsType(t) && HasType(v, t) && r.c.xcdr2 && !IsCompact(tag, t)
    requires Ready(r, Framed(tag.id, tag.mu, Field(r.c, t, v), rest), pos)
    ensures var p := PayloadAt(r, tag, t, v, pos);
            && Ready(r, Field(r.c, t, v), p) && Ready(r, rest, After(r, t, v, p)) && pos < p
            && ReadEmheader(r, pos) == Ok(EmInfo(tag.id, After(r, t, v, p) - p, tag.mu), p)
            && EndOf(r, Framed(tag.id, tag.mu, Field(r.c, t, v), rest), pos) == EndOf(r, rest, After(r, t, v, p))
  {
    hide Layout, Holds, ReadEmheader, Pad, IdsFit, Put, Zeros, Field, EmWord, HasType, IsType;
    var k := Framed(tag.id, tag.mu, Field(r.c, t, v), rest);
    var body := FieldBytes(r, t, v, pos + PadAt(r, pos) + 8);
    ReadyHead(r, k, pos);
    ReadsFramed(r, pos, tag.id, tag.mu, body);
  }

  /** Opening a member behind an EMHEADER that names its length. */
  lemma CompactMemberReads(r: Source, tag: Tag, t: Type, v: Value, rest: Calls, pos: nat)
    requires IsType(t) && HasType(v, t) && r.c.xcdr2 && IsCompact(tag, t)
    requires Ready(r, Emheader(tag.id, Width(t), tag.mu, Scalar(Width(t), v.n, rest)), pos)
    ensures var p := PayloadAt(r, tag, t, v, pos);
            && Ready(r, Field(r.c, t, v), p) && Ready(r, rest, After(r, t, v, p)) && pos < p
            && ReadEmheader(r, pos) == Ok(EmInfo(tag.id, After(r, t, v, p) - p, tag.mu), p)
            && EndOf(r, Emheader(tag.id, Width(t), tag.mu, Scalar(Width(t), v.n, rest)), pos) == EndOf(r, rest, After(r, t, v, p))
  {
    hide *;
    CompactIsScalar(tag, t, v);
    ReadyBase(r, Emheader(tag.id, Width(t), tag.mu, Scalar(Width(t), v.n, rest)), pos);
    CompactUnfold(r, tag, t, v, rest, pos);
    var k := Scalar(Width(t), v.n, rest);
    var p := PayloadAt(r, tag, t, v, pos);
    CompactHeaderReads(r, tag, Width(t), k, pos);
    ReadyAppend(r, Field(r.c, t, v), rest, p);
    AfterIsEnd(r, t, v, p);
    CompactLength(r, tag, t, v, pos);
  }

  lemma CompactIsScalar(tag: Tag, t: Type, v: Value)
    requires IsCompact(tag, t) && HasType(v, t)
    ensures IsScalar(t) && v.Num?
  {
  }

  lemma ReadyBase(r: Source, k: Calls, pos: nat)
    requires Ready(r, k, pos)
    ensures r.base <= pos
  {
    hide Layout, Holds, IdsFit;
  }

  lemma CompactUnfold(r: Source, tag: Tag, t: Type, v: Value, rest: Calls, pos: nat)
    requires IsType(t) && HasType(v, t) && r.c.xcdr2 && IsCompact(tag, t) && r.base <= pos
    ensures IsScalar(t) && v.Num? && (Width(t) == 1 || Width(t) == 2 || Width(t) == 4 || Width(t) == 8)
    ensures Scalar(Width(t), v.n, rest) == Append(Field(r.c, t, v), rest)
    ensures pos < PayloadAt(r, tag, t, v, pos) == pos + PadAt(r, pos) + 4
  {
    hide Layout, Pad;
  }

  lemma CompactHeaderReads(r: Source, tag: Tag, w: nat, k: Calls, pos: nat)
    requires r.c.xcdr2 && (w == 1 || w == 2 || w == 4 || w == 8)
    requires Ready(r, Emheader(tag.id, w, tag.mu, k), pos)
    ensures r.base <= pos
    ensures var p := pos + PadAt(r, pos) + 4;
            && Ready(r, k, p) && ReadEmheader(r, pos) == Ok(EmInfo(tag.id, w, tag.mu), p)
            && EndOf(r, Emheader(tag.id, w, tag.mu, k), pos) == EndOf(r, k, p)
  {
    hide Layout, Holds, ReadEmheader, Pad, IdsFit, Put, Zeros, EmheaderBytes, ScalarBytes;
    CompactFills(r.c, SpOf(r, pos), tag.id, w, tag.mu, 0);
    ReadyHead(r, Emheader(tag.id, w, tag.mu, k), pos);
    EmheaderLossless(r, pos, tag.id, w, tag.mu);
  }

  lemma CompactLength(r: Source, tag: Tag, t: Type, v: Value, pos: nat)
    requires IsType(t) && HasType(v, t) && r.c.xcdr2 && IsCompact(tag, t) && r.base <= pos
    ensures var p := PayloadAt(r, tag, t, v, pos); After(r, t, v, p) == p + Width(t)
  {
    CompactUnfold(r, tag, t, v, Done, pos);
    hide Layout, Pad, Put, HasType, EmheaderBytes, ScalarBytes;
    var p := PayloadAt(r, tag, t, v, pos);
    CompactFills(r.c, SpOf(r, pos), tag.id, Width(t), tag.mu, v.n);
    LayoutOne(r.c, Scalar(Width(t), v.n, Done), SpOf(r, p));
  }

  /** Opening a member behind either form of EMHEADER. */
  lemma EmMemberReads(r: Source, tag: Tag, t: Type, v: Value, rest: Calls, pos: nat)
    requires IsType(t) && HasType(v, t) && r.c.xcdr2
    requires Ready(r, Member(r.c, tag, t, v, rest), pos)
    ensures var p := PayloadAt(r, tag, t, v, pos);
            && Ready(r, Field(r.c, t, v), p) && Ready(r, rest, After(r, t, v, p)) && pos < p
            && ReadEmheader(r, pos) == Ok(EmInfo(tag.id, After(r, t, v, p) - p, tag.mu), p)
            && EndOf(r, Member(r.c, tag, t, v, rest), pos) == EndOf(r, rest, After(r, t, v, p))
  {
    hide Ready, ReadEmheader, Field, HasType, IsType, PayloadAt, After, EndOf;
    if IsCompact(tag, t) {
      CompactMemberReads(r, tag, t, v, rest, pos);
    } else {
      FramedMemberReads(r, tag, t, v, rest, pos);
    }
  }

  /** Opening a member behind a parameter header, short, extended or widened. */
  lemma PidMemberReads(r: Source, tag: Tag, t: Type, v: Value, rest: Calls, pos: nat)
    requires IsType(t) && HasType(v, t) && !r.c.xcdr2 && tag.id < U32
    requires Ready(r, Member(r.c, tag, t, v, rest), pos)
    ensures var p := PayloadAt(r, tag, t, v, pos);
            && Ready(r, Field(r.c, t, v), p) && Ready(r, rest, After(r, t, v, p)) && pos < p
            && ReadPid(r, pos) == Ok(Pid(tag.id, After(r, t, v, p) - p), p)
            && EndOf(r, Member(r.c, tag, t, v, rest), pos) == EndOf(r, rest, After(r, t, v, p))
  {
    hide Layout, Holds, ReadPid, Pad, IdsFit, Put, Zeros, Field, HasType, IsType, ShortPid, ExtendedPid;
    var k := Param(tag.id, tag.mu, Field(r.c, t, v), rest);
    var at := pos + PadAt(r, pos);
    var body := FieldBytes(r, t, v, at + 4);
    BehindEitherHeader(r.c, Field(r.c, t, v), SpOf(r, at));
    ReadyHead(r, k, pos);
    ReadsParam(r, pos, tag.id, tag.mu, body);
  }

  lemma ProjectAllCons(re: Type, we: Type, vs: seq<Value>)
    requires vs != []
    ensures ProjectAll(re, we, vs) == [Project(re, we, vs[0])] + ProjectAll(re, we, vs[1..])
  {
  }

  lemma ProjectPrefixCons(rs: seq<Type>, ws: seq<Type>, vs: seq<Value>)
    requires rs != [] && ws != [] && vs != []
    ensures ProjectPrefix(rs, ws, vs) == [Project(rs[0], ws[0], vs[0])] + ProjectPrefix(rs[1..], ws[1..], vs[1..])
  {
  }

  lemma IndexOfExtended(tags: seq<Tag>, i: nat, id: nat)
    requires i < |tags| && DistinctIds(tags)
    ensures tags[i].id == id ==> Index(tags[..i + 1], id) == i && Index(tags[..i], id) == i
    ensures tags[i].id != id && Index(tags[..i], id) < i ==> Index(tags[..i + 1], id) == Index(tags[..i], id)
    ensures tags[i].id != id && Index(tags[..i], id) == i ==> Index(tags[..i + 1], id) == i + 1
  {
    hide Index;
    var a, b := Index(tags[..i], id), Index(tags[..i + 1], id);
    if a < i { assert tags[..i][a] == tags[a]; }
    if b < i + 1 { assert tags[..i + 1][b] == tags[b]; }
  }

  /** Reading one more member puts its projection where the reader keeps that id, and touches nothing else. */
  lemma ProjectSharedStep(rtags: seq<Tag>, rs: seq<Type>, wtags: seq<Tag>, ws: seq<Type>, vs: seq<Value>, i: nat)
    requires |rtags| == |rs| && |wtags| == |ws| == |vs| && i < |ws|
    requires DistinctIds(rtags) && DistinctIds(wtags)
    ensures var k := Index(rtags, wtags[i].id);
            var acc := ProjectShared(rtags, rs, wtags[..i], ws[..i], vs[..i]);
            ProjectShared(rtags, rs, wtags[..i + 1], ws[..i + 1], vs[..i + 1])
            == if k < |rs| then acc[k := Project(rs[k], ws[i], vs[i])] else acc
  {
    hide *;
    var k := Index(rtags, wtags[i].id);
    var acc := ProjectShared(rtags, rs, wtags[..i], ws[..i], vs[..i]);
    var next := ProjectShared(rtags, rs, wtags[..i + 1], ws[..i + 1], vs[..i + 1]);
    var want := if k < |rs| then acc[k := Project(rs[k], ws[i], vs[i])] else acc;
    forall j | 0 <= j < |rs| ensures next[j] == want[j] {
      ProjectSharedAt(rtags, rs, wtags[..i], ws[..i], vs[..i], j);
      ProjectSharedAt(rtags, rs, wtags[..i + 1], ws[..i + 1], vs[..i + 1], j);
      ProjectOneStep(rs[j], rtags[j].id, wtags, ws, vs, i);
      OwnIndex(rtags, j, wtags[i].id);
    }
    assert next == want;
  }

  lemma ProjectSharedAt(rtags: seq<Tag>, rs: seq<Type>, wtags: seq<Tag>, ws: seq<Type>, vs: seq<Value>, j: nat)
    requires |rtags| == |rs| && j < |rs|
    ensures ProjectShared(rtags, rs, wtags, ws, vs)[j] == ProjectOne(rs[j], rtags[j].id, wtags, ws, vs)
  {
    hide ProjectOne;
  }

  /** One id among the first `i` members and among one more. */
  lemma ProjectOneStep(t: Type, id: nat, wtags: seq<Tag>, ws: seq<Type>, vs: seq<Value>, i: nat)
    requires |wtags| == |ws| == |vs| && i < |ws| && DistinctIds(wtags)
    ensures ProjectOne(t, id, wtags[..i + 1], ws[..i + 1], vs[..i + 1])
            == if wtags[i].id == id then Project(t, ws[i], vs[i]) else ProjectOne(t, id, wtags[..i], ws[..i], vs[..i])
  {
    hide Project, Index;
    IndexOfExtended(wtags, i, id);
  }

  lemma OwnIndex(tags: seq<Tag>, j: nat, id: nat)
    requires j < |tags| && DistinctIds(tags)
    ensures tags[j].id == id <==> Index(tags, id) == j
  {
    hide Index;
  }

  lemma ProjectSharedNone(rtags: seq<Tag>, rs: seq<Type>)
    requires |rtags| == |rs|
    ensures ProjectShared(rtags, rs, [], [], []) == Blank(|rs|)
  {
  }

  lemma ScalarReads(r: Source, t: Type, v: Value, pos: nat)
    requires IsType(t) && HasType(v, t) && IsScalar(t)
    requires Ready(r, Plain(r.c, t, v), pos) && r.base <= pos <= |r.buf|
    ensures DecodePlain(r, t, pos) == Ok(v, EndOf(r, Plain(r.c, t, v), pos))
  {
    hide Layout, Holds, ReadScalar, Pad, IdsFit, Put, Zeros, Pow256;
    PowValues();
    var k := Plain(r.c, t, v);
    LayoutOne(r.c, k, SpOf(r, pos));
    ReadyHead(r, k, pos);
    ReadsScalar(r, pos, Width(t), v.n);
  }

  /** A string is read as written if it fits where the reader keeps it, and is an overflow otherwise. */
  lemma TextReads(r: Source, rt: Type, wt: Type, v: Value, pos: nat)
    requires rt.Str? && wt.Str? && HasType(v, wt)
    requires Ready(r, Plain(r.c, wt, v), pos) && r.base <= pos <= |r.buf|
    ensures DecodePlain(r, rt, pos) ==
            if FitsIn(v.s, rt.capacity) then Ok(v, EndOf(r, Plain(r.c, wt, v), pos)) else Bad(Overflow)
  {
    hide Layout, Holds, ReadText, Pad, IdsFit, Put, Zeros;
    var k := Plain(r.c, wt, v);
    LayoutOne(r.c, k, SpOf(r, pos));
    ReadyHead(r, k, pos);
    ReadsText(r, pos, v.s);
  }

  lemma WrapNumbers(e: Type, vs: seq<Value>)
    requires IsType(e) && IsBulk(e) && AllHaveType(vs, e)
    ensures Wrap(e, Numbers(vs)) == vs
    ensures forall i :: 0 <= i < |vs| ==> Numbers(vs)[i] < Pow256(Width(e))
    ensures ProjectAll(e, e, vs) == vs
  {
    PowValues();
    hide Pow256;
  }

  lemma BulkReads(r: Source, e: Type, vs: seq<Value>, pos: nat)
    requires IsType(e) && IsBulk(e) && AllHaveType(vs, e)
    requires Ready(r, Bulk(Width(e), Numbers(vs), Done), pos) && r.base <= pos <= |r.buf|
    ensures DecodeItems(r, e, |vs|, pos) == Ok(List(vs), EndOf(r, Bulk(Width(e), Numbers(vs), Done), pos))
  {
    hide Layout, Holds, ReadBulk, Pad, IdsFit, BulkBytes, Wrap, Numbers;
    var k := Bulk(Width(e), Numbers(vs), Done);
    WrapNumbers(e, vs);
    LayoutOne(r.c, k, SpOf(r, pos));
    ReadyHead(r, k, pos);
    ReadsBulk(r, pos, Width(e), Numbers(vs));
  }

  lemma EmptyEnd(r: Source, pos: nat)
    requires r.base <= pos
    ensures EndOf(r, Done, pos) == pos
  {
  }

  lemma {:induction false} ElementsRead(r: Source, re: Type, we: Type, vs: seq<Value>, pos: nat)
    requires r.base <= pos <= |r.buf|
    requires IsType(re) && IsType(we) && AllHaveType(vs, we) && Evolves(r.c, re, we)
    requires Ready(r, Elements(r.c, we, vs), pos)
    ensures Gives(DecodeElements(r, re, |vs|, pos), ElementsFit(r, re, we, vs, pos),
                  ProjectAll(re, we, vs), EndOf(r, Elements(r.c, we, vs), pos))
    decreases we, 4, |vs|
  {
    hide *;
    if vs == [] {
      ElementsNone(r, re, we, pos);
    } else {
      ElementsUnfold(r, re, we, vs, pos);
      var f, rest := Field(r.c, we, vs[0]), Elements(r.c, we, vs[1..]);
      var p := EndOf(r, f, pos);
      ReadyAppend(r, f, rest, pos);
      ReadyBuf(r, f, pos);
      FieldReads(r, re, we, vs[0], pos);
      ElementsRead(r, re, we, vs[1..], p);
      ElementsCons(r, re, |vs|, pos, FieldFits(r, re, we, vs[0], pos), Project(re, we, vs[0]), p,
                   ElementsFit(r, re, we, vs[1..], p), ProjectAll(re, we, vs[1..]), EndOf(r, rest, p));
      ProjectAllCons(re, we, vs);
    }
  }

  lemma ElementsNone(r: Source, re: Type, we: Type, pos: nat)
    requires r.base <= pos <= |r.buf| && IsType(re) && IsType(we)
    ensures Gives(DecodeElements(r, re, 0, pos), ElementsFit(r, re, we, [], pos), ProjectAll(re, we, []),
                  EndOf(r, Elements(r.c, we, []), pos))
  {
    EmptyEnd(r, pos);
  }

  lemma ElementsUnfold(r: Source, re: Type, we: Type, vs: seq<Value>, pos: nat)
    requires r.base <= pos && vs != [] && IsType(re) && IsType(we) && AllHaveType(vs, we)
    ensures HasType(vs[0], we) && AllHaveType(vs[1..], we)
    ensures Elements(r.c, we, vs) == Append(Field(r.c, we, vs[0]), Elements(r.c, we, vs[1..]))
    ensures EndOf(r, Field(r.c, we, vs[0]), pos) == After(r, we, vs[0], pos)
    ensures ElementsFit(r, re, we, vs, pos) <==>
              FieldFits(r, re, we, vs[0], pos) && ElementsFit(r, re, we, vs[1..], After(r, we, vs[0], pos))
  {
    hide Append, Field, HasType, IsType, FieldFits, Layout;
  }

  lemma ElementsCons(r: Source, re: Type, n: nat, pos: nat, fit1: bool, v: Value, p: nat, fit2: bool, vs: seq<Value>, q: nat)
    requires IsType(re) && n > 0 && r.base <= pos <= p <= |r.buf|
    requires Gives(Decode(r, re, pos), fit1, v, p)
    requires Gives(DecodeElements(r, re, n - 1, p), fit2, vs, q)
    ensures Gives(DecodeElements(r, re, n, pos), fit1 && fit2, [v] + vs, q)
  {
    hide Decode, IsType;
  }

  /** Where a reader that knows the first members only stops. */
  function PrefixEnd(r: Source, rs: seq<Type>, ws: seq<Type>, vs: seq<Value>, pos: nat): nat
    requires AreTypes(ws) && HaveTypes(vs, ws) && r.base <= pos
    decreases ws
  {
    if rs == [] || ws == [] then pos else PrefixEnd(r, rs[1..], ws[1..], vs[1..], After(r, ws[0], vs[0], pos))
  }

  lemma {:induction false} FieldsRead(r: Source, rs: seq<Type>, ws: seq<Type>, vs: seq<Value>, pos: nat)
    requires r.base <= pos <= |r.buf|
    requires AreTypes(rs) && AreTypes(ws) && HaveTypes(vs, ws) && PrefixEvolves(r.c, rs, ws)
    requires Ready(r, Fields(r.c, ws, vs), pos)
    ensures Gives(DecodeFields(r, rs, pos), FieldsFit(r, rs, ws, vs, pos), ProjectPrefix(rs, ws, vs), PrefixEnd(r, rs, ws, vs, pos))
    ensures PrefixEnd(r, rs, ws, vs, pos) <= EndOf(r, Fields(r.c, ws, vs), pos)
    ensures |rs| == |ws| ==> PrefixEnd(r, rs, ws, vs, pos) == EndOf(r, Fields(r.c, ws, vs), pos)
    decreases ws, 0
  {
    hide *;
    if rs == [] {
      FieldsNone(r, ws, vs, pos);
    } else {
      FieldsUnfold(r, rs, ws, vs, pos);
      var f, rest := Field(r.c, ws[0], vs[0]), Fields(r.c, ws[1..], vs[1..]);
      var p := EndOf(r, f, pos);
      ReadyAppend(r, f, rest, pos);
      ReadyBuf(r, f, pos);
      FieldReads(r, rs[0], ws[0], vs[0], pos);
      FieldsRead(r, rs[1..], ws[1..], vs[1..], p);
      FieldsCons(r, rs, pos, FieldFits(r, rs[0], ws[0], vs[0], pos), Project(rs[0], ws[0], vs[0]), p,
                 FieldsFit(r, rs[1..], ws[1..], vs[1..], p), ProjectPrefix(rs[1..], ws[1..], vs[1..]),
                 PrefixEnd(r, rs[1..], ws[1..], vs[1..], p));
      ProjectPrefixCons(rs, ws, vs);
    }
  }

  lemma FieldsNone(r: Source, ws: seq<Type>, vs: seq<Value>, pos: nat)
    requires r.base <= pos <= |r.buf| && AreTypes(ws) && HaveTypes(vs, ws)
    ensures Gives(DecodeFields(r, [], pos), FieldsFit(r, [], ws, vs, pos), ProjectPrefix([], ws, vs), pos)
    ensures PrefixEnd(r, [], ws, vs, pos) == pos <= EndOf(r, Fields(r.c, ws, vs), pos)
    ensures |ws| == 0 ==> EndOf(r, Fields(r.c, ws, vs), pos) == pos
  {
    hide IsType, HasType, Field;
    if |ws| == 0 {
      EmptyEnd(r, pos);
    }
  }

  lemma FieldsUnfold(r: Source, rs: seq<Type>, ws: seq<Type>, vs: seq<Value>, pos: nat)
    requires r.base <= pos && rs != [] && AreTypes(rs) && AreTypes(ws) && HaveTypes(vs, ws) && PrefixEvolves(r.c, rs, ws)
    ensures ws != [] && vs != [] && IsType(rs[0]) && IsType(ws[0]) && HasType(vs[0], ws[0]) && Evolves(r.c, rs[0], ws[0])
    ensures AreTypes(rs[1..]) && AreTypes(ws[1..]) && HaveTypes(vs[1..], ws[1..]) && PrefixEvolves(r.c, rs[1..], ws[1..])
    ensures Fields(r.c, ws, vs) == Append(Field(r.c, ws[0], vs[0]), Fields(r.c, ws[1..], vs[1..]))
    ensures EndOf(r, Field(r.c, ws[0], vs[0]), pos) == After(r, ws[0], vs[0], pos)
    ensures PrefixEnd(r, rs, ws, vs, pos) == PrefixEnd(r, rs[1..], ws[1..], vs[1..], After(r, ws[0], vs[0], pos))
    ensures FieldsFit(r, rs, ws, vs, pos) <==>
              FieldFits(r, rs[0], ws[0], vs[0], pos) && FieldsFit(r, rs[1..], ws[1..], vs[1..], After(r, ws[0], vs[0], pos))
  {
    hide Append, Field, HasType, IsType, FieldFits, Layout, Evolves;
  }

  lemma FieldsCons(r: Source, rs: seq<Type>, pos: nat, fit1: bool, v: Value, p: nat, fit2: bool, vs: seq<Value>, q: nat)
    requires rs != [] && AreTypes(rs) && r.base <= pos <= p <= |r.buf|
    requires Gives(Decode(r, rs[0], pos), fit1, v, p)
    requires Gives(DecodeFields(r, rs[1..], p), fit2, vs, q)
    ensures Gives(DecodeFields(r, rs, pos), fit1 && fit2, [v] + vs, q)
  {
    hide Decode, IsType;
  }

  /** A reader's and a writer's version of a mutable struct, and a value of the writer's. */
  predicate Shared(c: Cfg, rtags: seq<Tag>, rs: seq<Type>, wtags: seq<Tag>, ws: seq<Type>, vs: seq<Value>) {
    && |rtags| == |rs| && |wtags| == |ws|
    && AreTypes(rs) && AreTypes(ws) && HaveTypes(vs, ws)
    && DistinctIds(rtags) && DistinctIds(wtags)
    && (forall i :: 0 <= i < |wtags| ==> wtags[i].id < U32)
    && SharedEvolve(c, rtags, rs, wtags, ws)
  }

  /** The members still to be read, as the writer laid them out. */
  function Remaining(c: Cfg, wtags: seq<Tag>, ws: seq<Type>, vs: seq<Value>, i: nat): Calls
    requires |wtags| == |ws| && AreTypes(ws) && HaveTypes(vs, ws) && i <= |ws|
  {
    Tagged(c, wtags[i..], ws[i..], vs[i..])
  }

  predicate RemainingFit(r: Source, rtags: seq<Tag>, rs: seq<Type>, wtags: seq<Tag>, ws: seq<Type>, vs: seq<Value>, i: nat, pos: nat)
    requires Shared(r.c, rtags, rs, wtags, ws, vs) && i <= |ws| && r.base <= pos
  {
    TaggedFit(r, rtags, rs, wtags[i..], ws[i..], vs[i..], pos)
  }

  /** What the reader has collected after `i` members. */
  function Collected(rtags: seq<Tag>, rs: seq<Type>, wtags: seq<Tag>, ws: seq<Type>, vs: seq<Value>, i: nat): (acc: seq<Value>)
    requires |wtags| == |ws| == |vs| && i <= |ws|
    ensures |acc| == |rs|
  {
    ProjectShared(rtags, rs, wtags[..i], ws[..i], vs[..i])
  }

  lemma SharedUnfold(r: Source, rtags: seq<Tag>, rs: seq<Type>, wtags: seq<Tag>, ws: seq<Type>, vs: seq<Value>, i: nat, pos: nat)
    requires Shared(r.c, rtags, rs, wtags, ws, vs) && i < |ws| && r.base <= pos
    ensures |rtags| == |rs| && AreTypes(rs) && |wtags| == |ws| == |vs| && wtags[i].id < U32 && IsType(ws[i]) && HasType(vs[i], ws[i])
    ensures Remaining(r.c, wtags, ws, vs, i) == Member(r.c, wtags[i], ws[i], vs[i], Remaining(r.c, wtags, ws, vs, i + 1))
    ensures var k := Index(rtags, wtags[i].id);
            var p := PayloadAt(r, wtags[i], ws[i], vs[i], pos);
            && (k < |rs| ==> IsType(rs[k]) && MayRead(r.c, rs[k], ws[i]))
            && (RemainingFit(r, rtags, rs, wtags, ws, vs, i, pos) <==>
                  (k < |rs| ==> FieldFits(r, rs[k], ws[i], vs[i], p)) &&
                  RemainingFit(r, rtags, rs, wtags, ws, vs, i + 1, After(r, ws[i], vs[i], p)))
    ensures var k := Index(rtags, wtags[i].id);
            Collected(rtags, rs, wtags, ws, vs, i + 1)
            == if k < |rs| then Collected(rtags, rs, wtags, ws, vs, i)[k := Project(rs[k], ws[i], vs[i])]
               else Collected(rtags, rs, wtags, ws, vs, i)
  {
    hide Member, Field, HasType, IsType, FieldFits, MayRead, Index, ProjectShared, Project, PayloadAt, After;
    assert wtags[i..][1..] == wtags[i + 1..] && ws[i..][1..] == ws[i + 1..] && vs[i..][1..] == vs[i + 1..];
    ProjectSharedStep(rtags, rs, wtags, ws, vs, i);
  }

  lemma SharedDone(r: Source, rtags: seq<Tag>, rs: seq<Type>, wtags: seq<Tag>, ws: seq<Type>, vs: seq<Value>, pos: nat)
    requires Shared(r.c, rtags, rs, wtags, ws, vs) && r.base <= pos
    ensures |rtags| == |rs| && AreTypes(rs) && |wtags| == |ws| == |vs|
    ensures Remaining(r.c, wtags, ws, vs, |ws|) == if r.c.xcdr2 then Done else Sentinel(Done)
    ensures RemainingFit(r, rtags, rs, wtags, ws, vs, |ws|, pos)
    ensures Collected(rtags, rs, wtags, ws, vs, |ws|) == ProjectShared(rtags, rs, wtags, ws, vs)
  {
    hide HasType, IsType, ProjectShared;
    assert wtags[..|ws|] == wtags && ws[..|ws|] == ws && vs[..|ws|] == vs;
  }

  lemma FramedKnown(r: Source, tags: seq<Tag>, types: seq<Type>, pos: nat, end: nat, acc: seq<Value>,
                    h: EmInfo, p: nat, fit1: bool, v: Value, q: nat, fit2: bool, vs: seq<Value>)
    requires |acc| == |tags| == |types| && AreTypes(types) && r.base <= pos < end && pos < p <= q <= |r.buf|
    requires ReadEmheader(r, pos) == Ok(h, p) && Index(tags, h.id) < |types|
    requires Gives(Decode(r, types[Index(tags, h.id)], p), fit1, v, q)
    requires Gives(DecodeFramed(r, tags, types, q, end, acc[Index(tags, h.id) := v]), fit2, vs, end)
    ensures Gives(DecodeFramed(r, tags, types, pos, end, acc), fit1 && fit2, vs, end)
  {
    hide Decode, ReadEmheader, IsType, Index;
  }

  lemma FramedUnknown(r: Source, tags: seq<Tag>, types: seq<Type>, pos: nat, end: nat, acc: seq<Value>,
                      h: EmInfo, p: nat, q: nat, fit: bool, vs: seq<Value>)
    requires |acc| == |tags| == |types| && AreTypes(types) && r.base <= pos < end && pos < p <= q <= |r.buf|
    requires ReadEmheader(r, pos) == Ok(h, p) && Index(tags, h.id) == |types| && h.len == q - p
    requires Gives(DecodeFramed(r, tags, types, q, end, acc), fit, vs, end)
    ensures Gives(DecodeFramed(r, tags, types, pos, end, acc), fit, vs, end)
  {
    hide Decode, ReadEmheader, IsType, Index;
  }

  lemma FramedEnd(r: Source, tags: seq<Tag>, types: seq<Type>, end: nat, acc: seq<Value>)
    requires |acc| == |tags| == |types| && AreTypes(types) && r.base <= end <= |r.buf|
    ensures DecodeFramed(r, tags, types, end, end, acc) == Ok(acc, end)
  {
    hide IsType;
  }

  lemma {:induction false} FramedRead(r: Source, rtags: seq<Tag>, rs: seq<Type>, wtags: seq<Tag>, ws: seq<Type>,
                                      vs: seq<Value>, i: nat, pos: nat, end: nat)
    requires r.base <= pos <= |r.buf| && r.c.xcdr2
    requires Shared(r.c, rtags, rs, wtags, ws, vs) && |wtags| == |ws| == |vs| && i <= |ws|
    requires |rtags| == |rs| && AreTypes(rs) && AreTypes(ws) && HaveTypes(vs, ws)
    requires Ready(r, Remaining(r.c, wtags, ws, vs, i), pos) && end == EndOf(r, Remaining(r.c, wtags, ws, vs, i), pos)
    ensures Gives(DecodeFramed(r, rtags, rs, pos, end, Collected(rtags, rs, wtags, ws, vs, i)),
                  RemainingFit(r, rtags, rs, wtags, ws, vs, i, pos), ProjectShared(rtags, rs, wtags, ws, vs), end)
    decreases ws, 1, |ws| - i
  {
    hide *;
    var acc := Collected(rtags, rs, wtags, ws, vs, i);
    if i == |ws| {
      SharedDone(r, rtags, rs, wtags, ws, vs, pos);
      EmptyEnd(r, pos);
      FramedEnd(r, rtags, rs, end, acc);
      GivesOk(DecodeFramed(r, rtags, rs, pos, end, acc), acc, end);
    } else {
      SharedUnfold(r, rtags, rs, wtags, ws, vs, i, pos);
      var id := wtags[i].id;
      var k := Index(rtags, id);
      var p := PayloadAt(r, wtags[i], ws[i], vs[i], pos);
      var q := After(r, ws[i], vs[i], p);
      var rest := Remaining(r.c, wtags, ws, vs, i + 1);
      EmMemberReads(r, wtags[i], ws[i], vs[i], rest, pos);
      ReadyBuf(r, Field(r.c, ws[i], vs[i]), p);
      AfterIsEnd(r, ws[i], vs[i], p);
      ReadyBuf(r, rest, q);
      FramedRead(r, rtags, rs, wtags, ws, vs, i + 1, q, end);
      var h := EmInfo(id, q - p, wtags[i].mu);
      var fit2 := RemainingFit(r, rtags, rs, wtags, ws, vs, i + 1, q);
      if k < |rs| {
        MayReadExactly(r.c, rs[k], ws[i]);
        FieldReads(r, rs[k], ws[i], vs[i], p);
        FramedKnown(r, rtags, rs, pos, end, acc, h, p, FieldFits(r, rs[k], ws[i], vs[i], p),
                    Project(rs[k], ws[i], vs[i]), q, fit2, ProjectShared(rtags, rs, wtags, ws, vs));
      } else {
        FramedUnknown(r, rtags, rs, pos, end, acc, h, p, q, fit2, ProjectShared(rtags, rs, wtags, ws, vs));
      }
    }
  }

  lemma GivesOk<T>(x: Read<T>, v: T, end: nat)
    requires x == Ok(v, end)
    ensures Gives(x, true, v, end)
  {
  }

  lemma GivesIf<T>(x: Read<T>, fit: bool, v: T, end: nat)
    requires x == if fit then Ok(v, end) else Bad(Overflow)
    ensures Gives(x, fit, v, end)
  {
  }

  lemma AfterIsEnd(r: Source, t: Type, v: Value, pos: nat)
    requires IsType(t) && HasType(v, t) && r.base <= pos
    ensures After(r, t, v, pos) == EndOf(r, Field(r.c, t, v), pos)
  {
    hide Layout, Field;
  }

  lemma MayReadExactly(c: Cfg, rt: Type, wt: Type)
    requires c.xcdr2 && MayRead(c, rt, wt)
    ensures Evolves(c, rt, wt)
  {
    hide Evolves;
  }

  /** Where the reader of a parameter's content stops: at its end, or earlier if it knows fewer members. */
  function SlackEnd(r: Source, rt: Type, wt: Type, v: Value, pos: nat): nat
    requires IsType(wt) && HasType(v, wt) && r.base <= pos
  {
    if Evolves(r.c, rt, wt) then After(r, wt, v, pos)
    else if rt.Struct? && wt.Struct? then PrefixEnd(r, rt.types, wt.types, v.vs, pos)
    else pos
  }

  lemma {:induction false} ContentReads(r: Source, rt: Type, wt: Type, v: Value, pos: nat)
    requires r.base <= pos <= |r.buf| && !r.c.xcdr2
    requires IsType(rt) && IsType(wt) && HasType(v, wt) && MayRead(r.c, rt, wt)
    requires Ready(r, Field(r.c, wt, v), pos)
    ensures Gives(Decode(r, rt, pos), FieldFits(r, rt, wt, v, pos), Project(rt, wt, v), SlackEnd(r, rt, wt, v, pos))
    ensures pos <= SlackEnd(r, rt, wt, v, pos) <= After(r, wt, v, pos)
    decreases wt, 4
  {
    if Evolves(r.c, rt, wt) {
      hide *;
      FieldReads(r, rt, wt, v, pos);
      AfterIsEnd(r, wt, v, pos);
      SlackExact(r, rt, wt, v, pos);
      ReadyBuf(r, Field(r.c, wt, v), pos);
    } else {
      SlackUnfold(r, rt, wt, v, pos);
      hide *;
      FieldsRead(r, rt.types, wt.types, v.vs, pos);
      AfterIsEnd(r, wt, v, pos);
      SlackGives(r, rt, wt, v, pos);
    }
  }

  lemma SlackExact(r: Source, rt: Type, wt: Type, v: Value, pos: nat)
    requires IsType(wt) && HasType(v, wt) && r.base <= pos && Evolves(r.c, rt, wt)
    ensures SlackEnd(r, rt, wt, v, pos) == After(r, wt, v, pos)
  {
    hide After, Evolves;
  }

  lemma SlackUnfold(r: Source, rt: Type, wt: Type, v: Value, pos: nat)
    requires r.base <= pos && !r.c.xcdr2 && IsType(rt) && IsType(wt) && HasType(v, wt)
    requires MayRead(r.c, rt, wt) && !Evolves(r.c, rt, wt)
    ensures rt.Struct? && wt.Struct? && v.List? && !rt.ext.Mutable? && rt.ext == wt.ext
    ensures AreTypes(rt.types) && AreTypes(wt.types) && HaveTypes(v.vs, wt.types) && PrefixEvolves(r.c, rt.types, wt.types)
    ensures Field(r.c, wt, v) == Fields(r.c, wt.types, v.vs)
  {
    hide Evolves, Fields;
  }

  lemma SlackGives(r: Source, rt: Type, wt: Type, v: Value, pos: nat)
    requires r.base <= pos <= |r.buf| && !r.c.xcdr2 && IsType(rt) && IsType(wt) && HasType(v, wt)
    requires rt.Struct? && wt.Struct? && v.List? && !rt.ext.Mutable? && rt.ext == wt.ext && !Evolves(r.c, rt, wt)
    requires AreTypes(rt.types) && AreTypes(wt.types) && HaveTypes(v.vs, wt.types)
    requires Gives(DecodeFields(r, rt.types, pos), FieldsFit(r, rt.types, wt.types, v.vs, pos),
                   ProjectPrefix(rt.types, wt.types, v.vs), PrefixEnd(r, rt.types, wt.types, v.vs, pos))
    ensures Gives(Decode(r, rt, pos), FieldFits(r, rt, wt, v, pos), Project(rt, wt, v), SlackEnd(r, rt, wt, v, pos))
    ensures SlackEnd(r, rt, wt, v, pos) == PrefixEnd(r, rt.types, wt.types, v.vs, pos) >= pos
  {
    hide Evolves, DecodeFields, FieldsFit, ProjectPrefix, HasType, IsType;
    PrefixEndBeyond(r, rt.types, wt.types, v.vs, pos);
    hide PrefixEnd;
  }

  lemma {:induction false} PrefixEndBeyond(r: Source, rs: seq<Type>, ws: seq<Type>, vs: seq<Value>, pos: nat)
    requires AreTypes(ws) && HaveTypes(vs, ws) && r.base <= pos
    ensures pos <= PrefixEnd(r, rs, ws, vs, pos)
    decreases ws
  {
    hide IsType, HasType, FieldBytes;
    if rs != [] && ws != [] {
      PrefixEndBeyond(r, rs[1..], ws[1..], vs[1..], After(r, ws[0], vs[0], pos));
    }
  }

  lemma ParamsKnown(r: Source, tags: seq<Tag>, types: seq<Type>, pos: nat, end: nat, acc: seq<Value>,
                    id: nat, p: nat, fit1: bool, v: Value, stop: nat, q: nat, fit2: bool, vs: seq<Value>)
    requires |acc| == |tags| == |types| && AreTypes(types) && r.base <= pos < p <= stop <= q <= |r.buf|
    requires ReadPid(r, pos) == Ok(Pid(id, q - p), p) && Index(tags, id) < |types|
    requires Gives(Decode(r, types[Index(tags, id)], p), fit1, v, stop)
    requires Gives(DecodeParams(r, tags, types, q, acc[Index(tags, id) := v]), fit2, vs, end)
    ensures Gives(DecodeParams(r, tags, types, pos, acc), fit1 && fit2, vs, end)
  {
    hide Decode, ReadPid, IsType, Index;
  }

  lemma ParamsUnknown(r: Source, tags: seq<Tag>, types: seq<Type>, pos: nat, end: nat, acc: seq<Value>,
                      id: nat, p: nat, q: nat, fit: bool, vs: seq<Value>)
    requires |acc| == |tags| == |types| && AreTypes(types) && r.base <= pos < p <= q <= |r.buf|
    requires ReadPid(r, pos) == Ok(Pid(id, q - p), p) && Index(tags, id) == |types|
    requires Gives(DecodeParams(r, tags, types, q, acc), fit, vs, end)
    ensures Gives(DecodeParams(r, tags, types, pos, acc), fit, vs, end)
  {
    hide Decode, ReadPid, IsType, Index;
  }

  lemma ParamsEnd(r: Source, tags: seq<Tag>, types: seq<Type>, pos: nat, acc: seq<Value>)
    requires |acc| == |tags| == |types| && AreTypes(types) && r.base <= pos <= |r.buf|
    requires Ready(r, Sentinel(Done), pos)
    ensures DecodeParams(r, tags, types, pos, acc) == Ok(acc, EndOf(r, Sentinel(Done), pos))
  {
    hide IsType, Layout, Holds, ReadPid, Put, Zeros, Pad;
    LayoutOne(r.c, Sentinel(Done), SpOf(r, pos));
    ReadyHead(r, Sentinel(Done), pos);
    ReadsSentinel(r, pos);
  }

  lemma {:induction false} ParamsRead(r: Source, rtags: seq<Tag>, rs: seq<Type>, wtags: seq<Tag>, ws: seq<Type>,
                                      vs: seq<Value>, i: nat, pos: nat, end: nat)
    requires r.base <= pos <= |r.buf| && !r.c.xcdr2
    requires Shared(r.c, rtags, rs, wtags, ws, vs) && |wtags| == |ws| == |vs| && i <= |ws|
    requires |rtags| == |rs| && AreTypes(rs) && AreTypes(ws) && HaveTypes(vs, ws)
    requires Ready(r, Remaining(r.c, wtags, ws, vs, i), pos) && end == EndOf(r, Remaining(r.c, wtags, ws, vs, i), pos)
    ensures Gives(DecodeParams(r, rtags, rs, pos, Collected(rtags, rs, wtags, ws, vs, i)),
                  RemainingFit(r, rtags, rs, wtags, ws, vs, i, pos), ProjectShared(rtags, rs, wtags, ws, vs), end)
    decreases ws, 1, |ws| - i
  {
    hide *;
    var acc := Collected(rtags, rs, wtags, ws, vs, i);
    if i == |ws| {
      SharedDone(r, rtags, rs, wtags, ws, vs, pos);
      ParamsEnd(r, rtags, rs, pos, acc);
      GivesOk(DecodeParams(r, rtags, rs, pos, acc), acc, end);
    } else {
      SharedUnfold(r, rtags, rs, wtags, ws, vs, i, pos);
      var id := wtags[i].id;
      var k := Index(rtags, id);
      var p := PayloadAt(r, wtags[i], ws[i], vs[i], pos);
      var q := After(r, ws[i], vs[i], p);
      var rest := Remaining(r.c, wtags, ws, vs, i + 1);
      PidMemberReads(r, wtags[i], ws[i], vs[i], rest, pos);
      ReadyBuf(r, Field(r.c, ws[i], vs[i]), p);
      AfterIsEnd(r, ws[i], vs[i], p);
      ReadyBuf(r, rest, q);
      ParamsRead(r, rtags, rs, wtags, ws, vs, i + 1, q, end);
      var fit2 := RemainingFit(r, rtags, rs, wtags, ws, vs, i + 1, q);
      if k < |rs| {
        ContentReads(r, rs[k], ws[i], vs[i], p);
        ParamsKnown(r, rtags, rs, pos, end, acc, id, p, FieldFits(r, rs[k], ws[i], vs[i], p),
                    Project(rs[k], ws[i], vs[i]), SlackEnd(r, rs[k], ws[i], vs[i], p), q,
                    fit2, ProjectShared(rtags, rs, wtags, ws, vs));
      } else {
        ParamsUnknown(r, rtags, rs, pos, end, acc, id, p, q, fit2, ProjectShared(rtags, rs, wtags, ws, vs));
      }
    }
  }

  lemma {:induction false} FieldReads(r: Source, rt: Type, wt: Type, v: Value, pos: nat)
    requires r.base <= pos <= |r.buf|
    requires IsType(rt) && IsType(wt) && HasType(v, wt) && Evolves(r.c, rt, wt)
    requires Ready(r, Field(r.c, wt, v), pos)
    ensures Gives(Decode(r, rt, pos), FieldFits(r, rt, wt, v, pos), Project(rt, wt, v), EndOf(r, Field(r.c, wt, v), pos))
    decreases wt, 3
  {
    hide *;
    SameFrame(r.c, rt, wt);
    var k := Plain(r.c, wt, v);
    var start := BodyAt(r, IsFramed(r.c, wt), pos);
    FieldUnfold(r, wt, v, pos);
    FrameUnfold(r, IsFramed(r.c, wt), k, pos);
    if IsFramed(r.c, wt) {
      FrameReads(r, k, pos);
    }
    ReadyBuf(r, k, start);
    PlainReads(r, rt, wt, v, start);
    FieldGives(r, rt, wt, v, pos, EndOf(r, k, start));
  }

  lemma FieldUnfold(r: Source, wt: Type, v: Value, pos: nat)
    requires IsType(wt) && HasType(v, wt)
    ensures Field(r.c, wt, v) == Frame(IsFramed(r.c, wt), Plain(r.c, wt, v))
  {
  }

  lemma FieldGives(r: Source, rt: Type, wt: Type, v: Value, pos: nat, end: nat)
    requires r.base <= pos <= |r.buf| && IsType(rt) && IsType(wt) && HasType(v, wt) && IsFramed(r.c, rt) == IsFramed(r.c, wt)
    requires var start := BodyAt(r, IsFramed(r.c, wt), pos);
             && start <= end <= |r.buf|
             && (IsFramed(r.c, wt) ==> ReadScalar(r, pos, 4) == Ok(end - start, start))
             && Gives(DecodePlain(r, rt, start), PlainFits(r, rt, wt, v, start), Project(rt, wt, v), end)
    ensures Gives(Decode(r, rt, pos), FieldFits(r, rt, wt, v, pos), Project(rt, wt, v), end)
  {
    hide DecodePlain, PlainFits, Project, ReadScalar, IsType, HasType, IsFramed, PadAt;
  }

  lemma SameFrame(c: Cfg, rt: Type, wt: Type)
    requires Evolves(c, rt, wt)
    ensures IsFramed(c, rt) == IsFramed(c, wt)
  {
    hide IsFramed;
  }

  lemma {:induction false} ItemsRead(r: Source, re: Type, we: Type, vs: seq<Value>, pos: nat)
    requires r.base <= pos <= |r.buf|
    requires IsType(re) && IsType(we) && AllHaveType(vs, we) && Evolves(r.c, re, we)
    requires Ready(r, Items(r.c, we, vs), pos)
    ensures Gives(DecodeItems(r, re, |vs|, pos), IsBulk(we) || ElementsFit(r, re, we, vs, pos),
                  List(ProjectAll(re, we, vs)), EndOf(r, Items(r.c, we, vs), pos))
    decreases we, 5
  {
    EvolvesBulk(r.c, re, we);
    if IsBulk(we) {
      WrapNumbers(we, vs);
      BulkReads(r, we, vs, pos);
    } else {
      hide Layout, Ready, DecodeElements, ElementsFit, ProjectAll, Elements, Evolves, HasType, IsType, EndOf;
      ElementsRead(r, re, we, vs, pos);
    }
  }

  lemma EvolvesBulk(c: Cfg, re: Type, we: Type)
    requires Evolves(c, re, we)
    ensures IsBulk(re) == IsBulk(we) && (IsBulk(we) ==> re == we)
  {
  }

  lemma SeqReads(r: Source, re: Type, we: Type, vs: seq<Value>, pos: nat)
    requires r.base <= pos <= |r.buf| && |vs| < U32
    requires IsType(re) && IsType(we) && AllHaveType(vs, we)
    requires Ready(r, Scalar(4, |vs|, Items(r.c, we, vs)), pos)
    ensures var p := pos + PadAt(r, pos) + 4;
            && Ready(r, Items(r.c, we, vs), p) && p <= |r.buf|
            && EndOf(r, Scalar(4, |vs|, Items(r.c, we, vs)), pos) == EndOf(r, Items(r.c, we, vs), p)
            && ReadCount(r, pos) == if p + |vs| <= |r.buf| then Ok(|vs|, p) else Bad(Underflow)
  {
    hide Layout, Holds, IdsFit, Items, ReadScalar, Put, Zeros, Pow256, HasType, IsType;
    var k := Scalar(4, |vs|, Items(r.c, we, vs));
    ReadyHead(r, k, pos);
    PowValues();
    ReadsScalar(r, pos, 4, |vs|);
    ReadyBuf(r, k.rest, pos + PadAt(r, pos) + 4);
  }

  /** An object whose body is delimited: whatever part of the body is read, the reader ends behind it. */
  lemma DelimitedReads(r: Source, types: seq<Type>, k: Calls, pos: nat, fit: bool, vs: seq<Value>, stop: nat)
    requires r.base <= pos <= |r.buf| && AreTypes(types) && Ready(r, Delimited(k, Done), pos)
    requires BodyAt(r, true, pos) <= |r.buf|
    requires Gives(DecodeFields(r, types, BodyAt(r, true, pos)), fit, vs, stop)
    ensures Gives(DecodeDelimited(r, types, pos), fit, List(vs), EndOf(r, Delimited(k, Done), pos))
  {
    hide DecodeFields, ReadScalar, Layout, IsType, Ready;
    FrameReads(r, k, pos);
    ReadyBuf(r, k, BodyAt(r, true, pos));
  }

  lemma {:induction false} MutableReads(r: Source, rtags: seq<Tag>, rs: seq<Type>, wtags: seq<Tag>, ws: seq<Type>, vs: seq<Value>, pos: nat)
    requires r.base <= pos <= |r.buf|
    requires |rtags| == |rs| && |wtags| == |ws| && AreTypes(rs) && AreTypes(ws) && HaveTypes(vs, ws)
    requires Shared(r.c, rtags, rs, wtags, ws, vs)
    requires Ready(r, Frame(r.c.xcdr2, Tagged(r.c, wtags, ws, vs)), pos)
    ensures Gives(DecodeMutable(r, rtags, rs, pos), TaggedFit(r, rtags, rs, wtags, ws, vs, BodyAt(r, r.c.xcdr2, pos)),
                  List(ProjectShared(rtags, rs, wtags, ws, vs)), EndOf(r, Frame(r.c.xcdr2, Tagged(r.c, wtags, ws, vs)), pos))
    decreases ws, 2
  {
    hide *;
    var k := Tagged(r.c, wtags, ws, vs);
    var got := ProjectShared(rtags, rs, wtags, ws, vs);
    var start := BodyAt(r, r.c.xcdr2, pos);
    FrameUnfold(r, r.c.xcdr2, k, pos);
    RemainingAll(r, rtags, rs, wtags, ws, vs, start);
    if r.c.xcdr2 {
      FrameReads(r, k, pos);
      ReadyBuf(r, k, start);
      FramedRead(r, rtags, rs, wtags, ws, vs, 0, start, EndOf(r, k, start));
      MutableFramed(r, rtags, rs, pos, start, EndOf(r, k, start), TaggedFit(r, rtags, rs, wtags, ws, vs, start), got);
    } else {
      ParamsRead(r, rtags, rs, wtags, ws, vs, 0, pos, EndOf(r, k, pos));
      MutableParams(r, rtags, rs, pos, EndOf(r, k, pos), TaggedFit(r, rtags, rs, wtags, ws, vs, start), got);
    }
  }

  lemma FrameUnfold(r: Source, on: bool, k: Calls, pos: nat)
    requires r.base <= pos
    ensures Frame(on, k) == if on then Delimited(k, Done) else k
    ensures !on ==> BodyAt(r, on, pos) == pos
  {
  }

  lemma MutableFramed(r: Source, tags: seq<Tag>, types: seq<Type>, pos: nat, start: nat, end: nat, fit: bool, vs: seq<Value>)
    requires |tags| == |types| && AreTypes(types) && r.base <= pos <= start <= end <= |r.buf| && r.c.xcdr2
    requires ReadScalar(r, pos, 4) == Ok(end - start, start)
    requires Gives(DecodeFramed(r, tags, types, start, end, Blank(|types|)), fit, vs, end)
    ensures Gives(DecodeMutable(r, tags, types, pos), fit, List(vs), end)
  {
    hide ReadScalar, DecodeFramed, IsType, Blank;
  }

  lemma MutableParams(r: Source, tags: seq<Tag>, types: seq<Type>, pos: nat, end: nat, fit: bool, vs: seq<Value>)
    requires |tags| == |types| && AreTypes(types) && r.base <= pos <= |r.buf| && !r.c.xcdr2
    requires Gives(DecodeParams(r, tags, types, pos, Blank(|types|)), fit, vs, end)
    ensures Gives(DecodeMutable(r, tags, types, pos), fit, List(vs), end)
  {
    hide DecodeParams, IsType, Blank;
  }

  lemma RemainingAll(r: Source, rtags: seq<Tag>, rs: seq<Type>, wtags: seq<Tag>, ws: seq<Type>, vs: seq<Value>, pos: nat)
    requires Shared(r.c, rtags, rs, wtags, ws, vs) && r.base <= pos
    ensures |wtags| == |ws| == |vs|
    ensures Remaining(r.c, wtags, ws, vs, 0) == Tagged(r.c, wtags, ws, vs)
    ensures RemainingFit(r, rtags, rs, wtags, ws, vs, 0, pos) == TaggedFit(r, rtags, rs, wtags, ws, vs, pos)
    ensures Collected(rtags, rs, wtags, ws, vs, 0) == Blank(|rs|)
  {
    hide Tagged, TaggedFit, IsType, HasType, ProjectShared;
    assert wtags[0..] == wtags && ws[0..] == ws && vs[0..] == vs;
    ProjectSharedNone(rtags, rs);
  }

  lemma StructUnfold(c: Cfg, rt: Type, wt: Type, v: Value)
    requires IsType(rt) && IsType(wt) && HasType(v, wt) && rt.Struct? && Evolves(c, rt, wt)
    ensures wt.Struct? && v.List? && rt.ext == wt.ext && |rt.tags| == |rt.types| && |wt.tags| == |wt.types|
    ensures AreTypes(rt.types) && AreTypes(wt.types) && HaveTypes(v.vs, wt.types)
    ensures rt.ext.Mutable? ==> Shared(c, rt.tags, rt.types, wt.tags, wt.types, v.vs)
    ensures !rt.ext.Mutable? ==> PrefixEvolves(c, rt.types, wt.types) && (rt.ext.Final? || !c.xcdr2 ==> |rt.types| == |wt.types|)
  {
  }

  lemma {:induction false} StructReads(r: Source, rt: Type, wt: Type, v: Value, pos: nat)
    requires r.base <= pos <= |r.buf|
    requires IsType(rt) && IsType(wt) && HasType(v, wt) && Evolves(r.c, rt, wt) && rt.Struct?
    requires Ready(r, Plain(r.c, wt, v), pos)
    ensures Gives(DecodePlain(r, rt, pos), PlainFits(r, rt, wt, v, pos), Project(rt, wt, v), EndOf(r, Plain(r.c, wt, v), pos))
    decreases wt, 1
  {
    StructUnfold(r.c, rt, wt, v);
    hide Ready, Fields, FieldsFit, ProjectPrefix, Tagged, TaggedFit, ProjectShared, Shared, IsType, HasType, Evolves;
    hide PrefixEvolves, DecodeFields, DecodeDelimited, DecodeMutable, EndOf, PrefixEnd, PadAt;
    if wt.ext.Mutable? {
      MutableReads(r, rt.tags, rt.types, wt.tags, wt.types, v.vs, pos);
    } else if wt.ext.Appendable? && r.c.xcdr2 {
      var k := Fields(r.c, wt.types, v.vs);
      var start := BodyAt(r, true, pos);
      FrameReads(r, k, pos);
      ReadyBuf(r, k, start);
      FieldsRead(r, rt.types, wt.types, v.vs, start);
      DelimitedReads(r, rt.types, k, pos, FieldsFit(r, rt.types, wt.types, v.vs, start),
                     ProjectPrefix(rt.types, wt.types, v.vs), PrefixEnd(r, rt.types, wt.types, v.vs, start));
    } else {
      FieldsRead(r, rt.types, wt.types, v.vs, pos);
    }
  }

  lemma LeafUnfold(r: Source, rt: Type, wt: Type, v: Value, pos: nat)
    requires r.base <= pos && IsType(rt) && IsType(wt) && HasType(v, wt) && Evolves(r.c, rt, wt)
    requires !rt.Seq? && !rt.Arr? && !rt.Struct?
    ensures Project(rt, wt, v) == v && (rt.Str? <==> wt.Str?) && (rt.Str? ==> v.Txt?)
    ensures if rt.Str? then PlainFits(r, rt, wt, v, pos) == FitsIn(v.s, rt.capacity)
            else rt == wt && IsScalar(wt) && PlainFits(r, rt, wt, v, pos)
  {
  }

  lemma CollectionUnfold(r: Source, rt: Type, wt: Type, v: Value, pos: nat)
    requires r.base <= pos && IsType(rt) && IsType(wt) && HasType(v, wt) && Evolves(r.c, rt, wt)
    requires rt.Seq? || rt.Arr?
    ensures (rt.Seq? <==> wt.Seq?) && (rt.Arr? <==> wt.Arr?) && v.List?
    ensures IsType(rt.elem) && IsType(wt.elem) && AllHaveType(v.vs, wt.elem) && Evolves(r.c, rt.elem, wt.elem)
    ensures rt.Arr? ==> |v.vs| == rt.size && Plain(r.c, wt, v) == Items(r.c, wt.elem, v.vs)
    ensures rt.Seq? ==> |v.vs| < U32 && Plain(r.c, wt, v) == Scalar(4, |v.vs|, Items(r.c, wt.elem, v.vs))
  {
  }

  /** A field of any type, without the DHEADER of its own it may have. */
  lemma {:induction false} PlainReads(r: Source, rt: Type, wt: Type, v: Value, pos: nat)
    requires r.base <= pos <= |r.buf|
    requires IsType(rt) && IsType(wt) && HasType(v, wt) && Evolves(r.c, rt, wt)
    requires Ready(r, Plain(r.c, wt, v), pos)
    ensures Gives(DecodePlain(r, rt, pos), PlainFits(r, rt, wt, v, pos), Project(rt, wt, v), EndOf(r, Plain(r.c, wt, v), pos))
    decreases wt, 2
  {
    hide *;
    if rt.Struct? {
      StructReads(r, rt, wt, v, pos);
    } else if rt.Seq? || rt.Arr? {
      CollectionUnfold(r, rt, wt, v, pos);
      if rt.Seq? {
        SeqReads(r, rt.elem, wt.elem, v.vs, pos);
        ItemsRead(r, rt.elem, wt.elem, v.vs, pos + PadAt(r, pos) + 4);
        SeqGives(r, rt, wt, v, pos);
      } else {
        ItemsRead(r, rt.elem, wt.elem, v.vs, pos);
        ArrGives(r, rt, wt, v, pos);
      }
    } else {
      LeafUnfold(r, rt, wt, v, pos);
      if rt.Str? {
        TextReads(r, rt, wt, v, pos);
        GivesIf(DecodePlain(r, rt, pos), FitsIn(v.s, rt.capacity), v, EndOf(r, Plain(r.c, wt, v), pos));
      } else {
        ScalarReads(r, rt, v, pos);
        GivesOk(DecodePlain(r, rt, pos), v, EndOf(r, Plain(r.c, wt, v), pos));
      }
    }
  }

  lemma SeqGives(r: Source, rt: Type, wt: Type, v: Value, pos: nat)
    requires r.base <= pos <= |r.buf| && IsType(rt) && IsType(wt) && HasType(v, wt) && rt.Seq? && wt.Seq? && v.List?
    requires IsType(rt.elem) && IsType(wt.elem) && AllHaveType(v.vs, wt.elem)
    requires var p := pos + PadAt(r, pos) + 4;
             && p <= |r.buf|
             && EndOf(r, Scalar(4, |v.vs|, Items(r.c, wt.elem, v.vs)), pos) == EndOf(r, Items(r.c, wt.elem, v.vs), p)
             && (ReadCount(r, pos) == if p + |v.vs| <= |r.buf| then Ok(|v.vs|, p) else Bad(Underflow))
             && Gives(DecodeItems(r, rt.elem, |v.vs|, p), IsBulk(wt.elem) || ElementsFit(r, rt.elem, wt.elem, v.vs, p),
                      List(ProjectAll(rt.elem, wt.elem, v.vs)), EndOf(r, Items(r.c, wt.elem, v.vs), p))
    ensures Gives(DecodePlain(r, rt, pos), PlainFits(r, rt, wt, v, pos), Project(rt, wt, v), EndOf(r, Plain(r.c, wt, v), pos))
  {
    hide Items, ElementsFit, ProjectAll, IsType, HasType, DecodeItems, EndOf, ReadCount, IsBulk, PadAt, AllHaveType;
  }

  lemma ArrGives(r: Source, rt: Type, wt: Type, v: Value, pos: nat)
    requires r.base <= pos <= |r.buf| && IsType(rt) && IsType(wt) && HasType(v, wt) && rt.Arr? && wt.Arr? && v.List?
    requires IsType(rt.elem) && IsType(wt.elem) && AllHaveType(v.vs, wt.elem) && |v.vs| == rt.size
    requires Gives(DecodeItems(r, rt.elem, |v.vs|, pos), IsBulk(wt.elem) || ElementsFit(r, rt.elem, wt.elem, v.vs, pos),
                   List(ProjectAll(rt.elem, wt.elem, v.vs)), EndOf(r, Items(r.c, wt.elem, v.vs), pos))
    ensures Gives(DecodePlain(r, rt, pos), PlainFits(r, rt, wt, v, pos), Project(rt, wt, v), EndOf(r, Plain(r.c, wt, v), pos))
  {
    hide Items, ElementsFit, ProjectAll, IsType, HasType, DecodeItems, EndOf, IsBulk, PadAt, AllHaveType;
  }
}
