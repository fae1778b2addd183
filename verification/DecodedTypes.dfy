/**
  Whatever the bytes: what a deserializer returns is a value of its type, and what it reports is an underflow, or an
  overflow of a text it was to copy.
 */
module DecodedTypes {
  import opened Bytes
  import opened BulkCopy
  import opened Scripts
  import opened WriterSteps
  import opened WireTypes
  import opened Decoding

  /** Like `HasType`, with members of mutable structs that the stream may lack. */
  predicate Looks(v: Value, t: Type)
    decreases t
  {
    match t
    case Bool => v == Num(0) || v == Num(1)
    case Int(w) => v.Num? && v.n < Pow256(w)
    case Quad => v.Num? && v.n < Pow256(16)
    case Enum => v.Num? && v.n < Pow256(4)
    case Str(capacity) => v.Txt? && (capacity.Some? ==> |v.s| + 1 <= capacity.value)
    case Seq(e) => v.List? && |v.vs| < 0x1_0000_0000 && (forall i :: 0 <= i < |v.vs| ==> Looks(v.vs[i], e))
    case Arr(e, n) => v.List? && |v.vs| == n && (forall i :: 0 <= i < |v.vs| ==> Looks(v.vs[i], e))
    case Struct(ext, _, types) =>
      && v.List? && |v.vs| == |types|
      && (forall i :: 0 <= i < |types| ==> (ext == Mutable && v.vs[i] == Absent) || Looks(v.vs[i], types[i]))
  }

  predicate AllLook(vs: seq<Value>, e: Type) {
    forall i :: 0 <= i < |vs| ==> Looks(vs[i], e)
  }

  predicate EachLooks(vs: seq<Value>, types: seq<Type>) {
    |vs| == |types| && forall i :: 0 <= i < |types| ==> Looks(vs[i], types[i])
  }

  predicate SomeLook(vs: seq<Value>, types: seq<Type>) {
    |vs| == |types| && forall i :: 0 <= i < |types| ==> vs[i] == Absent || Looks(vs[i], types[i])
  }

  /** There is a string in it that is copied to an array. */
  predicate Copies(t: Type) {
    match t
    case Str(capacity) => capacity.Some?
    case Seq(e) => Copies(e)
    case Arr(e, _) => Copies(e)
    case Struct(_, _, types) => exists i :: 0 <= i < |types| && Copies(types[i])
    case _ => false
  }

  predicate AnyCopies(types: seq<Type>) {
    exists i :: 0 <= i < |types| && Copies(types[i])
  }

  predicate Tells<T>(x: Read<T>, copies: bool) {
    x.Bad? ==> x.error == Underflow || (x.error == Overflow && copies)
  }

  lemma TailCopies(types: seq<Type>)
    requires types != []
    ensures AnyCopies(types) <==> Copies(types[0]) || AnyCopies(types[1..])
  {
    hide Copies;
    if AnyCopies(types[1..]) {
      var i :| 0 <= i < |types[1..]| && Copies(types[1..][i]);
      assert Copies(types[i + 1]);
    }
    if i :| 0 < i < |types| && Copies(types[i]) {
      assert Copies(types[1..][i - 1]);
    }
  }

  lemma {:induction false} DecodedTyped(r: Source, t: Type, pos: nat)
    requires IsType(t) && r.base <= pos <= |r.buf|
    ensures Decode(r, t, pos).Ok? ==> Looks(Decode(r, t, pos).value, t)
    ensures Tells(Decode(r, t, pos), Copies(t))
    decreases t, 3
  {
    hide DecodePlain, Looks, ReadScalar, IsType, IsFramed, Copies;
    WordFails(r, pos);
    if IsFramed(r.c, t) {
      var h := ReadScalar(r, pos, 4);
      if h.Ok? {
        PlainTyped(r, t, h.pos);
      }
    } else {
      PlainTyped(r, t, pos);
    }
  }

  lemma {:induction false} PlainTyped(r: Source, t: Type, pos: nat)
    requires IsType(t) && r.base <= pos <= |r.buf|
    ensures DecodePlain(r, t, pos).Ok? ==> Looks(DecodePlain(r, t, pos).value, t)
    ensures Tells(DecodePlain(r, t, pos), Copies(t))
    decreases t, 2
  {
    match t
    case Str(_) =>
      hide *;
      TextTyped(r, t, pos);
    case Seq(e) =>
      hide *;
      SeqTyped(r, e, pos);
    case Arr(e, n) =>
      hide *;
      ItemsTyped(r, e, n, pos);
      ArrTyped(r, e, n, pos);
    case Struct(_, _, _) =>
      hide *;
      StructTyped(r, t, pos);
    case _ =>
      assert IsScalar(t);
      hide *;
      NumberTyped(r, t, pos);
  }

  lemma TextTyped(r: Source, t: Type, pos: nat)
    requires t.Str? && IsType(t) && r.base <= pos <= |r.buf|
    ensures DecodePlain(r, t, pos).Ok? ==> Looks(DecodePlain(r, t, pos).value, t)
    ensures Tells(DecodePlain(r, t, pos), Copies(t))
  {
    TextFails(r, pos);
    hide ReadText;
  }

  lemma NumberTyped(r: Source, t: Type, pos: nat)
    requires IsScalar(t) && IsType(t) && r.base <= pos <= |r.buf|
    ensures DecodePlain(r, t, pos).Ok? ==> Looks(DecodePlain(r, t, pos).value, t)
    ensures Tells(DecodePlain(r, t, pos), Copies(t))
  {
    NumberFails(r, pos, Width(t));
    NumberBound(r, pos, Width(t));
    hide ReadScalar, Pow256;
  }

  lemma {:induction false} SeqTyped(r: Source, e: Type, pos: nat)
    requires IsType(Seq(e)) && r.base <= pos <= |r.buf|
    ensures DecodePlain(r, Seq(e), pos).Ok? ==> Looks(DecodePlain(r, Seq(e), pos).value, Seq(e))
    ensures Tells(DecodePlain(r, Seq(e), pos), Copies(Seq(e)))
    decreases Seq(e), 1
  {
    hide DecodeItems, ReadCount;
    CountFails(r, pos);
    var n := ReadCount(r, pos);
    if n.Ok? {
      CountBound(r, pos);
      ItemsTyped(r, e, n.value, n.pos);
    }
  }

  lemma ArrTyped(r: Source, e: Type, n: nat, pos: nat)
    requires IsType(Arr(e, n)) && IsType(e) && r.base <= pos <= |r.buf|
    requires var x := DecodeItems(r, e, n, pos);
             Tells(x, Copies(e)) && (x.Ok? ==> x.value.List? && |x.value.vs| == n && AllLook(x.value.vs, e))
    ensures DecodePlain(r, Arr(e, n), pos).Ok? ==> Looks(DecodePlain(r, Arr(e, n), pos).value, Arr(e, n))
    ensures Tells(DecodePlain(r, Arr(e, n), pos), Copies(Arr(e, n)))
  {
    hide DecodeItems;
  }

  lemma {:induction false} StructTyped(r: Source, t: Type, pos: nat)
    requires t.Struct? && IsType(t) && r.base <= pos <= |r.buf|
    ensures DecodePlain(r, t, pos).Ok? ==> Looks(DecodePlain(r, t, pos).value, t)
    ensures Tells(DecodePlain(r, t, pos), Copies(t))
    decreases t, 1
  {
    StructTypes(t);
    assert Copies(t) == AnyCopies(t.types);
    hide DecodeMutable, DecodeDelimited, DecodeFields, IsType, Copies;
    if t.ext.Mutable? {
      MutableTyped(r, t.tags, t.types, pos);
    } else if t.ext.Appendable? && r.c.xcdr2 {
      DelimitedTyped(r, t.types, pos);
    } else {
      FieldsTyped(r, t.types, pos);
    }
  }

  lemma NumberFails(r: Source, pos: nat, w: nat)
    requires r.base <= pos
    ensures Tells(ReadScalar(r, pos, w), false)
  {
  }

  lemma WordFails(r: Source, pos: nat)
    requires r.base <= pos
    ensures Tells(ReadScalar(r, pos, 4), false)
  {
    NumberFails(r, pos, 4);
  }

  lemma TextFails(r: Source, pos: nat)
    requires r.base <= pos
    ensures Tells(ReadText(r, pos), false)
  {
    hide ReadScalar;
    WordFails(r, pos);
  }

  lemma CountFails(r: Source, pos: nat)
    requires r.base <= pos
    ensures Tells(ReadCount(r, pos), false)
  {
    hide ReadScalar;
    WordFails(r, pos);
  }

  lemma BulkFails(r: Source, w: nat, n: nat, pos: nat)
    requires r.base <= pos <= |r.buf|
    ensures Tells(ReadBulk(r, pos, w, n), false)
  {
    hide Values, Pad;
  }

  lemma EmheaderFails(r: Source, pos: nat)
    requires r.base <= pos
    ensures Tells(ReadEmheader(r, pos), false)
  {
    var h := ReadScalar(r, pos, 4);
    hide ReadScalar, Get;
    WordFails(r, pos);
    if h.Ok? {
      WordFails(r, h.pos);
    }
  }

  lemma PidFails(r: Source, pos: nat)
    requires r.base <= pos
    ensures Tells(ReadPid(r, pos), false)
  {
    hide Get, Pad;
  }

  lemma StructTypes(t: Type)
    requires t.Struct? && IsType(t)
    ensures |t.tags| == |t.types| && AreTypes(t.types)
  {
  }

  lemma NumberBound(r: Source, pos: nat, w: nat)
    requires r.base <= pos
    ensures ReadScalar(r, pos, w).Ok? ==> ReadScalar(r, pos, w).value < Pow256(w)
  {
    hide Pad, AlignOf, Get;
    var p := pos + Pad(r.c, pos - r.base, AlignOf(w));
    if p + w <= |r.buf| {
      PutGet(r.buf[p..p + w], r.c.le);
    }
  }

  lemma CountBound(r: Source, pos: nat)
    requires r.base <= pos
    ensures ReadCount(r, pos).Ok? ==> ReadCount(r, pos).value < 0x1_0000_0000
  {
    NumberBound(r, pos, 4);
    PowValues();
    hide ReadScalar, Pow256;
  }

  lemma {:induction false} ItemsTyped(r: Source, e: Type, n: nat, pos: nat)
    requires IsType(e) && r.base <= pos <= |r.buf|
    ensures DecodeItems(r, e, n, pos).Ok? ==>
              DecodeItems(r, e, n, pos).value.List? && |DecodeItems(r, e, n, pos).value.vs| == n && AllLook(DecodeItems(r, e, n, pos).value.vs, e)
    ensures Tells(DecodeItems(r, e, n, pos), Copies(e))
    decreases e, 5
  {
    if IsBulk(e) {
      BulkFails(r, Width(e), n, pos);
      hide ReadBulk;
      BulkTyped(r, e, n, pos);
    } else {
      hide DecodeElements, Looks, IsType;
      ElementsTyped(r, e, n, pos);
    }
  }

  lemma {:induction false} ValuesBound(data: seq<byte>, n: nat, w: nat, le: bool)
    requires |data| == n * w
    ensures forall i :: 0 <= i < n ==> Values(data, n, w, le)[i] < Pow256(w)
    decreases n
  {
    hide Get, Pow256;
    if n > 0 {
      NextOffset(n, w);
      ValuesBound(data[..(n - 1) * w], n - 1, w, le);
      PutGet(data[(n - 1) * w..], le);
    }
  }

  lemma BulkTyped(r: Source, e: Type, n: nat, pos: nat)
    requires IsType(e) && IsBulk(e) && IsScalar(e) && r.base <= pos <= |r.buf|
    ensures ReadBulk(r, pos, Width(e), n).Ok? ==> AllLook(Wrap(e, ReadBulk(r, pos, Width(e), n).value), e)
  {
    hide *;
    var x := ReadBulk(r, pos, Width(e), n);
    if x.Ok? {
      BulkBound(r, Width(e), n, pos);
      WrappedLook(e, x.value);
    }
  }

  lemma BulkBound(r: Source, w: nat, n: nat, pos: nat)
    requires r.base <= pos <= |r.buf|
    ensures var x := ReadBulk(r, pos, w, n); x.Ok? ==> forall i :: 0 <= i < |x.value| ==> x.value[i] < Pow256(w)
  {
    hide Pad, AlignOf, Values, Pow256;
    var p := pos + Pad(r.c, pos - r.base, AlignOf(w));
    if n > 0 && p + n * w <= |r.buf| {
      ValuesBound(r.buf[p..p + n * w], n, w, r.c.le);
    }
  }

  lemma WrappedLook(e: Type, ns: seq<nat>)
    requires IsType(e) && IsBulk(e) && IsScalar(e) && forall i :: 0 <= i < |ns| ==> ns[i] < Pow256(Width(e))
    ensures AllLook(Wrap(e, ns), e)
  {
    hide Pow256;
  }

  lemma {:induction false} ElementsTyped(r: Source, e: Type, n: nat, pos: nat)
    requires IsType(e) && r.base <= pos <= |r.buf|
    ensures DecodeElements(r, e, n, pos).Ok? ==> |DecodeElements(r, e, n, pos).value| == n && AllLook(DecodeElements(r, e, n, pos).value, e)
    ensures Tells(DecodeElements(r, e, n, pos), Copies(e))
    decreases e, 4, n
  {
    hide Decode, Looks, IsType;
    if n > 0 {
      var x := Decode(r, e, pos);
      DecodedTyped(r, e, pos);
      if x.Ok? {
        ElementsTyped(r, e, n - 1, x.pos);
      }
    }
  }

  lemma {:induction false} FieldsTyped(r: Source, types: seq<Type>, pos: nat)
    requires AreTypes(types) && r.base <= pos <= |r.buf|
    ensures DecodeFields(r, types, pos).Ok? ==> EachLooks(DecodeFields(r, types, pos).value, types)
    ensures Tells(DecodeFields(r, types, pos), AnyCopies(types))
    decreases types, 0
  {
    hide Decode, Looks, IsType, Copies, AnyCopies;
    if types != [] {
      TailCopies(types);
      var x := Decode(r, types[0], pos);
      DecodedTyped(r, types[0], pos);
      if x.Ok? {
        FieldsTyped(r, types[1..], x.pos);
      }
    }
  }

  lemma {:induction false} DelimitedTyped(r: Source, types: seq<Type>, pos: nat)
    requires AreTypes(types) && r.base <= pos <= |r.buf|
    ensures DecodeDelimited(r, types, pos).Ok? ==>
              DecodeDelimited(r, types, pos).value.List? && EachLooks(DecodeDelimited(r, types, pos).value.vs, types)
    ensures Tells(DecodeDelimited(r, types, pos), AnyCopies(types))
    decreases types, 1
  {
    hide DecodeFields, ReadScalar, Looks, IsType, Copies, AnyCopies;
    WordFails(r, pos);
    var h := ReadScalar(r, pos, 4);
    if h.Ok? {
      FieldsTyped(r, types, h.pos);
    }
  }

  lemma {:induction false} MutableTyped(r: Source, tags: seq<Tag>, types: seq<Type>, pos: nat)
    requires |tags| == |types| && AreTypes(types) && r.base <= pos <= |r.buf|
    ensures DecodeMutable(r, tags, types, pos).Ok? ==>
              DecodeMutable(r, tags, types, pos).value.List? && SomeLook(DecodeMutable(r, tags, types, pos).value.vs, types)
    ensures Tells(DecodeMutable(r, tags, types, pos), AnyCopies(types))
    decreases types, 2
  {
    hide DecodeFramed, DecodeParams, ReadScalar, Looks, IsType, Copies, AnyCopies, SomeLook, Blank;
    WordFails(r, pos);
    var blank := Blank(|types|);
    BlankLooks(types);
    if r.c.xcdr2 {
      var h := ReadScalar(r, pos, 4);
      if h.Ok? {
        FramedTyped(r, tags, types, h.pos, h.pos + h.value, blank);
      }
    } else {
      ParamsTyped(r, tags, types, pos, blank);
    }
  }

  lemma OneCopies(types: seq<Type>, k: nat)
    requires k < |types|
    ensures Copies(types[k]) ==> AnyCopies(types)
  {
  }

  lemma StillLook(acc: seq<Value>, types: seq<Type>, k: nat, v: Value)
    requires SomeLook(acc, types) && k < |types| && Looks(v, types[k])
    ensures |acc| == |types| && SomeLook(acc[k := v], types)
  {
    hide Looks;
  }

  lemma BlankLooks(types: seq<Type>)
    ensures SomeLook(Blank(|types|), types)
  {
    hide Looks;
  }

  lemma {:induction false} FramedTyped(r: Source, tags: seq<Tag>, types: seq<Type>, pos: nat, end: nat, acc: seq<Value>)
    requires |acc| == |tags| == |types| && AreTypes(types) && r.base <= pos <= |r.buf| && SomeLook(acc, types)
    ensures DecodeFramed(r, tags, types, pos, end, acc).Ok? ==> SomeLook(DecodeFramed(r, tags, types, pos, end, acc).value, types)
    ensures Tells(DecodeFramed(r, tags, types, pos, end, acc), AnyCopies(types))
    decreases types, 1, |r.buf| - pos
  {
    hide Decode, Looks, ReadEmheader, Copies, AnyCopies, SomeLook, IsType;
    EmheaderFails(r, pos);
    if pos < end {
      var h := ReadEmheader(r, pos);
      if h.Ok? {
        var k := Index(tags, h.value.id);
        if k < |types| {
          DecodedTyped(r, types[k], h.pos);
          var x := Decode(r, types[k], h.pos);
          OneCopies(types, k);
          if x.Ok? {
            StillLook(acc, types, k, x.value);
            FramedTyped(r, tags, types, x.pos, end, acc[k := x.value]);
          }
        } else if h.pos + h.value.len <= |r.buf| {
          FramedTyped(r, tags, types, h.pos + h.value.len, end, acc);
        }
      }
    }
  }

  lemma {:induction false} ParamsTyped(r: Source, tags: seq<Tag>, types: seq<Type>, pos: nat, acc: seq<Value>)
    requires |acc| == |tags| == |types| && AreTypes(types) && r.base <= pos <= |r.buf| && SomeLook(acc, types)
    ensures DecodeParams(r, tags, types, pos, acc).Ok? ==> SomeLook(DecodeParams(r, tags, types, pos, acc).value, types)
    ensures Tells(DecodeParams(r, tags, types, pos, acc), AnyCopies(types))
    decreases types, 1, |r.buf| - pos
  {
    hide Decode, Looks, ReadPid, Copies, AnyCopies, SomeLook, IsType;
    PidFails(r, pos);
    var h := ReadPid(r, pos);
    if h.Ok? && h.value.Pid? {
      var k, len := Index(tags, h.value.id), h.value.len;
      if k < |types| {
        DecodedTyped(r, types[k], h.pos);
        var x := Decode(r, types[k], h.pos);
        OneCopies(types, k);
        if x.Ok? {
          StillLook(acc, types, k, x.value);
          if x.pos - h.pos >= len {
            ParamsTyped(r, tags, types, x.pos, acc[k := x.value]);
          } else if h.pos + len <= |r.buf| {
            ParamsTyped(r, tags, types, h.pos + len, acc[k := x.value]);
          }
        }
      } else if h.pos + len <= |r.buf| {
        ParamsTyped(r, tags, types, h.pos + len, acc);
      }
    }
  }

  predicate HasMutable(t: Type) {
    match t
    case Seq(e) => HasMutable(e)
    case Arr(e, _) => HasMutable(e)
    case Struct(ext, _, types) => ext == Mutable || exists i :: 0 <= i < |types| && HasMutable(types[i])
    case _ => false
  }

  /** Without mutable structs nothing can be lacking: exactly the values of the type look like it. */
  lemma {:induction false} LooksIff(v: Value, t: Type)
    requires IsType(t) && !HasMutable(t)
    ensures Looks(v, t) <==> HasType(v, t)
    decreases t, 0
  {
    match t
    case Seq(e) =>
      if v.List? { AllLooksIff(v.vs, e); }
    case Arr(e, _) =>
      if v.List? { AllLooksIff(v.vs, e); }
    case Struct(_, _, types) =>
      if v.List? && |v.vs| == |types| {
        forall i | 0 <= i < |types| ensures Looks(v.vs[i], types[i]) <==> HasType(v.vs[i], types[i]) {
          LooksIff(v.vs[i], types[i]);
        }
      }
    case _ =>
  }

  lemma {:induction false} AllLooksIff(vs: seq<Value>, e: Type)
    requires IsType(e) && !HasMutable(e)
    ensures forall i :: 0 <= i < |vs| ==> (Looks(vs[i], e) <==> HasType(vs[i], e))
    decreases e, 1
  {
    hide Looks, HasType;
    forall i | 0 <= i < |vs| ensures Looks(vs[i], e) <==> HasType(vs[i], e) {
      LooksIff(vs[i], e);
    }
  }

  /** So whatever was decoded can be written again. */
  lemma DecodedCanBeWritten(r: Source, t: Type, pos: nat)
    requires IsType(t) && !HasMutable(t) && r.base <= pos <= |r.buf| && Decode(r, t, pos).Ok?
    ensures HasType(Decode(r, t, pos).value, t)
  {
    hide *;
    DecodedTyped(r, t, pos);
    LooksIff(Decode(r, t, pos).value, t);
  }
}
