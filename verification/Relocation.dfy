/**
  Decoding does not depend on where in a stream the bytes are: on arbitrary bytes, well formed or not, two readers
  whose remaining bytes are the same and whose stream positions agree modulo the largest alignment return the
  same value after the same number of bytes, or both fail.
 */
module Relocation {
  import opened Bytes
  import opened Scripts
  import opened BulkCopy
  import opened WireTypes
  import opened Decoding

  predicate Alike(r: Source, pos: nat, q: Source, qos: nat) {
    && r.c == q.c
    && r.base <= pos <= |r.buf| && q.base <= qos <= |q.buf|
    && Congruent(r.c, pos - r.base, qos - q.base)
    && r.buf[pos..] == q.buf[qos..]
  }

  ghost predicate Same<T>(x: Read<T>, pos: nat, y: Read<T>, qos: nat) {
    && (x.Ok? <==> y.Ok?)
    && (x.Bad? ==> x.error == y.error)
    && (x.Ok? ==> x.value == y.value && pos <= x.pos && x.pos - pos == y.pos - qos)
  }

  lemma AlikeCfg(r: Source, pos: nat, q: Source, qos: nat)
    requires Alike(r, pos, q, qos)
    ensures r.c == q.c && r.base <= pos <= |r.buf| && q.base <= qos <= |q.buf|
  {
  }

  lemma SliceAhead(buf: seq<byte>, pos: nat, i: nat, n: nat)
    requires pos + i + n <= |buf|
    ensures buf[pos..][i..i + n] == buf[pos + i..pos + i + n]
  {
    assert buf[pos..][i..][..n] == buf[pos + i..][..n];
  }

  lemma SameBytesAhead(r: Source, pos: nat, q: Source, qos: nat, i: nat, n: nat)
    requires Alike(r, pos, q, qos)
    ensures |r.buf| - pos == |q.buf| - qos
    ensures pos + i + n <= |r.buf| ==> r.buf[pos + i..pos + i + n] == q.buf[qos + i..qos + i + n]
  {
    assert |r.buf[pos..]| == |q.buf[qos..]|;
    if pos + i + n <= |r.buf| {
      SliceAhead(r.buf, pos, i, n);
      SliceAhead(q.buf, qos, i, n);
    }
  }

  lemma Onward(r: Source, pos: nat, q: Source, qos: nat, n: nat)
    requires Alike(r, pos, q, qos) && pos + n <= |r.buf|
    ensures Alike(r, pos + n, q, qos + n)
  {
    SameBytesAhead(r, pos, q, qos, 0, 0);
    CongruentPlus(r.c, pos - r.base, qos - q.base, n);
    assert r.buf[pos + n..] == r.buf[pos..][n..];
    assert q.buf[qos + n..] == q.buf[qos..][n..];
    hide Congruent;
  }

  /** Behind reads that ended alike, the readers are alike again. */
  lemma After<T>(r: Source, pos: nat, q: Source, qos: nat, x: Read<T>, y: Read<T>)
    requires Alike(r, pos, q, qos) && x.Ok? && Within(r, pos, x) && Same(x, pos, y, qos)
    ensures Alike(r, x.pos, q, y.pos)
    ensures r.base <= x.pos <= |r.buf| && q.base <= y.pos <= |q.buf|
  {
    Onward(r, pos, q, qos, x.pos - pos);
  }

  lemma ScalarMoves(r: Source, pos: nat, q: Source, qos: nat, w: nat)
    requires Alike(r, pos, q, qos)
    ensures Same(ReadScalar(r, pos, w), pos, ReadScalar(q, qos, w), qos)
  {
    hide Congruent, Get, PadTo, AlignOf;
    CongruentPad(r.c, pos - r.base, qos - q.base, w);
    SameBytesAhead(r, pos, q, qos, Pad(r.c, pos - r.base, AlignOf(w)), w);
  }

  lemma TextMoves(r: Source, pos: nat, q: Source, qos: nat)
    requires Alike(r, pos, q, qos)
    ensures Same(ReadText(r, pos), pos, ReadText(q, qos), qos)
  {
    hide Alike, ReadScalar;
    AlikeCfg(r, pos, q, qos);
    ScalarMoves(r, pos, q, qos, 4);
    var x := ReadScalar(r, pos, 4);
    SameBytesAhead(r, pos, q, qos, 0, 0);
    if x.Ok? && x.value > 0 {
      SameBytesAhead(r, pos, q, qos, x.pos - pos, x.value - 1);
    }
  }

  lemma CountMoves(r: Source, pos: nat, q: Source, qos: nat)
    requires Alike(r, pos, q, qos)
    ensures Same(ReadCount(r, pos), pos, ReadCount(q, qos), qos)
  {
    hide Alike, ReadScalar;
    AlikeCfg(r, pos, q, qos);
    ScalarMoves(r, pos, q, qos, 4);
    SameBytesAhead(r, pos, q, qos, 0, 0);
  }

  lemma BulkMoves(r: Source, pos: nat, q: Source, qos: nat, w: nat, n: nat)
    requires Alike(r, pos, q, qos)
    ensures Same(ReadBulk(r, pos, w, n), pos, ReadBulk(q, qos, w, n), qos)
  {
    hide Congruent, Values, PadTo, AlignOf;
    CongruentPad(r.c, pos - r.base, qos - q.base, w);
    SameBytesAhead(r, pos, q, qos, Pad(r.c, pos - r.base, AlignOf(w)), n * w);
  }

  lemma EndMoves<T>(r: Source, pos: nat, q: Source, qos: nat, v: T, start: nat, otherStart: nat, size: nat)
    requires Alike(r, pos, q, qos) && pos <= start && start - pos == otherStart - qos
    ensures Same(EndFrame(r, v, start, size), pos, EndFrame(q, v, otherStart, size), qos)
  {
    SameBytesAhead(r, pos, q, qos, 0, 0);
  }

  lemma SkipMoves(r: Source, pos: nat, q: Source, qos: nat, n: nat)
    requires Alike(r, pos, q, qos)
    ensures Same(Skip(r, pos, n), pos, Skip(q, qos, n), qos)
  {
    SameBytesAhead(r, pos, q, qos, 0, 0);
  }

  lemma EmheaderMoves(r: Source, pos: nat, q: Source, qos: nat)
    requires Alike(r, pos, q, qos)
    ensures Same(ReadEmheader(r, pos), pos, ReadEmheader(q, qos), qos)
  {
    hide Alike, ReadScalar, Get;
    AlikeCfg(r, pos, q, qos);
    ScalarMoves(r, pos, q, qos, 4);
    var x, y := ReadScalar(r, pos, 4), ReadScalar(q, qos, 4);
    if x.Ok? {
      After(r, pos, q, qos, x, y);
      ScalarMoves(r, x.pos, q, y.pos, 4);
      SameBytesAhead(r, x.pos, q, y.pos, 0, 4);
    }
  }

  lemma PidMoves(r: Source, pos: nat, q: Source, qos: nat)
    requires Alike(r, pos, q, qos)
    ensures Same(ReadPid(r, pos), pos, ReadPid(q, qos), qos)
  {
    hide Congruent, Get, PadTo;
    CongruentPad(r.c, pos - r.base, qos - q.base, 4);
    var k := Pad(r.c, pos - r.base, 4);
    SameBytesAhead(r, pos, q, qos, k, 2);
    SameBytesAhead(r, pos, q, qos, k + 2, 2);
    SameBytesAhead(r, pos, q, qos, k + 4, 4);
    SameBytesAhead(r, pos, q, qos, k + 8, 4);
  }

  /** The position independence of a field, whatever the bytes. */
  lemma {:induction false} DecodeMoves(r: Source, pos: nat, q: Source, qos: nat, t: Type)
    requires Alike(r, pos, q, qos) && IsType(t)
    ensures Same(Decode(r, t, pos), pos, Decode(q, t, qos), qos)
    decreases t, 3
  {
    hide Alike, ReadScalar, DecodePlain, IsType, IsFramed, EndFrame;
    AlikeCfg(r, pos, q, qos);
    if IsFramed(r.c, t) {
      ScalarMoves(r, pos, q, qos, 4);
      var x, y := ReadScalar(r, pos, 4), ReadScalar(q, qos, 4);
      if x.Ok? {
        After(r, pos, q, qos, x, y);
        PlainMoves(r, x.pos, q, y.pos, t);
        var v := DecodePlain(r, t, x.pos);
        if v.Ok? {
          EndMoves(r, pos, q, qos, v.value, x.pos, y.pos, x.value);
        }
      }
    } else {
      PlainMoves(r, pos, q, qos, t);
    }
  }

  lemma {:induction false} PlainMoves(r: Source, pos: nat, q: Source, qos: nat, t: Type)
    requires Alike(r, pos, q, qos) && IsType(t)
    ensures Same(DecodePlain(r, t, pos), pos, DecodePlain(q, t, qos), qos)
    decreases t, 2
  {
    hide Alike, ReadScalar, ReadText, ReadCount, DecodeItems, DecodeMutable, DecodeDelimited, DecodeFields;
    AlikeCfg(r, pos, q, qos);
    match t
    case Str(_) => TextMoves(r, pos, q, qos);
    case Seq(e) =>
      CountMoves(r, pos, q, qos);
      var x, y := ReadCount(r, pos), ReadCount(q, qos);
      if x.Ok? {
        After(r, pos, q, qos, x, y);
        ItemsMove(r, x.pos, q, y.pos, e, x.value);
      }
    case Arr(e, n) => ItemsMove(r, pos, q, qos, e, n);
    case Struct(ext, tags, types) =>
      if ext.Mutable? {
        MutableMoves(r, pos, q, qos, tags, types);
      } else if ext.Appendable? && r.c.xcdr2 {
        DelimitedMoves(r, pos, q, qos, types);
      } else {
        FieldsMove(r, pos, q, qos, types);
      }
    case _ => ScalarMoves(r, pos, q, qos, Width(t));
  }

  lemma {:induction false} ItemsMove(r: Source, pos: nat, q: Source, qos: nat, e: Type, n: nat)
    requires Alike(r, pos, q, qos) && IsType(e)
    ensures Same(DecodeItems(r, e, n, pos), pos, DecodeItems(q, e, n, qos), qos)
    decreases e, 5
  {
    hide Alike, ReadBulk, IsType, DecodeElements;
    AlikeCfg(r, pos, q, qos);
    if IsBulk(e) {
      BulkMoves(r, pos, q, qos, Width(e), n);
    } else {
      ElementsMove(r, pos, q, qos, e, n);
    }
  }

  lemma {:induction false} ElementsMove(r: Source, pos: nat, q: Source, qos: nat, e: Type, n: nat)
    requires Alike(r, pos, q, qos) && IsType(e)
    ensures Same(DecodeElements(r, e, n, pos), pos, DecodeElements(q, e, n, qos), qos)
    decreases e, 4, n
  {
    hide Alike, IsType, Decode;
    AlikeCfg(r, pos, q, qos);
    if n > 0 {
      DecodeMoves(r, pos, q, qos, e);
      var x, y := Decode(r, e, pos), Decode(q, e, qos);
      if x.Ok? {
        After(r, pos, q, qos, x, y);
        ElementsMove(r, x.pos, q, y.pos, e, n - 1);
      }
    }
  }

  lemma {:induction false} FieldsMove(r: Source, pos: nat, q: Source, qos: nat, types: seq<Type>)
    requires Alike(r, pos, q, qos) && AreTypes(types)
    ensures Same(DecodeFields(r, types, pos), pos, DecodeFields(q, types, qos), qos)
    decreases types, 0
  {
    hide Alike, Decode;
    AlikeCfg(r, pos, q, qos);
    if types != [] {
      DecodeMoves(r, pos, q, qos, types[0]);
      var x, y := Decode(r, types[0], pos), Decode(q, types[0], qos);
      if x.Ok? {
        After(r, pos, q, qos, x, y);
        FieldsMove(r, x.pos, q, y.pos, types[1..]);
      }
    }
  }

  lemma {:induction false} DelimitedMoves(r: Source, pos: nat, q: Source, qos: nat, types: seq<Type>)
    requires Alike(r, pos, q, qos) && AreTypes(types)
    ensures Same(DecodeDelimited(r, types, pos), pos, DecodeDelimited(q, types, qos), qos)
    decreases types, 1
  {
    hide Alike, ReadScalar, DecodeFields, AreTypes, EndFrame;
    AlikeCfg(r, pos, q, qos);
    ScalarMoves(r, pos, q, qos, 4);
    var x, y := ReadScalar(r, pos, 4), ReadScalar(q, qos, 4);
    if x.Ok? {
      After(r, pos, q, qos, x, y);
      FieldsMove(r, x.pos, q, y.pos, types);
      var v := DecodeFields(r, types, x.pos);
      if v.Ok? {
        EndMoves(r, pos, q, qos, List(v.value), x.pos, y.pos, x.value);
      }
    }
  }

  lemma {:induction false} MutableMoves(r: Source, pos: nat, q: Source, qos: nat, tags: seq<Tag>, types: seq<Type>)
    requires Alike(r, pos, q, qos) && AreTypes(types) && |tags| == |types|
    ensures Same(DecodeMutable(r, tags, types, pos), pos, DecodeMutable(q, tags, types, qos), qos)
    decreases types, 2
  {
    hide Alike, ReadScalar, DecodeFramed, DecodeParams, AreTypes, EndFrame;
    AlikeCfg(r, pos, q, qos);
    if r.c.xcdr2 {
      ScalarMoves(r, pos, q, qos, 4);
      var x, y := ReadScalar(r, pos, 4), ReadScalar(q, qos, 4);
      if x.Ok? {
        After(r, pos, q, qos, x, y);
        FramedMoves(r, x.pos, q, y.pos, tags, types, x.pos + x.value, y.pos + y.value, Blank(|types|));
        var v := DecodeFramed(r, tags, types, x.pos, x.pos + x.value, Blank(|types|));
        if v.Ok? {
          EndMoves(r, pos, q, qos, List(v.value), x.pos, y.pos, x.value);
        }
      }
    } else {
      ParamsMove(r, pos, q, qos, tags, types, Blank(|types|));
    }
  }

  lemma {:induction false} FramedMoves(
    r: Source, pos: nat, q: Source, qos: nat, tags: seq<Tag>, types: seq<Type>, end: nat, qnd: nat, acc: seq<Value>)
    requires Alike(r, pos, q, qos) && AreTypes(types) && |acc| == |tags| == |types| && end - pos == qnd - qos
    ensures Same(DecodeFramed(r, tags, types, pos, end, acc), pos, DecodeFramed(q, tags, types, qos, qnd, acc), qos)
    decreases types, 1, |r.buf| - pos
  {
    hide Alike, ReadEmheader, AreTypes, Decode, Skip, Index;
    AlikeCfg(r, pos, q, qos);
    if pos < end {
      EmheaderMoves(r, pos, q, qos);
      var x, y := ReadEmheader(r, pos), ReadEmheader(q, qos);
      if x.Ok? {
        After(r, pos, q, qos, x, y);
        var k := Index(tags, x.value.id);
        if k < |types| {
          KnownType(types, k);
          DecodeMoves(r, x.pos, q, y.pos, types[k]);
          var v, w := Decode(r, types[k], x.pos), Decode(q, types[k], y.pos);
          if v.Ok? {
            After(r, x.pos, q, y.pos, v, w);
            FramedMoves(r, v.pos, q, w.pos, tags, types, end, qnd, acc[k := v.value]);
          }
        } else {
          SkipMoves(r, x.pos, q, y.pos, x.value.len);
          var v, w := Skip(r, x.pos, x.value.len), Skip(q, y.pos, x.value.len);
          if v.Ok? {
            After(r, x.pos, q, y.pos, v, w);
            FramedMoves(r, v.pos, q, w.pos, tags, types, end, qnd, acc);
          }
        }
      }
    }
  }

  lemma KnownType(types: seq<Type>, k: nat)
    requires AreTypes(types) && k < |types|
    ensures IsType(types[k])
  {
  }

  lemma {:induction false} ParamsMove(
    r: Source, pos: nat, q: Source, qos: nat, tags: seq<Tag>, types: seq<Type>, acc: seq<Value>)
    requires Alike(r, pos, q, qos) && AreTypes(types) && |acc| == |tags| == |types|
    ensures Same(DecodeParams(r, tags, types, pos, acc), pos, DecodeParams(q, tags, types, qos, acc), qos)
    decreases types, 1, |r.buf| - pos
  {
    hide Alike, ReadPid, AreTypes, Decode, Skip, Index;
    AlikeCfg(r, pos, q, qos);
    PidMoves(r, pos, q, qos);
    var x, y := ReadPid(r, pos), ReadPid(q, qos);
    if x.Ok? && x.value.Pid? {
      After(r, pos, q, qos, x, y);
      var k, len := Index(tags, x.value.id), x.value.len;
      if k < |types| {
        KnownType(types, k);
        DecodeMoves(r, x.pos, q, y.pos, types[k]);
        var v, w := Decode(r, types[k], x.pos), Decode(q, types[k], y.pos);
        if v.Ok? {
          After(r, x.pos, q, y.pos, v, w);
          if v.pos - x.pos < len {
            var rest := len - (v.pos - x.pos);
            SkipMoves(r, v.pos, q, w.pos, rest);
            var s, u := Skip(r, v.pos, rest), Skip(q, w.pos, rest);
            if s.Ok? {
              After(r, v.pos, q, w.pos, s, u);
              ParamsMove(r, s.pos, q, u.pos, tags, types, acc[k := v.value]);
            }
          } else {
            ParamsMove(r, v.pos, q, w.pos, tags, types, acc[k := v.value]);
          }
        }
      } else {
        SkipMoves(r, x.pos, q, y.pos, len);
        var v, w := Skip(r, x.pos, len), Skip(q, y.pos, len);
        if v.Ok? {
          After(r, x.pos, q, y.pos, v, w);
          ParamsMove(r, v.pos, q, w.pos, tags, types, acc);
        }
      }
    }
  }
}
