/**
  The other direction of evolution: a reader that knows more trailing members than the writer of an appendable
  struct did.  The generated code does not look at the announced size before it reads a member, so the members the
  object lacks are taken from the bytes that follow it; afterwards the reader is behind the object all the same.
 */
module Newer {
  import opened Scripts
  import opened WriterSteps
  import opened WireTypes
  import opened Decoding
  import opened Evolution
  import opened EvolutionProof

  lemma {:induction false} DecodeFieldsAppend(r: Source, known: seq<Type>, extra: seq<Type>, pos: nat)
    requires AreTypes(known) && AreTypes(extra) && AreTypes(known + extra) && r.base <= pos <= |r.buf|
    ensures DecodeFields(r, known + extra, pos) ==
            match DecodeFields(r, known, pos)
            case Bad(err) => Bad(err)
            case Ok(xs, p) =>
              match DecodeFields(r, extra, p)
              case Bad(err) => Bad(err)
              case Ok(ys, q) => Ok(xs + ys, q)
    decreases |known|
  {
    if known == [] {
      assert known + extra == extra;
      NothingAhead(r, extra, pos);
    } else {
      assert (known + extra)[0] == known[0] && (known + extra)[1..] == known[1..] + extra;
      hide Decode, IsType;
      match Decode(r, known[0], pos)
      case Bad(_) =>
      case Ok(v, p) =>
        DecodeFieldsAppend(r, known[1..], extra, p);
        Regroup(r, known[1..], extra, v, p);
    }
  }

  lemma NothingAhead(r: Source, extra: seq<Type>, pos: nat)
    requires AreTypes(extra) && r.base <= pos <= |r.buf|
    ensures DecodeFields(r, extra, pos) ==
            match DecodeFields(r, extra, pos)
            case Bad(err) => Bad(err)
            case Ok(ys, q) => Ok([] + ys, q)
  {
    hide DecodeFields, IsType;
    match DecodeFields(r, extra, pos)
    case Bad(_) =>
    case Ok(ys, _) => assert [] + ys == ys;
  }

  lemma Regroup(r: Source, known: seq<Type>, extra: seq<Type>, v: Value, p: nat)
    requires AreTypes(known) && AreTypes(extra) && r.base <= p <= |r.buf|
    ensures var x := DecodeFields(r, known, p);
            x.Ok? ==>
              var y := DecodeFields(r, extra, x.pos);
              y.Ok? ==> [v] + (x.value + y.value) == ([v] + x.value) + y.value
  {
    hide DecodeFields, IsType;
  }

  /**
    For every object and every members gained: the members the writer had are read as ever, each of the others is
    decoded from what follows the object, and the reader ends behind the object; it fails exactly when one of
    these reads does.
   */
  lemma NewerReads(r: Source, known: seq<Type>, extra: seq<Type>, ws: seq<Type>, vs: seq<Value>, pos: nat)
    requires r.base <= pos <= |r.buf| && r.c.xcdr2 && AreTypes(known) && AreTypes(extra) && AreTypes(known + extra)
    requires AreTypes(ws) && HaveTypes(vs, ws) && |known| == |ws| && PrefixEvolves(r.c, known, ws)
    requires Ready(r, Delimited(Fields(r.c, ws, vs), Done), pos)
    ensures BodyAt(r, true, pos) >= r.base
    ensures !FieldsFit(r, known, ws, vs, BodyAt(r, true, pos)) ==> DecodeDelimited(r, known + extra, pos).Bad?
    ensures FieldsFit(r, known, ws, vs, BodyAt(r, true, pos)) ==>
              var end := EndOf(r, Delimited(Fields(r.c, ws, vs), Done), pos);
              end <= |r.buf| &&
              DecodeDelimited(r, known + extra, pos) ==
              match DecodeFields(r, extra, end)
              case Bad(err) => Bad(err)
              case Ok(ys, _) => Ok(List(ProjectPrefix(known, ws, vs) + ys), end)
  {
    hide *;
    var k := Fields(r.c, ws, vs);
    var start := BodyAt(r, true, pos);
    FrameReads(r, k, pos);
    ReadyBuf(r, k, start);
    FieldsRead(r, known, ws, vs, start);
    DecodeFieldsAppend(r, known, extra, start);
    DelimitedUnfold(r, known + extra, pos, EndOf(r, k, start) - start, start);
    KnownThenExtra(r, known, FieldsFit(r, known, ws, vs, start), ProjectPrefix(known, ws, vs), start, EndOf(r, k, start));
  }

  lemma KnownThenExtra(r: Source, known: seq<Type>, fit: bool, xs: seq<Value>, start: nat, end: nat)
    requires AreTypes(known) && r.base <= start <= |r.buf| && Gives(DecodeFields(r, known, start), fit, xs, end)
    ensures if fit then DecodeFields(r, known, start) == Ok(xs, end) else DecodeFields(r, known, start).Bad?
  {
    hide DecodeFields, IsType;
  }

  lemma DelimitedUnfold(r: Source, types: seq<Type>, pos: nat, size: nat, start: nat)
    requires AreTypes(types) && r.base <= pos <= start <= start + size <= |r.buf| && ReadScalar(r, pos, 4) == Ok(size, start)
    ensures DecodeDelimited(r, types, pos) ==
            match DecodeFields(r, types, start)
            case Bad(err) => Bad(err)
            case Ok(vs, _) => Ok(List(vs), start + size)
  {
    hide DecodeFields, ReadScalar, IsType;
  }

  /** In particular an object that ends the message cannot be read by a reader that expects one more number. */
  lemma NewerAtEnd(r: Source, known: seq<Type>, extra: seq<Type>, ws: seq<Type>, vs: seq<Value>, pos: nat)
    requires r.base <= pos <= |r.buf| && r.c.xcdr2 && AreTypes(known) && AreTypes(extra) && AreTypes(known + extra)
    requires AreTypes(ws) && HaveTypes(vs, ws) && |known| == |ws| && PrefixEvolves(r.c, known, ws)
    requires Ready(r, Delimited(Fields(r.c, ws, vs), Done), pos) && EndOf(r, Delimited(Fields(r.c, ws, vs), Done), pos) == |r.buf|
    requires extra != [] && IsScalar(extra[0])
    ensures DecodeDelimited(r, known + extra, pos).Bad?
  {
    hide *;
    NewerReads(r, known, extra, ws, vs, pos);
    NothingToRead(r, extra);
  }

  lemma NothingToRead(r: Source, extra: seq<Type>)
    requires extra != [] && AreTypes(extra) && IsScalar(extra[0]) && r.base <= |r.buf|
    ensures DecodeFields(r, extra, |r.buf|) == Bad(Underflow)
  {
    var t := extra[0];
    assert Decode(r, t, |r.buf|) == Bad(Underflow) by {
      hide Pad, DecodeItems, DecodeFields, DecodeMutable, DecodeDelimited, ReadStr, ReadCount;
      assert !IsFramed(r.c, t) && Width(t) > 0;
    }
    hide Decode;
  }
}
