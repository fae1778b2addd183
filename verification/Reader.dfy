/**
  The CDR reader: a cursor over received bytes with a sticky error, and on top of it the deserializer
  that generated code runs.  Every read returns what `Decoding` says about the bytes at the cursor.
 */
module CdrReader {
  import opened Bytes
  import opened RawStores
  import opened BulkCopy
  import opened Scripts
  import opened WriterSteps
  import opened WireTypes
  import opened Decoding

  /** Byte order and version named by an encapsulation identifier. */
  function EncapCfg(id: nat): Read<Cfg> {
    if id == 0x0001 || id == 0x0003 then Ok(Cfg(true, false), 4)
    else if id == 0x0000 || id == 0x0002 then Ok(Cfg(false, false), 4)
    else if id == 0x0007 || id == 0x0009 || id == 0x000B then Ok(Cfg(true, true), 4)
    else if id == 0x0006 || id == 0x0008 || id == 0x000A then Ok(Cfg(false, true), 4)
    else Bad(InvalidEncap)
  }

  class Reader {
    const buf: seq<byte>
    const headerSize: nat
    const littleEndian: bool
    const xcdr2: bool
    const hostLe: bool
    var pos: nat
    var error: Error

    ghost predicate Valid()
      reads this
    {
      headerSize <= pos <= |buf|
    }

    ghost function Src(): Source {
      Source(buf, headerSize, Cfg(littleEndian, xcdr2))
    }

    constructor (buf: seq<byte>, headerSize: nat, littleEndian: bool, xcdr2: bool, hostLe: bool)
      requires headerSize <= |buf|
      ensures Valid() && error == OK && pos == headerSize && this.hostLe == hostLe
      ensures Src() == Source(buf, headerSize, Cfg(littleEndian, xcdr2))
    {
      this.buf, this.headerSize, this.littleEndian, this.xcdr2 := buf, headerSize, littleEndian, xcdr2;
      this.hostLe, pos, error := hostLe, headerSize, OK;
    }

    /** reader_init: the header picks byte order and version; a failed init leaves no reader */
    static method Open(buf: seq<byte>, hostLe: bool) returns (r: Reader?, e: Error)
      ensures e == (if |buf| < 4 then Underflow
                    else if EncapCfg(Get(buf[..2], false)).Bad? then InvalidEncap else OK)
      ensures e == OK <==> r != null
      ensures r != null ==> fresh(r) && r.Valid() && r.error == OK && r.pos == 4 && r.hostLe == hostLe
                            && r.Src() == Source(buf, 4, EncapCfg(Get(buf[..2], false)).value)
    {
      if |buf| < 4 { return null, Underflow; }
      Get2(buf[..2]);
      var id := (buf[0] as int) * 256 + buf[1];
      match EncapCfg(id) {
        case Bad(err) => return null, err;
        case Ok(c, _) =>
          r := new Reader(buf, 4, c.le, c.xcdr2, hostLe);
          e := OK;
      }
    }

    /** How a call moves the reader: nothing after an error; otherwise `x`, or a new error. */
    twostate predicate Took<T>(ok: bool, new v: T, new x: Read<T>)
      reads this
    {
      && old(pos) <= pos
      && (old(error) != OK ==> !ok && error == old(error) && pos == old(pos))
      && (old(error) == OK && x.Ok? ==> ok && error == OK && pos == x.pos && v == x.value)
      && (old(error) == OK && x.Bad? ==> !ok && error == x.error)
    }

    method Ensure(n: nat) returns (ok: bool)
      requires Valid()
      modifies this`error
      ensures ok <==> old(error) == OK && pos + n <= |buf|
      ensures error == if old(error) == OK && !ok then Underflow else old(error)
    {
      if error != OK { return false; }
      if pos + n > |buf| {
        error := Underflow;
        return false;
      }
      return true;
    }

    method ReadAlign(alignment: nat) returns (ok: bool)
      requires Valid() && alignment in {0, 1, 2, 4, 8}
      modifies this
      ensures Valid()
      ensures ok <==> old(error) == OK && old(pos) + Pad(Cfg(littleEndian, xcdr2), old(pos) - headerSize, alignment) <= |buf|
      ensures ok ==> pos == old(pos) + Pad(Cfg(littleEndian, xcdr2), old(pos) - headerSize, alignment)
      ensures !ok ==> pos == old(pos)
      ensures error == if old(error) == OK && !ok then Underflow else old(error)
    {
      if error != OK { return false; }
      if alignment <= 1 { return true; }
      var actual := if xcdr2 then (if alignment < 4 then alignment else 4) else alignment;
      var streamPos := pos - headerSize;
      var aligned := (streamPos + actual - 1) / actual * actual;
      RoundUp(streamPos, actual);
      hide PadTo;
      var newPos := aligned + headerSize;
      if newPos > |buf| {
        error := Underflow;
        return false;
      }
      pos := newPos;
      return true;
    }

    /** read_u8 … read_u64; read_f32 and read_f64 as bit patterns */
    method ReadUint(w: nat) returns (ok: bool, v: nat)
      requires Valid() && (w == 1 || w == 2 || w == 4 || w == 8)
      modifies this
      ensures Valid() && Took(ok, v, ReadScalar(Src(), old(pos), w))
      ensures !ok ==> v == 0
    {
      hide Pad, Get, ReadScalar;
      ScalarOf(Src(), pos, w);
      v := 0;
      ok := ReadAlign(w);
      if !ok { return; }
      ok := Ensure(w);
      if !ok { return; }
      v := Get(buf[pos..pos + w], littleEndian);
      pos := pos + w;
    }

    /** read_i8 … read_i64 and read_enum: the unsigned read and a cast */
    method ReadInt(w: nat) returns (ok: bool, x: int)
      requires Valid() && (w == 1 || w == 2 || w == 4 || w == 8)
      modifies this
      ensures Valid() && Took(ok, x, ReadSigned(Src(), old(pos), w))
    {
      hide ReadScalar, ToSigned;
      var v;
      ok, v := ReadUint(w);
      x := ToSigned(v, w);
    }

    method ReadFlag() returns (ok: bool, b: bool)
      requires Valid()
      modifies this
      ensures Valid() && Took(ok, b, ReadBool(Src(), old(pos)))
      ensures !ok ==> !b
    {
      hide ReadScalar;
      var v;
      ok, v := ReadUint(1);
      b := v != 0;
    }

    /** read_f128: the 16 bytes in little-endian order */
    method ReadF128() returns (ok: bool, v: seq<byte>)
      requires Valid()
      modifies this
      ensures Valid() && |v| == 16 && Took(ok, FromLe(v), ReadScalar(Src(), old(pos), 16))
    {
      hide PadTo, FromLe, Reverse;
      v := Zeros(16);
      ok := ReadAlign(8);
      if !ok { return; }
      ok := Ensure(16);
      if !ok { return; }
      v := GetF128(buf, pos, littleEndian);
      pos := pos + 16;
    }

    method ReadString() returns (ok: bool, s: seq<byte>)
      requires Valid()
      modifies this
      ensures Valid() && Took(ok, s, ReadText(Src(), old(pos)))
    {
      hide ReadScalar;
      s := [];
      var len;
      ok, len := ReadUint(4);
      if !ok { return; }
      if len == 0 { return; }
      ok := Ensure(len);
      if !ok { return; }
      s := buf[pos..pos + len - 1];
      pos := pos + len;
    }

    /** read_string_copy: `out` receives the text and a NUL, `needed` is their length */
    method ReadStringCopy(out: array<byte>) returns (ok: bool, needed: nat)
      requires Valid()
      modifies this, out
      ensures Valid()
      ensures ok ==> 0 < needed <= out.Length && out[needed - 1] == 0 && out[needed..] == old(out[needed..])
      ensures Took(ok, if ok then out[..needed - 1] else [], ReadCopy(Src(), old(pos), out.Length))
      ensures !ok ==> out[..] == old(out[..])
    {
      hide ReadText;
      var text;
      ok, text := ReadString();
      needed := 0;
      if !ok { return; }
      needed := |text| + 1;
      if needed > out.Length {
        error := Overflow;
        ok := false;
        return;
      }
      forall i | 0 <= i < |text| { out[i] := text[i]; }
      out[|text|] := 0;
      assert out[..needed - 1] == text;
    }

    method ReadSeqHeader() returns (ok: bool, count: nat)
      requires Valid()
      modifies this
      ensures Valid() && Took(ok, count, ReadCount(Src(), old(pos)))
    {
      hide ReadScalar;
      ok, count := ReadUint(4);
      if !ok { return; }
      var remaining := if pos < |buf| then |buf| - pos else 0;
      if count > remaining {
        error := Underflow;
        return false, count;
      }
    }

    /** read_prim_array: `out` receives host-order elements */
    method ReadPrimArray(out: array<byte>, count: nat, w: nat) returns (ok: bool)
      requires Valid() && IsBulkWidth(w) && out.Length == count * w
      modifies this, out
      ensures Valid() && Took(ok, Values(out[..], count, w, hostLe), ReadBulk(Src(), old(pos), w, count))
    {
      hide Values, Pad, ReadBulk;
      BulkOf(Src(), pos, w, count);
      if error != OK { return false; }
      if count == 0 {
        NoValues(out[..], w, hostLe);
        return true;
      }
      ok := ReadAlign(w);
      if !ok { return; }
      ok := Ensure(out.Length);
      if !ok { return; }
      CopyOut(out, count, w);
      pos := pos + out.Length;
    }

    /** A straight copy when the byte orders agree or do not matter, a swapping copy otherwise. */
    method CopyOut(out: array<byte>, count: nat, w: nat)
      requires Valid() && IsBulkWidth(w) && out.Length == count * w && pos + count * w <= |buf|
      modifies out
      ensures Values(out[..], count, w, hostLe) == Values(buf[pos..pos + count * w], count, w, littleEndian)
    {
      hide Values, SwapEach;
      var wire := buf[pos..pos + count * w];
      if w == 1 || littleEndian == hostLe {
        forall i | 0 <= i < out.Length { out[i] := wire[i]; }
        assert out[..] == wire;
        SameBytes(wire, count, w, littleEndian, hostLe);
      } else {
        SwapCopy(out, 0, wire, count, w);
        assert out[..] == SwapEach(wire, count, w);
        SwappedValues(wire, count, w, littleEndian);
      }
    }

    /** read_bool_array: any nonzero octet reads as true */
    method ReadBoolArray(count: nat) returns (ok: bool, out: seq<Value>)
      requires Valid()
      modifies this
      ensures Valid() && Took(ok, out, BoolsOf(ReadBulk(Src(), old(pos), 1, count)))
    {
      hide Values, PadTo;
      out := [];
      if error != OK { return false, []; }
      if count == 0 { return true, []; }
      ok := Ensure(count);
      if !ok { return; }
      out := Normalize(buf[pos..pos + count]);
      BoolsOfBytes(buf[pos..pos + count], count, littleEndian, out);
      pos := pos + count;
    }

    /** read_dheader_end: `start` is a position this reader has been at */
    method ReadDheaderEnd(size: nat, start: nat)
      requires Valid() && (error == OK ==> headerSize <= start)
      modifies this
      ensures Valid()
      ensures old(error) != OK ==> error == old(error) && pos == old(pos)
      ensures old(error) == OK && start + size <= |buf| ==> error == OK && pos == start + size
      ensures old(error) == OK && start + size > |buf| ==> error == Underflow && pos == old(pos)
    {
      if error != OK { return; }
      var expectedEnd := start + size;
      if expectedEnd > |buf| {
        error := Underflow;
        return;
      }
      pos := expectedEnd;
    }

    method ReadEmheaderWord() returns (ok: bool, h: EmInfo)
      requires Valid()
      modifies this
      ensures Valid() && Took(ok, h, ReadEmheader(Src(), old(pos)))
    {
      hide ReadScalar, Get;
      h := EmInfo(0, 0, false);
      var word;
      ok, word := ReadUint(4);
      if !ok { return; }
      var id, lc, mu := word % 0x1000_0000, (word / 0x1000_0000) % 8, word / 0x8000_0000 % 2 == 1;
      if lc <= 3 {
        h := EmInfo(id, if lc == 0 then 1 else if lc == 1 then 2 else if lc == 2 then 4 else 8, mu);
      } else if lc == 4 {
        var len;
        ok, len := ReadUint(4);
        h := EmInfo(id, len, mu);
      } else if pos + 4 > |buf| {
        error := Underflow;
        ok := false;
      } else {
        var next := Get(buf[pos..pos + 4], littleEndian);
        h := EmInfo(id, if lc == 5 then next else if lc == 6 then (4 + 4 * next) % U32 else (4 + 8 * next) % U32, mu);
      }
    }

    method ReadPidHeader() returns (ok: bool, h: PidInfo)
      requires Valid()
      modifies this
      ensures Valid() && Took(ok, h, ReadPid(Src(), old(pos)))
    {
      hide Get, PadTo;
      h := EndOfList;
      ok := ReadAlign(4);
      if !ok { return; }
      ok := Ensure(4);
      if !ok { return; }
      var pid := Get(buf[pos..pos + 2], littleEndian);
      var len := Get(buf[pos + 2..pos + 4], littleEndian);
      pos := pos + 4;
      var raw := pid % 0x4000;
      if raw == PID_SENTINEL { return; }
      if raw == PID_EXTENDED {
        ok := Ensure(8);
        if !ok { return; }
        h := Pid(Get(buf[pos..pos + 4], littleEndian), Get(buf[pos + 4..pos + 8], littleEndian));
        pos := pos + 8;
      } else {
        h := Pid(raw, len);
      }
    }

    method SkipBytes(n: nat) returns (ok: bool)
      requires Valid()
      modifies this
      ensures Valid() && Took(ok, (), Skip(Src(), old(pos), n))
    {
      ok := Ensure(n);
      if !ok { return; }
      pos := pos + n;
    }

    /** The deserializer of one field. */
    method ReadField(t: Type) returns (v: Value)
      requires Valid() && IsType(t)
      modifies this
      ensures Valid() && Took(error == OK, v, Decode(Src(), t, old(pos)))
      decreases t, 3
    {
      hide IsFramed, ReadScalar, DecodePlain, IsType;
      if IsFramed(Cfg(littleEndian, xcdr2), t) {
        var ok, size := ReadUint(4);
        var start := if ok then pos else 0;
        v := ReadPlain(t);
        ReadDheaderEnd(size, start);
      } else {
        v := ReadPlain(t);
      }
    }

    method ReadLeaf(t: Type) returns (v: Value)
      requires Valid() && IsType(t) && (IsScalar(t) || t.Str?)
      modifies this
      ensures Valid() && Took(error == OK, v, DecodePlain(Src(), t, old(pos)))
    {
      hide ReadScalar, ReadText, FromLe;
      if t.Str? && t.capacity.Some? {
        var out := new byte[t.capacity.value](_ => 0);
        var ok, needed := ReadStringCopy(out);
        v := Txt(if ok then out[..needed - 1] else []);
      } else if t.Str? {
        var ok, s := ReadString();
        v := Txt(s);
      } else if t.Quad? {
        var ok, b := ReadF128();
        v := Num(FromLe(b));
      } else {
        var ok, n := ReadUint(Width(t));
        v := Num(if t.Bool? then (if n != 0 then 1 else 0) else n);
      }
    }

    method ReadPlain(t: Type) returns (v: Value)
      requires Valid() && IsType(t)
      modifies this
      ensures Valid() && Took(error == OK, v, DecodePlain(Src(), t, old(pos)))
      decreases t, 2
    {
      hide ReadCount, DecodeItems, DecodeFields, DecodeDelimited, DecodeMutable;
      match t
      case Seq(e) =>
        var ok, n := ReadSeqHeader();
        v := ReadItems(e, n);
      case Arr(e, n) =>
        v := ReadItems(e, n);
      case Struct(ext, tags, types) =>
        if ext.Mutable? {
          v := ReadMutable(tags, types);
        } else if ext.Appendable? && xcdr2 {
          v := ReadDelimited(types);
        } else {
          var vs := ReadFields(types);
          v := List(vs);
        }
      case _ =>
        v := ReadLeaf(t);
    }

    method ReadItems(e: Type, n: nat) returns (v: Value)
      requires Valid() && IsType(e)
      modifies this
      ensures Valid() && Took(error == OK, v, DecodeItems(Src(), e, n, old(pos)))
      decreases e, 5
    {
      hide ReadBulk, DecodeElements, Values;
      if e.Bool? {
        var ok, ns := ReadBoolArray(n);
        v := List(ns);
      } else if e.Int? {
        var out := new byte[n * e.width](_ => 0);
        var ok := ReadPrimArray(out, n, e.width);
        v := List(Wrap(e, Values(out[..], n, e.width, hostLe)));
      } else {
        var vs := ReadElements(e, n);
        v := List(vs);
      }
    }

    method ReadElements(e: Type, n: nat) returns (vs: seq<Value>)
      requires Valid() && IsType(e)
      modifies this
      ensures Valid() && Took(error == OK, vs, DecodeElements(Src(), e, n, old(pos)))
      decreases e, 4
    {
      hide Decode, IsType, DecodeElements;
      vs := [];
      ghost var x := DecodeElements(Src(), e, n, pos);
      ghost var p0, e0 := pos, error;
      PrependNothing(x);
      var i := 0;
      while i < n
        invariant Valid() && i <= n && p0 <= pos
        invariant e0 != OK ==> error == e0 && pos == p0
        invariant e0 == OK && error == OK ==> x == Prepend(vs, DecodeElements(Src(), e, n - i, pos))
        invariant e0 == OK && error != OK ==> x.Bad? && error == x.error
      {
        ElementsNext(Src(), e, n - i, pos, vs);
        var v := ReadField(e);
        vs := vs + [v];
        i := i + 1;
      }
      ElementsNone(Src(), e, pos, vs);
    }

    method ReadFields(types: seq<Type>) returns (vs: seq<Value>)
      requires Valid() && AreTypes(types)
      modifies this
      ensures Valid() && Took(error == OK, vs, DecodeFields(Src(), types, old(pos)))
      decreases types, 0
    {
      hide Decode, IsType;
      if types == [] {
        vs := [];
      } else {
        var v := ReadField(types[0]);
        var rest := ReadFields(types[1..]);
        vs := [v] + rest;
      }
    }

    method ReadDelimited(types: seq<Type>) returns (v: Value)
      requires Valid() && AreTypes(types)
      modifies this
      ensures Valid() && Took(error == OK, v, DecodeDelimited(Src(), types, old(pos)))
      decreases types, 1
    {
      hide ReadScalar, DecodeFields, IsType;
      var ok, size := ReadUint(4);
      var start := if ok then pos else 0;
      var vs := ReadFields(types);
      ReadDheaderEnd(size, start);
      v := List(vs);
    }

    method ReadMutable(tags: seq<Tag>, types: seq<Type>) returns (v: Value)
      requires Valid() && |tags| == |types| && AreTypes(types)
      modifies this
      ensures Valid() && Took(error == OK, v, DecodeMutable(Src(), tags, types, old(pos)))
      decreases types, 2
    {
      hide ReadScalar, DecodeFramed, DecodeParams, IsType;
      if xcdr2 {
        var ok, size := ReadUint(4);
        var start := if ok then pos else 0;
        var vs := ReadFramedMembers(tags, types, start + size);
        ReadDheaderEnd(size, start);
        v := List(vs);
      } else {
        var vs := ReadParams(tags, types);
        v := List(vs);
      }
    }

    /** The member loop of a mutable struct in XCDR2. */
    method ReadFramedMembers(tags: seq<Tag>, types: seq<Type>, end: nat) returns (acc: seq<Value>)
      requires Valid() && |tags| == |types| && AreTypes(types)
      modifies this
      ensures Valid() && Took(error == OK, acc, DecodeFramed(Src(), tags, types, old(pos), end, Blank(|types|)))
      decreases types, 1
    {
      hide Decode, IsType, ReadEmheader, Index;
      acc := Blank(|types|);
      ghost var x := DecodeFramed(Src(), tags, types, pos, end, acc);
      ghost var p0, e0 := pos, error;
      while pos < end
        invariant Valid() && |acc| == |types| && p0 <= pos
        invariant e0 != OK ==> error == e0 && pos == p0
        invariant e0 == OK && error == OK ==> x == DecodeFramed(Src(), tags, types, pos, end, acc)
        invariant e0 == OK && error != OK ==> x.Bad? && error == x.error
        decreases |buf| - pos
      {
        var ok, h := ReadEmheaderWord();
        if !ok { break; }
        var k := Index(tags, h.id);
        if k < |types| {
          var v := ReadField(types[k]);
          acc := acc[k := v];
        } else {
          ok := SkipBytes(h.len);
        }
      }
    }

    /** The parameter loop of a mutable struct in XCDR1. */
    method ReadParams(tags: seq<Tag>, types: seq<Type>) returns (acc: seq<Value>)
      requires Valid() && |tags| == |types| && AreTypes(types)
      modifies this
      ensures Valid() && Took(error == OK, acc, DecodeParams(Src(), tags, types, old(pos), Blank(|types|)))
      decreases types, 1
    {
      hide Decode, IsType, ReadPid, Index;
      acc := Blank(|types|);
      ghost var x := DecodeParams(Src(), tags, types, pos, acc);
      ghost var p0, e0 := pos, error;
      while true
        invariant Valid() && |acc| == |types| && p0 <= pos
        invariant e0 != OK ==> error == e0 && pos == p0
        invariant e0 == OK && error == OK ==> x == DecodeParams(Src(), tags, types, pos, acc)
        invariant e0 == OK && error != OK ==> x.Bad? && error == x.error
        decreases |buf| - pos
      {
        var ok, h := ReadPidHeader();
        if !ok || h.EndOfList? { break; }
        var mstart := pos;
        var k := Index(tags, h.id);
        if k < |types| {
          var v := ReadField(types[k]);
          acc := acc[k := v];
        } else {
          ok := SkipBytes(h.len);
        }
        var mused := pos - mstart;
        if mused < h.len {
          ok := SkipBytes(h.len - mused);
        }
      }
    }
  }

  /** A number of a C width, without unfolding what aligning means. */
  lemma ScalarOf(r: Source, pos: nat, w: nat)
    requires r.base <= pos && (w == 1 || w == 2 || w == 4 || w == 8)
    ensures var p := pos + Pad(r.c, pos - r.base, w);
            ReadScalar(r, pos, w) == if p + w > |r.buf| then Bad(Underflow) else Ok(Get(r.buf[p..p + w], r.c.le), p + w)
  {
    hide Pad, Get;
  }

  lemma BulkOf(r: Source, pos: nat, w: nat, n: nat)
    requires r.base <= pos <= |r.buf| && IsBulkWidth(w)
    ensures n == 0 ==> ReadBulk(r, pos, w, n) == Ok([], pos)
    ensures n > 0 ==>
              var p := pos + Pad(r.c, pos - r.base, w);
              if p + n * w > |r.buf| then ReadBulk(r, pos, w, n) == Bad(Underflow)
              else ReadBulk(r, pos, w, n) == Ok(Values(r.buf[p..p + n * w], n, w, r.c.le), p + n * w)
  {
    hide Pad, Values;
  }

  lemma NoValues(data: seq<byte>, w: nat, le: bool)
    requires |data| == 0 * w
    ensures Values(data, 0, w, le) == []
  {
  }

  function Prepend(vs: seq<Value>, x: Read<seq<Value>>): Read<seq<Value>> {
    match x
    case Bad(err) => Bad(err)
    case Ok(ws, p) => Ok(vs + ws, p)
  }

  lemma PrependNothing(x: Read<seq<Value>>)
    ensures Prepend([], x) == x
  {
    if x.Ok? {
      assert [] + x.value == x.value;
    }
  }

  lemma ElementsNone(r: Source, e: Type, pos: nat, vs: seq<Value>)
    requires IsType(e) && r.base <= pos <= |r.buf|
    ensures Prepend(vs, DecodeElements(r, e, 0, pos)) == Ok(vs, pos)
  {
    assert vs + [] == vs;
  }

  lemma ElementsNext(r: Source, e: Type, n: nat, pos: nat, vs: seq<Value>)
    requires IsType(e) && n > 0 && r.base <= pos <= |r.buf|
    ensures Prepend(vs, DecodeElements(r, e, n, pos)) ==
            match Decode(r, e, pos)
            case Bad(err) => Bad(err)
            case Ok(v, p) => Prepend(vs + [v], DecodeElements(r, e, n - 1, p))
  {
    hide Decode, IsType;
    match Decode(r, e, pos)
    case Bad(_) =>
    case Ok(v, p) =>
      match DecodeElements(r, e, n - 1, p)
      case Bad(_) =>
      case Ok(ws, _) => assert vs + ([v] + ws) == vs + [v] + ws;
  }

  /** A read of booleans, normalized. */
  function BoolsOf(x: Read<seq<nat>>): Read<seq<Value>> {
    match x
    case Bad(err) => Bad(err)
    case Ok(ns, p) => Ok(Wrap(Bool, ns), p)
  }

  method Normalize(octets: seq<byte>) returns (out: seq<Value>)
    ensures |out| == |octets|
    ensures forall k :: 0 <= k < |out| ==> out[k] == Num(if octets[k] != 0 then 1 else 0)
  {
    out := [];
    var i := 0;
    while i < |octets|
      invariant i == |out| <= |octets|
      invariant forall k :: 0 <= k < i ==> out[k] == Num(if octets[k] != 0 then 1 else 0)
    {
      out := out + [Num(if octets[i] != 0 then 1 else 0)];
      i := i + 1;
    }
  }

  lemma BoolsOfBytes(octets: seq<byte>, n: nat, le: bool, out: seq<Value>)
    requires |octets| == n == |out|
    requires forall k :: 0 <= k < |out| ==> out[k] == Num(if octets[k] != 0 then 1 else 0)
    ensures |octets| == n * 1 && out == Wrap(Bool, Values(octets, n, 1, le))
  {
    OneByteValues(octets, n, le);
    hide Values;
  }

  lemma {:induction false} OneByteValues(data: seq<byte>, n: nat, le: bool)
    requires |data| == n
    ensures |data| == n * 1
    ensures forall i :: 0 <= i < n ==> Values(data, n, 1, le)[i] == data[i]
    decreases n
  {
    if n > 0 {
      OneByteValues(data[..n - 1], n - 1, le);
      var last := data[n - 1..];
      assert FromLe(last) == last[0] + 256 * FromLe(last[1..]);
      assert Reverse(last) == last;
    }
  }

  lemma Get2(b: seq<byte>)
    requires |b| == 2
    ensures Get(b, false) == (b[0] as int) * 256 + b[1]
  {
    var r := Reverse(b);
    assert FromLe(r) == r[0] + 256 * FromLe(r[1..]);
    assert FromLe(r[1..]) == r[1] + 256 * FromLe(r[1..][1..]);
  }

  lemma SameBytes(data: seq<byte>, n: nat, w: nat, le: bool, host: bool)
    requires |data| == n * w && (w == 1 || le == host)
    ensures Values(data, n, w, host) == Values(data, n, w, le)
    decreases n
  {
    if w == 1 && n > 0 {
      SameBytes(data[..n - 1], n - 1, 1, le, host);
      assert Reverse(data[n - 1..]) == data[n - 1..];
    }
  }

  /** Swapped elements mean on a host of the other byte order what they meant on the wire. */
  lemma {:induction false} SwappedValues(data: seq<byte>, n: nat, w: nat, le: bool)
    requires |data| == n * w
    ensures Values(SwapEach(data, n, w), n, w, !le) == Values(data, n, w, le)
    decreases n
  {
    hide Get;
    if n > 0 {
      NextOffset(n, w);
      var k := (n - 1) * w;
      var e := data[k..];
      SwappedValues(data[..k], n - 1, w, le);
      GetSwapped(e, le);
      ValuesSnoc(SwapEach(data[..k], n - 1, w), n - 1, Reverse(e), w, !le);
    }
  }

  lemma GetSwapped(b: seq<byte>, le: bool)
    ensures Get(Reverse(b), !le) == Get(b, le)
  {
    assert Reverse(Reverse(b)) == b;
  }
}
