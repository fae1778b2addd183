/**
  The CDR writer: a cursor over a caller-supplied buffer, with in-place back-patching.
  Every method's new state is the matching transition of `WriterSteps`; a call on a writer that
  already failed changes nothing at all.
 */
module CdrWriter {
  import opened Bytes
  import opened RawStores
  import opened BulkCopy
  import opened Scripts
  import opened WriterSteps
  import opened WriterProof

  class Writer {
    const buf: array<byte>
    const littleEndian: bool
    const xcdr2: bool
    const hostLe: bool  // byte order of the machine, for bulk copies
    var pos: nat
    var headerSize: nat
    var error: Error

    ghost predicate Valid()
      reads this
    {
      headerSize <= pos <= buf.Length
    }

    ghost function State(): (s: WState)
      requires Valid()
      reads this, buf
      ensures Inv(s)
    {
      WState(Cfg(littleEndian, xcdr2), buf.Length, buf[..pos], headerSize, error)
    }

    constructor (buf: array<byte>, littleEndian: bool, xcdr2: bool, hostLe: bool)
      ensures Valid() && this.buf == buf && this.hostLe == hostLe
      ensures State() == Init(Cfg(littleEndian, xcdr2), buf.Length)
    {
      this.buf, this.littleEndian, this.xcdr2, this.hostLe := buf, littleEndian, xcdr2, hostLe;
      pos, headerSize, error := 0, 0, OK;
    }

    method Clear()
      requires Valid()
      modifies this
      ensures Valid() && State() == Reset(old(State()))
      ensures pos == 0 && headerSize == 0 && error == OK
    {
      pos, headerSize, error := 0, 0, OK;
    }

    /** Room for `n` more bytes, or a sticky overflow. */
    method Ensure(n: nat) returns (ok: bool)
      requires Valid()
      modifies this`error
      ensures ok <==> old(error) == OK && pos + n <= buf.Length
      ensures error == if old(error) == OK && !ok then Overflow else old(error)
    {
      if error != OK { return false; }
      if pos + n > buf.Length {
        error := Overflow;
        return false;
      }
      return true;
    }

    method WriteAlign(alignment: nat) returns (ok: bool)
      requires Valid() && alignment <= 8 && alignment in {0, 1, 2, 4, 8}
      modifies this, buf
      ensures Valid() && State() == AlignTo(old(State()), alignment)
      ensures ok <==> error == OK
      ensures old(error) != OK ==> buf[..] == old(buf[..])
    {
      if error != OK { return false; }
      hide PadTo, Emit;
      EmitNothing(State());
      if alignment <= 1 { return true; }
      var actual := if xcdr2 then (if alignment < 4 then alignment else 4) else alignment;
      var streamPos := pos - headerSize;
      var aligned := (streamPos + actual - 1) / actual * actual;
      RoundUp(streamPos, actual);
      var padding := aligned - streamPos;
      if padding == 0 { return true; }
      ok := Skip(padding);
    }

    /** Zero the next `n` bytes, if there are as many. */
    method Skip(n: nat) returns (ok: bool)
      requires Valid() && error == OK
      modifies this, buf
      ensures Valid() && State() == Emit(old(State()), Zeros(n))
      ensures ok <==> error == OK
    {
      ok := Ensure(n);
      if !ok { return; }
      forall i | pos <= i < pos + n { buf[i] := 0; }
      pos := pos + n;
      assert buf[..pos] == old(buf[..pos]) + Zeros(n);
    }

    /** Copy `b` to the cursor, if it fits. */
    method Append(b: seq<byte>) returns (ok: bool)
      requires Valid()
      modifies this, buf
      ensures Valid() && State() == Emit(old(State()), b)
      ensures ok <==> error == OK
      ensures old(error) != OK ==> buf[..] == old(buf[..])
    {
      ok := Ensure(|b|);
      if !ok { return; }
      forall i | 0 <= i < |b| { buf[pos + i] := b[i]; }
      pos := pos + |b|;
      assert buf[..pos] == old(buf[..pos]) + b;
    }

    /** write_encapsulation */
    method WriteEncapsulation(ext: Ext) returns (ok: bool)
      requires Valid()
      modifies this, buf
      ensures Valid() && State() == Encapsulate(old(State()), ext)
      ensures ok ==> pos == old(pos) + 4 && headerSize == 4
      ensures !ok ==> pos == old(pos) && headerSize == old(headerSize)
      ensures ok <==> error == OK
      ensures old(error) != OK ==> buf[..] == old(buf[..])
    {
      var id :=
        if xcdr2 then
          match ext
          case Final => if littleEndian then 0x0007 else 0x0006
          case Appendable => if littleEndian then 0x0009 else 0x0008
          case Mutable => if littleEndian then 0x000B else 0x000A
        else if ext.Mutable? then (if littleEndian then 0x0003 else 0x0002)
        else (if littleEndian then 0x0001 else 0x0000);
      Le2(id);
      assert Put(id, 2, false) == [id / 256, id % 256];
      hide Put;
      ok := Append([id / 256, id % 256, 0, 0]);
      assert [id / 256, id % 256, 0, 0] == Put(id, 2, false) + [0, 0];
      if ok { headerSize := 4; }
    }

    /** write_bool, write_i8 and write_u8 */
    method WriteU8(v: byte) returns (ok: bool)
      requires Valid()
      modifies this, buf
      ensures Valid() && State() == PutScalar(old(State()), 1, v)
      ensures ok <==> error == OK
      ensures old(error) != OK ==> buf[..] == old(buf[..])
    {
      assert AlignTo(State(), 1) == State() by {
        assert buf[..pos] + Zeros(0) == buf[..pos];
      }
      assert Put(v, 1, littleEndian) == [v] by {
        assert LeBytes(v, 1) == [v % 256] + LeBytes(v / 256, 0);
      }
      ok := Append([v]);
    }

    /** write_i16 and write_u16 */
    method WriteU16(v: nat) returns (ok: bool)
      requires Valid()
      modifies this, buf
      ensures Valid() && State() == PutScalar(old(State()), 2, v)
      ensures ok <==> error == OK
      ensures old(error) != OK ==> buf[..] == old(buf[..])
    {
      hide Put, AlignTo, Overlay;
      ok := WriteAlign(2);
      if !ok { return; }
      ok := Ensure(2);
      if !ok { return; }
      label L:
      PutU16(buf, pos, v, littleEndian);
      OverlayEnd(old@L(buf[..]), pos, Put(v, 2, littleEndian));
      pos := pos + 2;
    }

    /** write_i32, write_u32, write_f32, write_enum and write_seq_header */
    method WriteU32(v: nat) returns (ok: bool)
      requires Valid()
      modifies this, buf
      ensures Valid() && State() == PutScalar(old(State()), 4, v)
      ensures ok <==> error == OK
      ensures old(error) != OK ==> buf[..] == old(buf[..])
    {
      hide Put, AlignTo, Overlay;
      ok := WriteAlign(4);
      if !ok { return; }
      ok := Ensure(4);
      if !ok { return; }
      label L:
      PutU32(buf, pos, v, littleEndian);
      OverlayEnd(old@L(buf[..]), pos, Put(v, 4, littleEndian));
      pos := pos + 4;
    }

    /** write_i64, write_u64 and write_f64 */
    method WriteU64(v: nat) returns (ok: bool)
      requires Valid()
      modifies this, buf
      ensures Valid() && State() == PutScalar(old(State()), 8, v)
      ensures ok <==> error == OK
      ensures old(error) != OK ==> buf[..] == old(buf[..])
    {
      hide Put, AlignTo, Overlay;
      ok := WriteAlign(8);
      if !ok { return; }
      ok := Ensure(8);
      if !ok { return; }
      label L:
      PutU64(buf, pos, v, littleEndian);
      OverlayEnd(old@L(buf[..]), pos, Put(v, 8, littleEndian));
      pos := pos + 8;
    }

    /** write_f128: `v` is the binary128 value as 16 little-endian bytes */
    method WriteF128(v: seq<byte>) returns (ok: bool)
      requires Valid() && |v| == 16
      modifies this, buf
      ensures Valid() && State() == PutScalar(old(State()), 16, FromLe(v))
      ensures ok <==> error == OK
      ensures old(error) != OK ==> buf[..] == old(buf[..])
    {
      hide Put, AlignTo, Overlay;
      ok := WriteAlign(8);
      if !ok { return; }
      ok := Ensure(16);
      if !ok { return; }
      label L:
      PutF128(buf, pos, v, littleEndian);
      OverlayEnd(old@L(buf[..]), pos, Put(FromLe(v), 16, littleEndian));
      pos := pos + 16;
    }

    /** write_string: a 32-bit length that counts the terminator, the bytes, a zero byte */
    method WriteString(s: seq<byte>) returns (ok: bool)
      requires Valid()
      modifies this, buf
      ensures Valid() && State() == PutText(old(State()), s)
      ensures ok <==> error == OK
      ensures old(error) != OK ==> buf[..] == old(buf[..])
    {
      hide PutScalar;
      ok := WriteU32(|s| + 1);
      if !ok { return; }
      ok := Append(s + [0]);
    }

    /** write_prim_array: `data` is `count` host-order elements of width `w` */
    method WritePrimArray(data: seq<byte>, count: nat, w: nat) returns (ok: bool)
      requires Valid() && IsBulkWidth(w) && |data| == count * w
      modifies this, buf
      ensures Valid() && State() == PutBulk(old(State()), w, Values(data, count, w, hostLe))
      ensures ok <==> error == OK
      ensures old(error) != OK ==> buf[..] == old(buf[..])
    {
      hide AlignTo, Values, Flat, Overlay;
      if error != OK { return false; }
      if count == 0 { return true; }
      ghost var b := Flat(Values(data, count, w, hostLe), w, littleEndian);
      FlatLength(Values(data, count, w, hostLe), w, littleEndian);
      ok := WriteAlign(w);
      if !ok { return; }
      ok := Ensure(|data|);
      if !ok { return; }
      label L:
      CopyRun(data, count, w);
      OverlayEnd(old@L(buf[..]), pos, b);
      pos := pos + |data|;
    }

    /** A straight copy when the byte orders agree or do not matter, a swapping copy otherwise. */
    method CopyRun(data: seq<byte>, count: nat, w: nat)
      requires Valid() && IsBulkWidth(w) && |data| == count * w && pos + |data| <= buf.Length
      modifies buf
      ensures |Flat(Values(data, count, w, hostLe), w, littleEndian)| == |data|
      ensures buf[..] == Overlay(old(buf[..]), pos, Flat(Values(data, count, w, hostLe), w, littleEndian))
    {
      hide Values, SwapEach, Flat;
      if w == 1 { assert SwapEach(data, count, w) == data by { SwapSingle(data, count); } }
      FlatOfValues(data, count, w, hostLe);
      FlatOfSwapped(data, count, w, hostLe);
      if w == 1 || littleEndian == hostLe {
        forall i | 0 <= i < |data| { buf[pos + i] := data[i]; }
      } else {
        SwapCopy(buf, pos, data, count, w);
      }
    }

    /** write_dheader_begin: `token` is where the size will be patched in */
    method DheaderBegin() returns (ok: bool, token: nat)
      requires Valid()
      modifies this, buf
      ensures Valid() && State() == BeginDelimited(old(State()))
      ensures ok <==> error == OK
      ensures ok ==> token == AlignedToken(old(State()))
      ensures old(error) != OK ==> buf[..] == old(buf[..])
    {
      hide PutScalar, AlignTo;
      token := 0;
      ok := WriteAlign(4);
      if !ok {
        ScalarStuck(State(), 4, 0);
        return;
      }
      token := pos;
      ok := WriteU32(0);
    }

    /** write_dheader_finalize and write_emheader_finalize */
    method FinalizeSize(token: nat) returns (ok: bool)
      requires Valid() && (error == OK ==> token + 4 <= pos)
      modifies buf
      ensures Valid() && State() == FinalizeLength(old(State()), token)
      ensures ok <==> error == OK
      ensures old(error) != OK ==> buf[..] == old(buf[..])
    {
      hide Put;
      if error != OK { return false; }
      PutU32(buf, token, pos - token - 4, littleEndian);
      OverlayPrefix(old(buf[..]), pos, token, Put(pos - token - 4, 4, littleEndian));
      return true;
    }

    /** write_emheader */
    method WriteEmheader(id: nat, len: nat, mu: bool) returns (ok: bool)
      requires Valid()
      modifies this, buf
      ensures Valid() && State() == PutEmheader(old(State()), id, len, mu)
      ensures ok <==> error == OK
      ensures old(error) != OK ==> buf[..] == old(buf[..])
    {
      hide PutScalar;
      if error != OK { ScalarStuck(State(), 4, EmWord(id, LengthCode(len), mu)); ScalarStuck(State(), 4, len); return false; }
      if id > MAX_MEMBER_ID {
        error := InvalidMemberId;
        return false;
      }
      var muBit := if mu then 0x8000_0000 else 0;
      var lc, needsNextint := 4, true;
      if len == 1 { lc, needsNextint := 0, false; }
      else if len == 2 { lc, needsNextint := 1, false; }
      else if len == 4 { lc, needsNextint := 2, false; }
      else if len == 8 { lc, needsNextint := 3, false; }
      ok := WriteU32(muBit + lc * 0x1000_0000 + id % 0x1000_0000);
      if !ok { ScalarStuck(State(), 4, len); return; }
      if needsNextint { ok := WriteU32(len); }
    }

    /** write_emheader_begin: always announces its length in a NEXTINT */
    method EmheaderBegin(id: nat, mu: bool) returns (ok: bool, token: nat)
      requires Valid()
      modifies this, buf
      ensures Valid() && State() == BeginFramed(old(State()), id, mu)
      ensures ok <==> error == OK
      ensures ok ==> token == FramedToken(old(State()))
      ensures old(error) != OK ==> buf[..] == old(buf[..])
    {
      hide PutScalar, FramedToken;
      token := 0;
      if error != OK { ScalarStuck(State(), 4, EmWord(id, 4, mu)); ScalarStuck(State(), 4, 0); return false, 0; }
      if id > MAX_MEMBER_ID {
        error := InvalidMemberId;
        return false, 0;
      }
      ok := WriteU32((if mu then 0x8000_0000 else 0) + 4 * 0x1000_0000 + id % 0x1000_0000);
      if !ok { ScalarStuck(State(), 4, 0); return; }
      token := pos;
      ScalarToken(old(State()), EmWord(id, 4, mu));
      ok := WriteU32(0);
    }

    /** write_pid_begin */
    method PidBegin(id: nat) returns (ok: bool, token: nat)
      requires Valid()
      modifies this, buf
      ensures Valid() && State() == BeginParam(old(State()), id)
      ensures ok <==> error == OK
      ensures ok ==> token == AlignedToken(old(State()))
      ensures old(error) != OK ==> buf[..] == old(buf[..])
    {
      hide AlignTo;
      token := 0;
      ok := WriteAlign(4);
      if !ok { return; }
      token := pos;
      ok := Append(Zeros(if id <= MAX_SHORT_PID then 4 else 12));
    }

    method StoreShortPid(id: nat, mu: bool, len: nat, token: nat)
      requires Valid() && error == OK && token + 4 <= pos && id <= MAX_SHORT_PID
      modifies buf
      ensures buf[..] == Overlay(old(buf[..]), token, ShortPid(Cfg(littleEndian, xcdr2), id, mu, len))
    {
      hide Put, Overlay;
      var flags := if mu then 0x4000 else 0;
      PutU16(buf, token, flags + id % 0x4000, littleEndian);
      PutU16(buf, token + 2, len, littleEndian);
      OverlayStep(old(buf[..]), token, Put(flags + id % 0x4000, 2, littleEndian), Put(len, 2, littleEndian));
    }

    method StoreExtendedPid(id: nat, mu: bool, len: nat, token: nat)
      requires Valid() && error == OK && token + 12 <= buf.Length
      modifies buf
      ensures buf[..] == Overlay(old(buf[..]), token, ExtendedPid(Cfg(littleEndian, xcdr2), id, mu, len))
    {
      hide Put, Overlay;
      var flags := if mu then 0x4000 else 0;
      ghost var a, b := Put(flags + PID_EXTENDED, 2, littleEndian), Put(8, 2, littleEndian);
      ghost var c, d := Put(id, 4, littleEndian), Put(len, 4, littleEndian);
      PutU16(buf, token, flags + PID_EXTENDED, littleEndian);
      PutU16(buf, token + 2, 8, littleEndian);
      OverlayStep(old(buf[..]), token, a, b);
      PutU32(buf, token + 4, id, littleEndian);
      OverlayStep(old(buf[..]), token, a + b, c);
      PutU32(buf, token + 8, len, littleEndian);
      OverlayStep(old(buf[..]), token, a + b + c, d);
    }

    method FinalizeShort(id: nat, mu: bool, token: nat)
      requires Valid() && error == OK && token + Reserve(id) <= pos
      requires UsesShortPid(id, pos - token - Reserve(id))
      modifies buf
      ensures Valid() && State() == FinalizeParam(old(State()), id, mu, token)
    {
      hide ShortPid, ExtendedPid, Overlay;
      StoreShortPid(id, mu, pos - token - 4, token);
      OverlayPrefix(old(buf[..]), pos, token, ShortPid(Cfg(littleEndian, xcdr2), id, mu, pos - token - 4));
    }

    /** Move the content of a short parameter up by 8 bytes, to make room for the extended header. */
    method Widen(token: nat) returns (ok: bool)
      requires Valid() && error == OK && token + 4 <= pos
      modifies this`pos, this`error, buf
      ensures Valid()
      ensures ok <==> old(pos) + 8 <= buf.Length
      ensures !ok ==> error == Overflow && pos == old(pos) && buf[..] == old(buf[..])
      ensures ok ==> error == OK && pos == old(pos) + 8
      ensures ok ==> buf[..token] == old(buf[..token]) && buf[token + 12..pos] == old(buf[token + 4..pos])
    {
      ok := Ensure(8);
      if !ok { return; }
      var contentLen := pos - token - 4;
      forall i | 0 <= i < contentLen { buf[token + 12 + i] := buf[token + 4 + i]; }
      pos := pos + 8;
    }

    /** The extended form: after widening when the short header was reserved, in place otherwise. */
    method FinalizeExtended(id: nat, mu: bool, token: nat) returns (ok: bool)
      requires Valid() && error == OK && token + Reserve(id) <= pos
      requires !UsesShortPid(id, pos - token - Reserve(id))
      modifies this`pos, this`error, buf
      ensures Valid() && State() == FinalizeParam(old(State()), id, mu, token)
      ensures ok <==> error == OK
    {
      hide ExtendedPid, ShortPid, Overlay, FinalizeParam;
      ExtendedState(State(), id, mu, token);
      var shortHdr := id <= MAX_SHORT_PID;
      var contentLen := pos - token - (if shortHdr then 4 else 12);
      ok := true;
      if shortHdr {
        ok := Widen(token);
        if !ok { return; }
      }
      label L:
      ghost var h := ExtendedPid(Cfg(littleEndian, xcdr2), id, mu, contentLen);
      ghost var pre, post := old(buf[..token]), old(buf[token + Reserve(id)..pos]);
      Slices(old(buf[..]), old(pos), token);
      Slices(old(buf[..]), old(pos), token + Reserve(id));
      Slices(buf[..], pos, token);
      Slices(buf[..], pos, token + 12);
      assert buf[..token] == pre && buf[token + 12..pos] == post;
      StoreExtendedPid(id, mu, contentLen, token);
      OverlayPrefix(old@L(buf[..]), pos, token, h);
      assert buf[..pos] == pre + h + post;
    }

    /** write_pid_finalize: fill in the short header, or widen it in place when the content outgrew it */
    method PidFinalize(id: nat, mu: bool, token: nat) returns (ok: bool)
      requires Valid() && (error == OK ==> token + Reserve(id) <= pos)
      modifies this, buf
      ensures Valid() && State() == FinalizeParam(old(State()), id, mu, token)
      ensures ok <==> error == OK
      ensures old(error) != OK ==> buf[..] == old(buf[..])
    {
      if error != OK { return false; }
      hide FinalizeParam;
      var shortHdr := id <= MAX_SHORT_PID;
      var contentLen := pos - token - (if shortHdr then 4 else 12);
      if shortHdr && contentLen <= MAX_SHORT_LEN {
        FinalizeShort(id, mu, token);
        ok := true;
      } else {
        ok := FinalizeExtended(id, mu, token);
      }
    }

    /** write_pid_sentinel */
    method PidSentinel() returns (ok: bool)
      requires Valid()
      modifies this, buf
      ensures Valid() && State() == PutSentinel(old(State()))
      ensures ok <==> error == OK
      ensures old(error) != OK ==> buf[..] == old(buf[..])
    {
      hide Put, AlignTo, Overlay;
      ok := WriteAlign(4);
      if !ok { return; }
      ok := Ensure(4);
      if !ok { return; }
      label L:
      ghost var a, b := Put(PID_SENTINEL, 2, littleEndian), Put(0, 2, littleEndian);
      PutU16(buf, pos, PID_SENTINEL, littleEndian);
      PutU16(buf, pos + 2, 0, littleEndian);
      OverlayStep(old@L(buf[..]), pos, a, b);
      OverlayEnd(old@L(buf[..]), pos, a + b);
      pos := pos + 4;
    }

    /** write_i8 … write_i64 and write_enum: a cast and the unsigned write */
    method WriteInt(w: nat, x: int)
      requires Valid() && (w == 1 || w == 2 || w == 4 || w == 8) && FitsSigned(x, w)
      modifies this, buf
      ensures Valid() && State() == PutScalar(old(State()), w, FromSigned(x, w))
      ensures old(error) != OK ==> buf[..] == old(buf[..])
    {
      hide PutScalar, FromSigned;
      PerformScalar(w, FromSigned(x, w));
    }

    method PerformScalar(w: nat, v: nat)
      requires Valid() && IsWidth(w)
      modifies this, buf
      ensures Valid() && State() == PutScalar(old(State()), w, v)
      ensures old(error) != OK ==> buf[..] == old(buf[..])
    {
      hide AlignTo, Emit;
      var ok;
      if w == 1 {
        PutLow(v, 1, littleEndian);
        ok := WriteU8(v % 256);
      } else if w == 2 {
        ok := WriteU16(v);
      } else if w == 4 {
        ok := WriteU32(v);
      } else if w == 8 {
        ok := WriteU64(v);
      } else {
        PutLow(v, 16, littleEndian);
        ok := WriteF128(LeBytes(v, 16));
      }
    }

    /** The calls of a script, in order. */
    method PerformHead(k: Calls)
      requires Valid() && WellFormed(k) && !k.Done?
      modifies this, buf
      ensures Valid() && State() == RunHead(old(State()), k)
      ensures old(error) != OK ==> buf[..] == old(buf[..])
      decreases k, 0
    {
      hide PutScalar, PutBulk, PutText, PutEmheader, PutSentinel, FinalizeLength, FinalizeParam, AlignedToken, FramedToken;
      hide BeginDelimited, BeginFramed, BeginParam, Run, Values, Flat, Put;
      ghost var s := State();
      match k
      case Scalar(w, v, _) => PerformScalar(w, v);
      case Bulk(w, vs, _) =>
        ValuesOfFlat(vs, w, hostLe);
        var _ := WritePrimArray(Flat(vs, w, hostLe), |vs|, w);
      case Text(t, _) => var _ := WriteString(t);
      case Emheader(id, len, mu, _) => var _ := WriteEmheader(id, len, mu);
      case Delimited(body, _) =>
        BeginReserves(s, 0, false);
        var _, token := DheaderBegin();
        Perform(body);
        var _ := FinalizeSize(token);
      case Framed(id, mu, body, _) =>
        BeginReserves(s, id, mu);
        var _, token := EmheaderBegin(id, mu);
        Perform(body);
        var _ := FinalizeSize(token);
      case Param(id, mu, body, _) =>
        BeginReserves(s, id, mu);
        var _, token := PidBegin(id);
        Perform(body);
        var _ := PidFinalize(id, mu, token);
      case Sentinel(_) => var _ := PidSentinel();
    }

    method Perform(k: Calls)
      requires Valid() && WellFormed(k)
      modifies this, buf
      ensures Valid() && State() == Run(old(State()), k)
      ensures old(error) != OK ==> buf[..] == old(buf[..])
      decreases k, 1
    {
      if !k.Done? {
        hide RunHead;
        PerformHead(k);
        Perform(k.rest);
      }
    }

    /**
      What a caller sees of a whole script: from a good state it succeeds exactly when every EMHEADER id
      fits in 28 bits and the layout fits in the buffer, and then the layout follows what was there before.
     */
    method Write(k: Calls) returns (ok: bool)
      requires Valid() && WellFormed(k) && error == OK
      modifies this, buf
      ensures Valid() && headerSize == old(headerSize)
      ensures ok <==> error == OK
      ensures var b := Layout(Cfg(littleEndian, xcdr2), k, old(pos - headerSize));
              && (ok <==> IdsFit(k) && old(pos) + |b| <= buf.Length)
              && (ok ==> pos == old(pos) + |b| && buf[..pos] == old(buf[..pos]) + b)
    {
      hide Layout, Run;
      ghost var s := State();
      RunWrites(s, k);
      Perform(k);
      ok := error == OK;
    }
  }

  /** Only the low bytes of a value reach the stream. */
  lemma PutLow(v: nat, w: nat, le: bool)
    ensures FromLe(LeBytes(v, w)) < Pow256(w)
    ensures Put(FromLe(LeBytes(v, w)), w, le) == Put(v, w, le)
    ensures w == 1 ==> FromLe(LeBytes(v, w)) == v % 256
  {
    LeBytesOfFromLe(LeBytes(v, w));
    if w == 1 {
      assert LeBytes(v, 1) == [v % 256] + LeBytes(v / 256, 0);
      assert LeBytes(v, 1)[1..] == [];
    }
  }

  lemma ScalarToken(s: WState, v: nat)
    requires Inv(s) && PutScalar(s, 4, v).error == OK
    ensures |PutScalar(s, 4, v).out| == FramedToken(s)
  {
  }
}
