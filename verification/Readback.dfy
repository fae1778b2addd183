/**
  Each header and each leaf the writer lays out is read back exactly.
 */
module Readback {
  import opened Bytes
  import opened Scripts
  import opened BulkCopy
  import opened Decoding

  /** The bytes `b` lie in the buffer at `pos`. */
  predicate Holds(r: Source, pos: nat, b: seq<byte>) {
    pos + |b| <= |r.buf| && r.buf[pos..pos + |b|] == b
  }

  lemma HoldsSplit(r: Source, pos: nat, a: seq<byte>, b: seq<byte>)
    requires Holds(r, pos, a + b)
    ensures Holds(r, pos, a) && Holds(r, pos + |a|, b)
  {
    var s := r.buf[pos..pos + |a + b|];
    assert s[..|a|] == a && s[|a|..] == b;
    assert r.buf[pos..pos + |a|] == s[..|a|];
    assert r.buf[pos + |a|..pos + |a| + |b|] == s[|a|..];
  }

  function SpOf(r: Source, pos: nat): nat
    requires r.base <= pos
  {
    pos - r.base
  }

  function PadAt(r: Source, pos: nat): nat
    requires r.base <= pos
  {
    Pad(r.c, SpOf(r, pos), 4)
  }

  lemma ReadsNumber(r: Source, p: nat, w: nat, v: nat)
    requires Holds(r, p, Put(v, w, r.c.le)) && v < Pow256(w)
    ensures p + w <= |r.buf| && Get(r.buf[p..p + w], r.c.le) == v
  {
    hide Put, Get, Pow256;
    GetPut(v, w, r.c.le);
  }

  lemma ReadsScalar(r: Source, pos: nat, w: nat, v: nat)
    requires r.base <= pos && v < Pow256(w)
    requires Holds(r, pos, ScalarBytes(r.c, SpOf(r, pos), w, v))
    ensures ReadScalar(r, pos, w) == Ok(v, pos + |ScalarBytes(r.c, SpOf(r, pos), w, v)|)
  {
    hide Holds, Pad, Put, Zeros, Get, Pow256, AlignOf;
    var pad := Pad(r.c, SpOf(r, pos), AlignOf(w));
    HoldsSplit(r, pos, Zeros(pad), Put(v, w, r.c.le));
    ReadsNumber(r, pos + pad, w, v);
  }

  /** A signed number comes back as the number it was. */
  lemma ReadsSigned(r: Source, pos: nat, w: nat, x: int)
    requires r.base <= pos && FitsSigned(x, w)
    requires Holds(r, pos, ScalarBytes(r.c, SpOf(r, pos), w, FromSigned(x, w)))
    ensures ReadSigned(r, pos, w) == Ok(x, pos + |ScalarBytes(r.c, SpOf(r, pos), w, FromSigned(x, w))|)
  {
    hide Holds, ScalarBytes, ReadScalar, Pow256, ToSigned, FromSigned;
    SignedBack(x, w);
    ReadsScalar(r, pos, w, FromSigned(x, w));
  }

  /** A 4-byte value at an aligned position. */
  lemma ReadsWord(r: Source, pos: nat, v: nat)
    requires r.base <= pos && v < U32 && PadAt(r, pos) == 0
    requires Holds(r, pos, Put(v, 4, r.c.le))
    ensures ReadScalar(r, pos, 4) == Ok(v, pos + 4)
  {
    PowValues();
    ScalarAligned(r.c, SpOf(r, pos), 4, v);
    ReadsScalar(r, pos, 4, v);
  }

  lemma ReadsText(r: Source, pos: nat, s: seq<byte>)
    requires r.base <= pos && |s| + 1 < U32
    requires Holds(r, pos, TextBytes(r.c, PadAt(r, pos), s))
    ensures ReadText(r, pos) == Ok(s, pos + |TextBytes(r.c, PadAt(r, pos), s)|)
  {
    hide *;
    WordIs();
    var h := ScalarBytes(r.c, SpOf(r, pos), 4, |s| + 1);
    TextParts(r, pos, s);
    HoldsSplit(r, pos, h, s + [0]);
    ReadsScalar(r, pos, 4, |s| + 1);
    TextBehind(r, pos, pos + |h|, s);
  }

  lemma TextParts(r: Source, pos: nat, s: seq<byte>)
    requires r.base <= pos
    ensures TextBytes(r.c, PadAt(r, pos), s) == ScalarBytes(r.c, SpOf(r, pos), 4, |s| + 1) + (s + [0])
  {
    hide Put, Zeros, Pad;
  }

  lemma TextBehind(r: Source, pos: nat, p: nat, s: seq<byte>)
    requires r.base <= pos && ReadScalar(r, pos, 4) == Ok(|s| + 1, p) && Holds(r, p, s + [0])
    ensures ReadText(r, pos) == Ok(s, p + |s + [0]|)
  {
    hide ReadScalar;
    assert r.buf[p..p + |s| + 1] == s + [0];
    assert r.buf[p..p + |s|] == (s + [0])[..|s|];
  }

  lemma ReadsBulk(r: Source, pos: nat, w: nat, values: seq<nat>)
    requires r.base <= pos <= |r.buf| && (forall i :: 0 <= i < |values| ==> values[i] < Pow256(w))
    requires Holds(r, pos, BulkBytes(r.c, Pad(r.c, SpOf(r, pos), AlignOf(w)), w, values))
    ensures ReadBulk(r, pos, w, |values|)
         == Ok(values, pos + |BulkBytes(r.c, Pad(r.c, SpOf(r, pos), AlignOf(w)), w, values)|)
  {
    hide Pad, Pow256, Flat, Values;
    if values != [] {
      var pad := Pad(r.c, SpOf(r, pos), AlignOf(w));
      HoldsSplit(r, pos, Zeros(pad), Flat(values, w, r.c.le));
      ValuesOfFlat(values, w, r.c.le);
    }
  }

  lemma EmWordParts(id: nat, lc: nat, mu: bool)
    requires id <= MAX_MEMBER_ID && lc < 8
    ensures var h := EmWord(id, lc, mu);
            h < U32 && h % 0x1000_0000 == id && (h / 0x1000_0000) % 8 == lc && (h / 0x8000_0000 % 2 == 1 <==> mu)
  {
    var h := EmWord(id, lc, mu);
    var top := lc + (if mu then 8 else 0);
    assert h == 0x1000_0000 * top + id;
    assert h / 0x1000_0000 == top;
    assert h / 0x8000_0000 == (if mu then 1 else 0);
  }

  lemma AfterWord(r: Source, pos: nat)
    requires r.base <= pos
    ensures PadAt(r, pos + PadAt(r, pos)) == 0 && PadAt(r, pos + PadAt(r, pos) + 4) == 0
  {
    AlignedAfter(r.c, SpOf(r, pos), 4);
    AlignedAlready(r.c, SpOf(r, pos));
    hide Pad;
  }

  /** read_emheader recovers id, length and flag of every EMHEADER, in all of its length codes. */
  lemma EmheaderLossless(r: Source, pos: nat, id: nat, len: nat, mu: bool)
    requires r.base <= pos && id <= MAX_MEMBER_ID && len < U32
    requires Holds(r, pos, EmheaderBytes(r.c, SpOf(r, pos), id, len, mu))
    ensures ReadEmheader(r, pos) == Ok(EmInfo(id, len, mu), pos + |EmheaderBytes(r.c, SpOf(r, pos), id, len, mu)|)
  {
    hide *;
    var lc := LengthCode(len);
    var word := EmWord(id, lc, mu);
    var h := ScalarBytes(r.c, SpOf(r, pos), 4, word);
    var next := if lc == 4 then Put(len, 4, r.c.le) else [];
    CodeIsSmall(len);
    EmWordParts(id, lc, mu);
    WordIs();
    EmheaderParts(r, pos, id, len, mu);
    HoldsSplit(r, pos, h, next);
    ReadsScalar(r, pos, 4, word);
    if lc == 4 {
      AfterWord(r, pos);
      ReadsWord(r, pos + |h|, len);
      NextintOf(r, pos, word, len);
    } else {
      CodedLength(r, pos, word, len);
    }
  }

  lemma WordIs()
    ensures Pow256(4) == U32
  {
    PowValues();
  }

  lemma CodeIsSmall(len: nat)
    ensures LengthCode(len) < 8
  {
  }

  lemma EmheaderParts(r: Source, pos: nat, id: nat, len: nat, mu: bool)
    requires r.base <= pos
    ensures var lc := LengthCode(len);
            var h := ScalarBytes(r.c, SpOf(r, pos), 4, EmWord(id, lc, mu));
            var next := if lc == 4 then Put(len, 4, r.c.le) else [];
            && |h| == PadAt(r, pos) + 4 && |next| == (if lc == 4 then 4 else 0)
            && EmheaderBytes(r.c, SpOf(r, pos), id, len, mu) == h + next
  {
    hide EmWord, Put, PadTo;
  }

  /** The length codes that name the length. */
  lemma CodedLength(r: Source, pos: nat, word: nat, len: nat)
    requires r.base <= pos && LengthCode(len) != 4 && (word / 0x1000_0000) % 8 == LengthCode(len)
    requires ReadScalar(r, pos, 4) == Ok(word, pos + PadAt(r, pos) + 4)
    ensures ReadEmheader(r, pos) == Ok(EmInfo(word % 0x1000_0000, len, word / 0x8000_0000 % 2 == 1), pos + PadAt(r, pos) + 4)
  {
    hide ReadScalar, PadAt;
  }

  /** In XCDR2 a primitive behind the EMHEADER that announces it fills the announced length: there is no padding. */
  lemma CompactFills(c: Cfg, sp: nat, id: nat, w: nat, mu: bool, v: nat)
    requires c.xcdr2 && (w == 1 || w == 2 || w == 4 || w == 8)
    ensures var h := EmheaderBytes(c, sp, id, w, mu);
            && |h| == Pad(c, sp, 4) + 4
            && ScalarBytes(c, sp + |h|, w, v) == Put(v, w, c.le)
  {
    hide Put, EmWord;
    assert Zeros(0) == [];
    AlignedAlready(c, sp);
    AlignedWord(sp + Pad(c, sp, 4), w);
  }

  lemma AlignedWord(sp: nat, w: nat)
    requires PadTo(sp, 4) == 0 && (w == 1 || w == 2 || w == 4 || w == 8)
    ensures PadTo(sp + 4, if w > 4 then 4 else w) == 0
  {
  }

  lemma NextintOf(r: Source, pos: nat, word: nat, len: nat)
    requires r.base <= pos && (word / 0x1000_0000) % 8 == 4
    requires ReadScalar(r, pos, 4) == Ok(word, pos + PadAt(r, pos) + 4)
    requires ReadScalar(r, pos + PadAt(r, pos) + 4, 4) == Ok(len, pos + PadAt(r, pos) + 8)
    ensures ReadEmheader(r, pos)
         == Ok(EmInfo(word % 0x1000_0000, len, word / 0x8000_0000 % 2 == 1), pos + PadAt(r, pos) + 8)
  {
    hide ReadScalar, PadAt;
  }

  /** The EMHEADER that `write_emheader_begin` opens. */
  lemma ReadsFramed(r: Source, pos: nat, id: nat, mu: bool, body: seq<byte>)
    requires r.base <= pos && id <= MAX_MEMBER_ID && |body| < U32
    requires Holds(r, pos, FramedBytes(r.c, PadAt(r, pos), id, mu, body))
    ensures ReadEmheader(r, pos) == Ok(EmInfo(id, |body|, mu), pos + PadAt(r, pos) + 8)
    ensures Holds(r, pos + PadAt(r, pos) + 8, body)
  {
    hide *;
    var word := EmWord(id, 4, mu);
    var h := ScalarBytes(r.c, SpOf(r, pos), 4, word);
    var next := Put(|body|, 4, r.c.le);
    EmWordParts(id, 4, mu);
    WordIs();
    FramedParts(r, pos, id, mu, body);
    AfterWord(r, pos);
    HoldsSplit(r, pos, h + next, body);
    HoldsSplit(r, pos, h, next);
    ReadsScalar(r, pos, 4, word);
    ReadsWord(r, pos + |h|, |body|);
    NextintOf(r, pos, word, |body|);
  }

  lemma FramedParts(r: Source, pos: nat, id: nat, mu: bool, body: seq<byte>)
    requires r.base <= pos
    ensures var h := ScalarBytes(r.c, SpOf(r, pos), 4, EmWord(id, 4, mu));
            && |h| == PadAt(r, pos) + 4
            && FramedBytes(r.c, PadAt(r, pos), id, mu, body) == h + Put(|body|, 4, r.c.le) + body
  {
    hide EmWord, PadTo;
  }

  lemma ReadsDelimiter(r: Source, pos: nat, body: seq<byte>)
    requires r.base <= pos && |body| < U32
    requires Holds(r, pos, DelimitedBytes(r.c, PadAt(r, pos), body))
    ensures ReadScalar(r, pos, 4) == Ok(|body|, pos + PadAt(r, pos) + 4)
    ensures Holds(r, pos + PadAt(r, pos) + 4, body)
  {
    PowValues();
    var h := ScalarBytes(r.c, SpOf(r, pos), 4, |body|);
    HoldsSplit(r, pos, h, body);
    ReadsScalar(r, pos, 4, |body|);
  }

  /** Where the content of a parameter starts, relative to its aligned header. */
  function PidSize(id: nat, len: nat): nat {
    if UsesShortPid(id, len) then 4 else 12
  }

  lemma ShortPidParts(id: nat, mu: bool)
    requires id <= MAX_SHORT_PID
    ensures var h := (if mu then 0x4000 else 0) + id % 0x4000;
            h < 0x1_0000 && h % 0x4000 == id && id != PID_EXTENDED && id != PID_SENTINEL
  {
  }

  lemma ReadsShortPid(r: Source, pos: nat, id: nat, mu: bool, len: nat)
    requires r.base <= pos && id <= MAX_SHORT_PID && len <= MAX_SHORT_LEN
    requires Holds(r, pos + PadAt(r, pos), ShortPid(r.c, id, mu, len))
    ensures ReadPid(r, pos) == Ok(Pid(id, len), pos + PadAt(r, pos) + 4)
  {
    PowValues();
    ShortPidParts(id, mu);
    var p := pos + PadAt(r, pos);
    var h := (if mu then 0x4000 else 0) + id % 0x4000;
    hide Holds, Put, Get, Pow256, PadAt, ReadPid;
    HoldsSplit(r, p, Put(h, 2, r.c.le), Put(len, 2, r.c.le));
    ReadsNumber(r, p, 2, h);
    ReadsNumber(r, p + 2, 2, len);
    PidOf(r, pos, h, len);
  }

  lemma PidOf(r: Source, pos: nat, h: nat, len: nat)
    requires r.base <= pos && pos + PadAt(r, pos) + 4 <= |r.buf|
    requires Get(r.buf[pos + PadAt(r, pos)..pos + PadAt(r, pos) + 2], r.c.le) == h
    requires Get(r.buf[pos + PadAt(r, pos) + 2..pos + PadAt(r, pos) + 4], r.c.le) == len
    ensures h % 0x4000 == PID_SENTINEL ==> ReadPid(r, pos) == Ok(EndOfList, pos + PadAt(r, pos) + 4)
    ensures h % 0x4000 == PID_EXTENDED && pos + PadAt(r, pos) + 12 <= |r.buf| ==>
              var p := pos + PadAt(r, pos);
              ReadPid(r, pos) == Ok(Pid(Get(r.buf[p + 4..p + 8], r.c.le), Get(r.buf[p + 8..p + 12], r.c.le)), p + 12)
    ensures h % 0x4000 != PID_SENTINEL && h % 0x4000 != PID_EXTENDED ==>
              ReadPid(r, pos) == Ok(Pid(h % 0x4000, len), pos + PadAt(r, pos) + 4)
  {
    hide Get, PadTo;
  }

  lemma FlaggedPid(mu: bool)
    ensures ((if mu then 0x4000 else 0) + PID_EXTENDED) % 0x4000 == PID_EXTENDED
    ensures (if mu then 0x4000 else 0) + PID_EXTENDED < Pow256(2) && 8 < Pow256(2)
  {
    PowValues();
  }

  lemma ReadsExtendedPid(r: Source, pos: nat, id: nat, mu: bool, len: nat)
    requires r.base <= pos && id < U32 && len < U32
    requires Holds(r, pos + PadAt(r, pos), ExtendedPid(r.c, id, mu, len))
    ensures ReadPid(r, pos) == Ok(Pid(id, len), pos + PadAt(r, pos) + 12)
  {
    hide *;
    var p := pos + PadAt(r, pos);
    var h := (if mu then 0x4000 else 0) + PID_EXTENDED;
    var a, b, c, d := Put(h, 2, r.c.le), Put(8, 2, r.c.le), Put(id, 4, r.c.le), Put(len, 4, r.c.le);
    ExtendedParts(r.c, id, mu, len);
    WordIs();
    HoldsSplit(r, p, a + b + c, d);
    HoldsSplit(r, p, a + b, c);
    HoldsSplit(r, p, a, b);
    FlaggedPid(mu);
    ReadsNumber(r, p, 2, h);
    ReadsNumber(r, p + 2, 2, 8);
    ReadsNumber(r, p + 4, 4, id);
    ReadsNumber(r, p + 8, 4, len);
    PidOf(r, pos, h, 8);
  }

  lemma ExtendedParts(c: Cfg, id: nat, mu: bool, len: nat)
    ensures ExtendedPid(c, id, mu, len) ==
            Put((if mu then 0x4000 else 0) + PID_EXTENDED, 2, c.le) + Put(8, 2, c.le) + Put(id, 4, c.le) + Put(len, 4, c.le)
  {
    hide Put;
  }

  /** No header the writer chooses is mistaken for another kind: id and content length come back. */
  lemma ReadsParam(r: Source, pos: nat, id: nat, mu: bool, body: seq<byte>)
    requires r.base <= pos && id < U32 && |body| < U32
    requires Holds(r, pos, ParamBytes(r.c, PadAt(r, pos), id, mu, body, body))
    ensures ReadPid(r, pos) == Ok(Pid(id, |body|), pos + PadAt(r, pos) + PidSize(id, |body|))
    ensures Holds(r, pos + PadAt(r, pos) + PidSize(id, |body|), body)
  {
    hide ShortPid, ExtendedPid, ReadPid, Holds;
    var z := Zeros(PadAt(r, pos));
    if UsesShortPid(id, |body|) {
      HoldsSplit(r, pos, z, ShortPid(r.c, id, mu, |body|) + body);
      HoldsSplit(r, pos + |z|, ShortPid(r.c, id, mu, |body|), body);
      ReadsShortPid(r, pos, id, mu, |body|);
    } else {
      HoldsSplit(r, pos, z, ExtendedPid(r.c, id, mu, |body|) + body);
      HoldsSplit(r, pos + |z|, ExtendedPid(r.c, id, mu, |body|), body);
      ReadsExtendedPid(r, pos, id, mu, |body|);
    }
  }

  lemma SentinelRaw()
    ensures PID_SENTINEL % 0x4000 == PID_SENTINEL
  {
  }

  lemma SentinelParts(c: Cfg, pad: nat)
    ensures SentinelBytes(c, pad) == Zeros(pad) + Put(PID_SENTINEL, 2, c.le) + Put(0, 2, c.le)
    ensures PID_SENTINEL < Pow256(2) && 0 < Pow256(2)
  {
    PowValues();
    hide Put, Zeros, Pow256;
  }

  lemma ReadsSentinel(r: Source, pos: nat)
    requires r.base <= pos && Holds(r, pos, SentinelBytes(r.c, PadAt(r, pos)))
    ensures ReadPid(r, pos) == Ok(EndOfList, pos + PadAt(r, pos) + 4)
  {
    hide *;
    SentinelParts(r.c, PadAt(r, pos));
    var z, a, b := Zeros(PadAt(r, pos)), Put(PID_SENTINEL, 2, r.c.le), Put(0, 2, r.c.le);
    HoldsSplit(r, pos, z + a, b);
    HoldsSplit(r, pos, z, a);
    ReadsNumber(r, pos + |z|, 2, PID_SENTINEL);
    ReadsNumber(r, pos + |z| + 2, 2, 0);
    SentinelRaw();
    PidOf(r, pos, PID_SENTINEL, 0);
  }
}
