/**
  Scripts of CDR writer calls and the bytes they stand for.

  A script is what a generated serializer does with a writer: a well-nested sequence of
  write calls, where a DHEADER, an EMHEADER or a parameter header is opened, a body is written
  and the header is finalized.  `Layout` gives the bytes of a script directly: every length
  header holds the size of its body, and there is no back-patching and no moving of bytes.
 */
module Scripts {
  import opened Bytes

  /** Byte order and encoding version of a stream. */
  datatype Cfg = Cfg(le: bool, xcdr2: bool)

  datatype Calls =
    | Done
    | Scalar(width: nat, value: nat, rest: Calls)              // write_bool/u8/…/u64/f32/f64/f128/enum/seq_header
    | Bulk(width: nat, values: seq<nat>, rest: Calls)          // write_prim_array
    | Text(s: seq<byte>, rest: Calls)                          // write_string
    | Emheader(id: nat, len: nat, mu: bool, rest: Calls)       // write_emheader
    | Delimited(body: Calls, rest: Calls)                      // write_dheader_begin … _finalize
    | Framed(id: nat, mu: bool, body: Calls, rest: Calls)      // write_emheader_begin … _finalize
    | Param(id: nat, mu: bool, body: Calls, rest: Calls)       // write_pid_begin … _finalize
    | Sentinel(rest: Calls)                                    // write_pid_sentinel

  const MAX_MEMBER_ID: nat := 0x0FFF_FFFF
  const MAX_SHORT_PID: nat := 0x3F00
  const PID_EXTENDED: nat := 0x3F01
  const PID_SENTINEL: nat := 0x3F02
  const MAX_SHORT_LEN: nat := 0xFFFF
  const U32: nat := 0x1_0000_0000

  /** XCDR2 never aligns to more than 4. */
  function Cap(c: Cfg, a: nat): nat {
    if c.xcdr2 && a > 4 then 4 else a
  }

  function Pad(c: Cfg, sp: nat, a: nat): nat {
    PadTo(sp, Cap(c, a))
  }

  /** A 16-byte float128 aligns like an 8-byte value. */
  function AlignOf(w: nat): nat {
    if w == 16 then 8 else w
  }

  function ScalarBytes(c: Cfg, sp: nat, w: nat, v: nat): seq<byte> {
    Zeros(Pad(c, sp, AlignOf(w))) + Put(v, w, c.le)
  }

  /** Same-width values back to back. */
  function Flat(values: seq<nat>, w: nat, le: bool): seq<byte> {
    if values == [] then [] else Put(values[0], w, le) + Flat(values[1..], w, le)
  }

  lemma {:induction false} FlatLength(values: seq<nat>, w: nat, le: bool)
    ensures |Flat(values, w, le)| == |values| * w
  {
    if values != [] {
      FlatLength(values[1..], w, le);
      assert |values| * w == w + (|values| - 1) * w;
    }
  }

  /** The LC field of an EMHEADER: 0..3 name the lengths 1, 2, 4, 8; 4 announces a NEXTINT. */
  function LengthCode(len: nat): nat {
    if len == 1 then 0 else if len == 2 then 1 else if len == 4 then 2 else if len == 8 then 3 else 4
  }

  function EmWord(id: nat, lc: nat, mu: bool): nat {
    (if mu then 0x8000_0000 else 0) + lc * 0x1000_0000 + id % 0x1000_0000
  }

  function EmheaderBytes(c: Cfg, sp: nat, id: nat, len: nat, mu: bool): seq<byte> {
    var lc := LengthCode(len);
    ScalarBytes(c, sp, 4, EmWord(id, lc, mu)) + (if lc == 4 then Put(len, 4, c.le) else [])
  }

  function ShortPid(c: Cfg, id: nat, mu: bool, len: nat): (h: seq<byte>)
    ensures |h| == 4
  {
    Put((if mu then 0x4000 else 0) + id % 0x4000, 2, c.le) + Put(len, 2, c.le)
  }

  function ExtendedPid(c: Cfg, id: nat, mu: bool, len: nat): (h: seq<byte>)
    ensures |h| == 12
  {
    Put((if mu then 0x4000 else 0) + PID_EXTENDED, 2, c.le) + Put(8, 2, c.le) + Put(id, 4, c.le) + Put(len, 4, c.le)
  }

  /** Does a parameter with this id and content length use the 4-byte header? */
  predicate UsesShortPid(id: nat, len: nat) {
    id <= MAX_SHORT_PID && len <= MAX_SHORT_LEN
  }

  function BulkBytes(c: Cfg, pad: nat, w: nat, values: seq<nat>): seq<byte> {
    if values == [] then [] else Zeros(pad) + Flat(values, w, c.le)
  }

  function TextBytes(c: Cfg, pad: nat, s: seq<byte>): seq<byte> {
    Zeros(pad) + Put(|s| + 1, 4, c.le) + s + [0]
  }

  function DelimitedBytes(c: Cfg, pad: nat, body: seq<byte>): seq<byte> {
    Zeros(pad) + Put(|body|, 4, c.le) + body
  }

  function FramedBytes(c: Cfg, pad: nat, id: nat, mu: bool, body: seq<byte>): seq<byte> {
    Zeros(pad) + Put(EmWord(id, 4, mu), 4, c.le) + Put(|body|, 4, c.le) + body
  }

  /** `short` and `long` are the body as it lies behind a 4-byte and behind a 12-byte header. */
  function ParamBytes(c: Cfg, pad: nat, id: nat, mu: bool, short: seq<byte>, long: seq<byte>): seq<byte> {
    Zeros(pad) +
    if UsesShortPid(id, |short|) then ShortPid(c, id, mu, |short|) + short
    else ExtendedPid(c, id, mu, |long|) + long
  }

  function SentinelBytes(c: Cfg, pad: nat): seq<byte> {
    Zeros(pad) + Put(PID_SENTINEL, 2, c.le) + Put(0, 2, c.le)
  }

  /** The bytes of the first call of a script that starts at stream position `sp`. */
  function Head(c: Cfg, k: Calls, sp: nat): seq<byte>
    requires !k.Done?
    decreases k, 0
  {
    var pad := Pad(c, sp, 4);
    match k
    case Scalar(w, v, _) => ScalarBytes(c, sp, w, v)
    case Bulk(w, vs, _) => BulkBytes(c, Pad(c, sp, AlignOf(w)), w, vs)
    case Text(s, _) => TextBytes(c, pad, s)
    case Emheader(id, len, mu, _) => EmheaderBytes(c, sp, id, len, mu)
    case Delimited(body, _) => DelimitedBytes(c, pad, Layout(c, body, sp + pad + 4))
    case Framed(id, mu, body, _) => FramedBytes(c, pad, id, mu, Layout(c, body, sp + pad + 8))
    case Param(id, mu, body, _) =>
      ParamBytes(c, pad, id, mu, Layout(c, body, sp + pad + 4), Layout(c, body, sp + pad + 12))
    case Sentinel(_) => SentinelBytes(c, pad)
  }

  /** The bytes of a whole script. */
  function Layout(c: Cfg, k: Calls, sp: nat): seq<byte>
    decreases k, 1
  {
    if k.Done? then []
    else
      var h := Head(c, k, sp);
      h + Layout(c, k.rest, sp + |h|)
  }

  /** Widths are CDR widths, lengths and ids are 32-bit, bulk widths are those of a C integer. */
  predicate WellFormed(k: Calls) {
    match k
    case Done => true
    case Scalar(w, _, rest) => IsWidth(w) && WellFormed(rest)
    case Bulk(w, vs, rest) => (w == 1 || w == 2 || w == 4 || w == 8) && (forall i :: 0 <= i < |vs| ==> vs[i] < Pow256(w)) && WellFormed(rest)
    case Text(_, rest) => WellFormed(rest)
    case Emheader(id, len, _, rest) => id < U32 && len < U32 && WellFormed(rest)
    case Delimited(body, rest) => WellFormed(body) && WellFormed(rest)
    case Framed(id, _, body, rest) => id < U32 && WellFormed(body) && WellFormed(rest)
    case Param(id, _, body, rest) => id < U32 && WellFormed(body) && WellFormed(rest)
    case Sentinel(rest) => WellFormed(rest)
  }

  /** Every EMHEADER id fits in its 28 bits. */
  predicate IdsFit(k: Calls) {
    match k
    case Done => true
    case Scalar(_, _, rest) => IdsFit(rest)
    case Bulk(_, _, rest) => IdsFit(rest)
    case Text(_, rest) => IdsFit(rest)
    case Emheader(id, _, _, rest) => id <= MAX_MEMBER_ID && IdsFit(rest)
    case Delimited(body, rest) => IdsFit(body) && IdsFit(rest)
    case Framed(id, _, body, rest) => id <= MAX_MEMBER_ID && IdsFit(body) && IdsFit(rest)
    case Param(_, _, body, rest) => IdsFit(body) && IdsFit(rest)
    case Sentinel(rest) => IdsFit(rest)
  }

  function Append(a: Calls, b: Calls): Calls {
    if a.Done? then b else a.(rest := Append(a.rest, b))
  }

  /** Two stream positions the alignment rules cannot tell apart. */
  predicate Congruent(c: Cfg, sp: nat, sq: nat) {
    if c.xcdr2 then (sp as int - sq) % 4 == 0 else (sp as int - sq) % 8 == 0
  }

  lemma Halves(d: int)
    ensures d % 8 == 0 ==> d % 4 == 0
    ensures d % 4 == 0 ==> d % 2 == 0
  {
    if d % 8 == 0 { Quotient4(d, 2 * (d / 8), 0); }
    if d % 4 == 0 { Quotient2(d, 2 * (d / 4), 0); }
  }

  lemma SamePad8(sp: nat, sq: nat)
    requires (sp as int - sq) % 8 == 0
    ensures PadTo(sp, 8) == PadTo(sq, 8)
  {
    var k := (sp as int - sq) / 8;
    Quotient8(sp, sq / 8 + k, sq % 8);
  }

  lemma SamePad4(sp: nat, sq: nat)
    requires (sp as int - sq) % 4 == 0
    ensures PadTo(sp, 4) == PadTo(sq, 4)
  {
    var k := (sp as int - sq) / 4;
    Quotient4(sp, sq / 4 + k, sq % 4);
  }

  lemma SamePad2(sp: nat, sq: nat)
    requires (sp as int - sq) % 2 == 0
    ensures PadTo(sp, 2) == PadTo(sq, 2)
  {
    var k := (sp as int - sq) / 2;
    Quotient2(sp, sq / 2 + k, sq % 2);
  }

  lemma NoPad(sp: nat, a: nat)
    requires a != 2 && a != 4 && a != 8
    ensures PadTo(sp, a) == 0
  {
  }

  lemma CongruentPad(c: Cfg, sp: nat, sq: nat, w: nat)
    requires Congruent(c, sp, sq)
    ensures Pad(c, sp, AlignOf(w)) == Pad(c, sq, AlignOf(w))
  {
    hide PadTo;
    Halves(sp as int - sq);
    var a := Cap(c, AlignOf(w));
    if a == 8 {
      SamePad8(sp, sq);
    } else if a == 4 {
      SamePad4(sp, sq);
    } else if a == 2 {
      SamePad2(sp, sq);
    } else {
      NoPad(sp, a);
      NoPad(sq, a);
    }
  }

  lemma CongruentPlus(c: Cfg, sp: nat, sq: nat, n: nat)
    requires Congruent(c, sp, sq)
    ensures Congruent(c, sp + n, sq + n)
  {
    assert (sp + n) as int - (sq + n) == sp as int - sq;
  }

  /** Eight is a multiple of every CDR alignment, which is what makes header widening sound. */
  lemma CongruentShift8(c: Cfg, sp: nat)
    ensures Congruent(c, sp, sp + 8)
  {
  }

  lemma TranslateLeaf(c: Cfg, k: Calls, sp: nat, sq: nat)
    requires k.Scalar? || k.Bulk? || k.Text? || k.Emheader? || k.Sentinel?
    requires Congruent(c, sp, sq)
    ensures Head(c, k, sp) == Head(c, k, sq)
  {
    CongruentPad(c, sp, sq, 4);
    if k.Scalar? || k.Bulk? {
      CongruentPad(c, sp, sq, k.width);
    }
  }

  lemma {:induction false} TranslateHead(c: Cfg, k: Calls, sp: nat, sq: nat)
    requires !k.Done? && Congruent(c, sp, sq)
    ensures Head(c, k, sp) == Head(c, k, sq)
    decreases k, 0
  {
    hide Congruent, PadTo, ScalarBytes, DelimitedBytes, FramedBytes, ParamBytes;
    CongruentPad(c, sp, sq, 4);
    var pad := Pad(c, sp, 4);
    match k
    case Delimited(body, _) => TranslateBy(c, body, sp, sq, pad + 4);
    case Framed(_, _, body, _) => TranslateBy(c, body, sp, sq, pad + 8);
    case Param(_, _, body, _) =>
      TranslateBy(c, body, sp, sq, pad + 4);
      TranslateBy(c, body, sp, sq, pad + 12);
    case _ => TranslateLeaf(c, k, sp, sq);
  }

  lemma {:induction false} TranslateBy(c: Cfg, k: Calls, sp: nat, sq: nat, n: nat)
    requires Congruent(c, sp, sq)
    ensures Layout(c, k, sp + n) == Layout(c, k, sq + n)
    decreases k, 2
  {
    CongruentPlus(c, sp, sq, n);
    Translate(c, k, sp + n, sq + n);
  }

  lemma LayoutDone(c: Cfg, sp: nat)
    ensures Layout(c, Done, sp) == []
  {
  }

  lemma LayoutUnfold(c: Cfg, k: Calls, sp: nat)
    requires !k.Done?
    ensures var h := Head(c, k, sp); Layout(c, k, sp) == h + Layout(c, k.rest, sp + |h|)
  {
    hide Head;
  }

  /** A script lays out the same bytes at congruent stream positions. */
  lemma {:induction false} Translate(c: Cfg, k: Calls, sp: nat, sq: nat)
    requires Congruent(c, sp, sq)
    ensures Layout(c, k, sp) == Layout(c, k, sq)
    decreases k, 1
  {
    hide *;
    if k.Done? {
      LayoutDone(c, sp);
      LayoutDone(c, sq);
    } else {
      TranslateHead(c, k, sp, sq);
      LayoutUnfold(c, k, sp);
      LayoutUnfold(c, k, sq);
      TranslateBy(c, k.rest, sp, sq, |Head(c, k, sp)|);
    }
  }

  lemma Assoc(a: seq<byte>, b: seq<byte>, c: seq<byte>)
    ensures a + (b + c) == (a + b) + c
  {
  }

  lemma AppendDone(b: Calls)
    ensures Append(Done, b) == b
  {
  }

  lemma HeadAppend(c: Cfg, a: Calls, b: Calls, sp: nat)
    requires !a.Done?
    ensures !Append(a, b).Done? && Append(a, b).rest == Append(a.rest, b)
    ensures Head(c, Append(a, b), sp) == Head(c, a, sp)
  {
  }

  lemma {:induction false} LayoutAppend(c: Cfg, a: Calls, b: Calls, sp: nat)
    ensures Layout(c, Append(a, b), sp) == Layout(c, a, sp) + Layout(c, b, sp + |Layout(c, a, sp)|)
  {
    hide Head, Append;
    if a.Done? {
      AppendDone(b);
    } else {
      var h := Head(c, a, sp);
      HeadAppend(c, a, b, sp);
      LayoutAppend(c, a.rest, b, sp + |h|);
      var t := Layout(c, a.rest, sp + |h|);
      Assoc(h, t, Layout(c, b, sp + |h| + |t|));
    }
  }

  lemma AppendKeeps(a: Calls, b: Calls)
    ensures WellFormed(Append(a, b)) <==> WellFormed(a) && WellFormed(b)
    ensures IdsFit(Append(a, b)) <==> IdsFit(a) && IdsFit(b)
  {
  }

  /** One call of `write_u8` … `write_u64` per element. */
  function PerElement(w: nat, values: seq<nat>): Calls {
    if values == [] then Done else Scalar(w, values[0], PerElement(w, values[1..]))
  }

  lemma AlignedAfter(c: Cfg, sp: nat, w: nat)
    requires w == 1 || w == 2 || w == 4 || w == 8
    ensures Pad(c, sp + Pad(c, sp, w) + w, w) == 0
  {
    hide PadTo;
    var a := Cap(c, w);
    var p := sp + PadTo(sp, a);
    if a == 8 {
      Quotient8(p + 8, p / 8 + 1, 0);
      PadOfMultiple(p + 8);
    } else if a == 4 {
      Quotient4(p + w, p / 4 + w / 4, 0);
      PadOfMultiple(p + w);
    } else if a == 2 {
      Quotient2(p + 2, p / 2 + 1, 0);
      PadOfMultiple(p + 2);
    }
  }

  lemma PadOfMultiple(sp: nat)
    ensures sp % 8 == 0 ==> PadTo(sp, 8) == 0
    ensures sp % 4 == 0 ==> PadTo(sp, 4) == 0
    ensures sp % 2 == 0 ==> PadTo(sp, 2) == 0
  {
  }

  lemma AlignedAlready(c: Cfg, sp: nat)
    ensures Pad(c, sp + Pad(c, sp, 4), 4) == 0
  {
    PadOfMultiple(sp + PadTo(sp, 4));
    hide PadTo;
  }

  lemma ScalarAligned(c: Cfg, sp: nat, w: nat, v: nat)
    requires Pad(c, sp, AlignOf(w)) == 0
    ensures ScalarBytes(c, sp, w, v) == Put(v, w, c.le)
  {
  }

  lemma LayoutOne(c: Cfg, k: Calls, sp: nat)
    requires !k.Done? && k.rest == Done
    ensures Layout(c, k, sp) == Head(c, k, sp)
  {
    hide Head;
    assert Layout(c, k.rest, sp + |Head(c, k, sp)|) == [];
  }

  lemma DelimitedLayout(c: Cfg, k: Calls, sp: nat)
    ensures var b := Layout(c, k, sp + Pad(c, sp, 4) + 4);
            Layout(c, Delimited(k, Done), sp) == Zeros(Pad(c, sp, 4)) + Put(|b|, 4, c.le) + b
  {
    LayoutOne(c, Delimited(k, Done), sp);
    hide Layout, Pad, Put, Zeros;
  }

  lemma ScalarLayout(c: Cfg, w: nat, v: nat, sp: nat)
    ensures Layout(c, Scalar(w, v, Done), sp) == Zeros(Pad(c, sp, AlignOf(w))) + Put(v, w, c.le)
    ensures |Layout(c, Scalar(w, v, Done), sp)| == Pad(c, sp, AlignOf(w)) + w
  {
    LayoutOne(c, Scalar(w, v, Done), sp);
    hide Layout, Pad, Put, Zeros, AlignOf;
  }

  lemma {:induction false} PerElementAligned(c: Cfg, w: nat, values: seq<nat>, sp: nat)
    requires (w == 1 || w == 2 || w == 4 || w == 8) && Pad(c, sp, w) == 0
    ensures Layout(c, PerElement(w, values), sp) == Flat(values, w, c.le)
  {
    hide Pad, ScalarBytes, Put;
    if values != [] {
      AlignedAfter(c, sp, w);
      ScalarAligned(c, sp, w, values[0]);
      PerElementAligned(c, w, values[1..], sp + w);
    }
  }

  /** The bulk copy lays out exactly what the per-element loop would, and nothing for no elements. */
  lemma BulkIsPerElement(c: Cfg, w: nat, values: seq<nat>, sp: nat)
    requires w == 1 || w == 2 || w == 4 || w == 8
    ensures Layout(c, Bulk(w, values, Done), sp) == Layout(c, PerElement(w, values), sp)
  {
    hide Pad, Put, Zeros;
    LayoutOne(c, Bulk(w, values, Done), sp);
    if values != [] {
      AlignedAfter(c, sp, w);
      PerElementAligned(c, w, values[1..], sp + |ScalarBytes(c, sp, w, values[0])|);
      Assoc(Zeros(Pad(c, sp, w)), Put(values[0], w, c.le), Flat(values[1..], w, c.le));
    }
  }
}
