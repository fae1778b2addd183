/**
  What the reader makes of arbitrary bytes, word by word: well formed or not, with the error of each failure.
 */
module ReadFacts {
  import opened Wrappers
  import opened Bytes
  import opened BulkCopy
  import opened Scripts
  import opened WriterSteps
  import opened WireTypes
  import opened Decoding
  import opened CdrReader
  import opened WireFormat
  import opened WireFacts

  /** The number at the next multiple of 4. */
  function WordBehind(r: Source, pos: nat): Option<nat>
    requires r.base <= pos
  {
    var p := pos + ToFour(pos - r.base);
    if p + 4 <= |r.buf| then Some(Get(r.buf[p..p + 4], r.c.le)) else None
  }

  lemma WordRead(r: Source, pos: nat)
    requires r.base <= pos
    ensures ReadScalar(r, pos, 4) ==
            if WordBehind(r, pos).Some? then Ok(WordBehind(r, pos).value, pos + ToFour(pos - r.base) + 4) else Bad(Underflow)
  {
    hide Get;
  }

  /** A number of any width: the padding of the table, then the bytes, or an underflow. */
  lemma NumberRead(r: Source, e: Type, pos: nat)
    requires r.base <= pos && IsPrimitive(e) && IsType(e)
    ensures var p, w := pos + PaddingOf(r.c, e, pos - r.base), BytesOf(e);
            ReadScalar(r, pos, w) == if p + w <= |r.buf| then Ok(Get(r.buf[p..p + w], r.c.le), p + w) else Bad(Underflow)
  {
    PaddingIs(r.c, e, pos - r.base);
    hide PaddingOf, BytesOf, Get, Pad, AlignOf;
  }

  /** A string: a length of 0 is the empty text, any other one counts a last byte that is dropped, whatever it is. */
  lemma TextRead(r: Source, pos: nat)
    requires r.base <= pos
    ensures var n, p := WordBehind(r, pos), pos + ToFour(pos - r.base) + 4;
            && (n == None ==> ReadText(r, pos) == Bad(Underflow))
            && (n == Some(0) ==> ReadText(r, pos) == Ok([], p))
            && (n.Some? && n.value > 0 && p + n.value > |r.buf| ==> ReadText(r, pos) == Bad(Underflow))
            && (n.Some? && n.value > 0 && p + n.value <= |r.buf| ==> ReadText(r, pos) == Ok(r.buf[p..p + n.value - 1], p + n.value))
  {
    WordRead(r, pos);
    hide ReadScalar, WordBehind, ToFour;
  }

  /** A string copied to an array, which must have room for a NUL even when the text is empty. */
  lemma CopyRead(r: Source, pos: nat, capacity: nat)
    requires r.base <= pos
    ensures var n, p := WordBehind(r, pos), pos + ToFour(pos - r.base) + 4;
            && (n == None ==> ReadCopy(r, pos, capacity) == Bad(Underflow))
            && (n == Some(0) ==> ReadCopy(r, pos, capacity) == if capacity == 0 then Bad(Overflow) else Ok([], p))
            && (n.Some? && n.value > 0 && p + n.value > |r.buf| ==> ReadCopy(r, pos, capacity) == Bad(Underflow))
            && (n.Some? && n.value > 0 && p + n.value <= |r.buf| ==>
                  ReadCopy(r, pos, capacity) == if n.value <= capacity then Ok(r.buf[p..p + n.value - 1], p + n.value) else Bad(Overflow))
  {
    TextRead(r, pos);
    hide ReadText, WordBehind, ToFour;
  }

  /** A count: one byte more than there are is an underflow. */
  lemma CountRead(r: Source, pos: nat)
    requires r.base <= pos
    ensures var n, p := WordBehind(r, pos), pos + ToFour(pos - r.base) + 4;
            && (n == None ==> ReadCount(r, pos) == Bad(Underflow))
            && (n.Some? ==> ReadCount(r, pos) == if p + n.value <= |r.buf| then Ok(n.value, p) else Bad(Underflow))
  {
    WordRead(r, pos);
    hide ReadScalar, ToFour;
  }

  /** What each of the eight length codes means; with codes 5 to 7 the next number stays part of the member. */
  function LengthRule(id: nat, mu: bool, lc: nat, next: Option<nat>, p: nat): Read<EmInfo> {
    match lc
    case 0 => Ok(EmInfo(id, 1, mu), p)
    case 1 => Ok(EmInfo(id, 2, mu), p)
    case 2 => Ok(EmInfo(id, 4, mu), p)
    case 3 => Ok(EmInfo(id, 8, mu), p)
    case _ =>
      if next == None then Bad(Underflow)
      else
        match lc
        case 4 => Ok(EmInfo(id, next.value, mu), p + 4)
        case 5 => Ok(EmInfo(id, next.value, mu), p)
        case 6 => Ok(EmInfo(id, (4 + 4 * next.value) % 0x1_0000_0000, mu), p)
        case _ => Ok(EmInfo(id, (4 + 8 * next.value) % 0x1_0000_0000, mu), p)
  }

  function NumberHere(r: Source, p: nat): Option<nat> {
    if p + 4 <= |r.buf| then Some(Get(r.buf[p..p + 4], r.c.le)) else None
  }

  /** An EMHEADER of any id, flag and length code. */
  lemma EmheaderRead(r: Source, pos: nat, id: nat, mu: bool, lc: nat)
    requires r.base <= pos && lc < 8 && (WordBehind(r, pos).Some? ==> IsMark(WordBehind(r, pos).value, id, mu, lc))
    ensures var p := pos + ToFour(pos - r.base) + 4;
            ReadEmheader(r, pos) ==
            if WordBehind(r, pos) == None then Bad(Underflow) else LengthRule(id, mu, lc, NumberHere(r, p), p)
  {
    hide *;
    var p := pos + ToFour(pos - r.base) + 4;
    WordRead(r, pos);
    FourBehind(pos - r.base);
    NextWord(r, p);
    if WordBehind(r, pos).Some? {
      var h := WordBehind(r, pos).value;
      FlagIs(h, id, mu, lc);
      WordDecides(r, pos, h, p);
    } else {
      NoEmheader(r, pos);
    }
  }

  lemma FourBehind(sp: nat)
    ensures (sp + ToFour(sp) + 4) % 4 == 0
  {
  }

  lemma NoEmheader(r: Source, pos: nat)
    requires r.base <= pos && ReadScalar(r, pos, 4) == Bad(Underflow)
    ensures ReadEmheader(r, pos) == Bad(Underflow)
  {
    hide ReadScalar;
  }

  lemma WordDecides(r: Source, pos: nat, h: nat, p: nat)
    requires r.base <= pos <= p && ReadScalar(r, pos, 4) == Ok(h, p)
    requires ReadScalar(r, p, 4) == if NumberHere(r, p).Some? then Ok(NumberHere(r, p).value, p + 4) else Bad(Underflow)
    ensures ReadEmheader(r, pos) == LengthRule(h % 0x1000_0000, h / 0x8000_0000 % 2 == 1, h / 0x1000_0000 % 8, NumberHere(r, p), p)
  {
    hide ReadScalar, Get;
  }

  lemma FlagIs(h: nat, id: nat, mu: bool, lc: nat)
    requires IsMark(h, id, mu, lc)
    ensures h % 0x1000_0000 == id && h / 0x1000_0000 % 8 == lc && (h / 0x8000_0000 % 2 == 1) == mu
  {
  }

  lemma NextWord(r: Source, p: nat)
    requires r.base <= p && (p - r.base) % 4 == 0
    ensures ReadScalar(r, p, 4) == if NumberHere(r, p).Some? then Ok(NumberHere(r, p).value, p + 4) else Bad(Underflow)
    ensures NumberHere(r, p).Some? <==> p + 4 <= |r.buf|
    ensures p + 4 <= |r.buf| ==> NumberHere(r, p) == Some(Get(r.buf[p..p + 4], r.c.le))
  {
    WordRead(r, p);
    hide ReadScalar, Get;
  }

  /** A parameter header: the two flag bits are ignored, 0x3F02 ends the list, 0x3F01 announces the long form. */
  lemma PidRead(r: Source, pos: nat)
    requires r.base <= pos
    ensures var p := pos + ToFour(pos - r.base);
            && (p + 4 > |r.buf| ==> ReadPid(r, pos) == Bad(Underflow))
            && (p + 4 <= |r.buf| ==>
                  var raw, len := Get(r.buf[p..p + 2], r.c.le) % 0x4000, Get(r.buf[p + 2..p + 4], r.c.le);
                  && (raw == 0x3F02 ==> ReadPid(r, pos) == Ok(EndOfList, p + 4))
                  && (raw == 0x3F01 && p + 12 > |r.buf| ==> ReadPid(r, pos) == Bad(Underflow))
                  && (raw == 0x3F01 && p + 12 <= |r.buf| ==>
                        ReadPid(r, pos) == Ok(Pid(Get(r.buf[p + 4..p + 8], r.c.le), Get(r.buf[p + 8..p + 12], r.c.le)), p + 12))
                  && (raw != 0x3F01 && raw != 0x3F02 ==> ReadPid(r, pos) == Ok(Pid(raw, len), p + 4)))
  {
    hide Get;
  }

  /** Every octet but 0 is a true. */
  lemma BoolsRead(r: Source, n: nat, pos: nat)
    requires r.base <= pos <= |r.buf| && IsType(Arr(Bool, n))
    ensures if pos + n <= |r.buf|
            then DecodePlain(r, Arr(Bool, n), pos) == Ok(List(Truths(r.buf[pos..pos + n])), pos + n)
            else DecodePlain(r, Arr(Bool, n), pos) == Bad(Underflow)
  {
    hide Values, Wrap, Truths;
    assert n * 1 == n;
    assert Pad(r.c, pos - r.base, 1) == 0;
    if pos + n <= |r.buf| {
      Octets(r.buf[pos..pos + n], n, r.c.le);
    }
  }

  lemma BoolRead(r: Source, pos: nat)
    requires r.base <= pos <= |r.buf| && IsType(Bool)
    ensures if pos < |r.buf|
            then DecodePlain(r, Bool, pos) == Ok(Num(if r.buf[pos] == 0 then 0 else 1), pos + 1) && ReadBool(r, pos) == Ok(r.buf[pos] != 0, pos + 1)
            else DecodePlain(r, Bool, pos) == Bad(Underflow) && ReadBool(r, pos) == Bad(Underflow)
  {
    NumberRead(r, Bool, pos);
    if pos < |r.buf| {
      OneByte(r.buf[pos..pos + 1], r.c.le);
    }
    hide ReadScalar, Get;
  }

  function Truths(b: seq<byte>): (vs: seq<Value>)
    ensures |vs| == |b|
  {
    seq(|b|, i requires 0 <= i < |b| => if b[i] == 0 then Num(0) else Num(1))
  }

  lemma Octets(b: seq<byte>, n: nat, le: bool)
    requires |b| == n == n * 1
    ensures Wrap(Bool, Values(b, n, 1, le)) == Truths(b)
  {
    forall i | 0 <= i < n ensures Values(b, n, 1, le)[i] == b[i] {
      OctetAt(b, n, le, i);
    }
    hide Values;
  }

  lemma {:induction false} OctetAt(b: seq<byte>, n: nat, le: bool, i: nat)
    requires |b| == n == n * 1 && i < n
    ensures Values(b, n, 1, le)[i] == b[i]
    decreases n
  {
    assert (n - 1) * 1 == n - 1;
    if i == n - 1 {
      OneByte(b[n - 1..], le);
    } else {
      OctetAt(b[..n - 1], n - 1, le, i);
    }
  }

  lemma OneByte(b: seq<byte>, le: bool)
    requires |b| == 1
    ensures Get(b, le) == b[0]
  {
    assert Reverse(b) == b && b[1..] == [] && FromLe([]) == 0;
    assert FromLe(b) == b[0] + 256 * FromLe(b[1..]);
  }

  /** The twelve identifiers, and nothing else. */
  lemma EncapTable(id: nat)
    ensures id in {0, 2} ==> EncapCfg(id) == Ok(Cfg(false, false), 4)
    ensures id in {1, 3} ==> EncapCfg(id) == Ok(Cfg(true, false), 4)
    ensures id in {6, 8, 10} ==> EncapCfg(id) == Ok(Cfg(false, true), 4)
    ensures id in {7, 9, 11} ==> EncapCfg(id) == Ok(Cfg(true, true), 4)
    ensures id in {4, 5} || id > 11 ==> EncapCfg(id).Bad?
  {
  }
}
