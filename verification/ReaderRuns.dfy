/**
  Arbitrary runs of the reader: any calls in any order over any bytes, ending frames at any position remembered
  from earlier in the run.
 */
module ReaderRuns {
  import opened Bytes
  import opened BulkCopy
  import opened WriterSteps
  import opened WireTypes
  import opened Decoding
  import opened CdrReader

  datatype Call =
    | CallAlign(alignment: nat)
    | CallUint(width: nat)
    | CallF128
    | CallString
    | CallStringCopy(capacity: nat)
    | CallSeqHeader
    | CallPrimArray(count: nat, width: nat)
    | CallBoolArray(count: nat)
    | CallMark
    | CallDheaderEnd(mark: nat, size: nat)
    | CallEmheader
    | CallPid
    | CallSkip(count: nat)
    | CallField(t: Type)

  /** Arguments the interface knows. */
  predicate Known(c: Call) {
    match c
    case CallAlign(a) => a in {0, 1, 2, 4, 8}
    case CallUint(w) => w == 1 || w == 2 || w == 4 || w == 8
    case CallPrimArray(_, w) => IsBulkWidth(w)
    case CallField(t) => IsType(t)
    case _ => true
  }

  /** One call; `marks` are positions the reader has been at. */
  method Play(r: Reader, c: Call, marks: seq<nat>) returns (later: seq<nat>)
    requires r.Valid() && Known(c) && (forall i :: 0 <= i < |marks| ==> r.headerSize <= marks[i])
    modifies r
    ensures r.Valid() && (forall i :: 0 <= i < |later| ==> r.headerSize <= later[i])
    ensures old(r.error) != OK ==> r.error == old(r.error) && r.pos == old(r.pos)
    ensures r.error == old(r.error) || r.error == Underflow || r.error == Overflow
  {
    hide IsType, Decode, ReadScalar, ReadText, ReadCopy, ReadCount, ReadBulk, ReadEmheader, ReadPid, Values;
    later := marks;
    match c {
      case CallAlign(a) =>
        var _ := r.ReadAlign(a);
      case CallUint(w) =>
        var _, _ := r.ReadUint(w);
      case CallF128 =>
        var _, _ := r.ReadF128();
      case CallString =>
        var _, _ := r.ReadString();
      case CallStringCopy(capacity) =>
        var out := new byte[capacity](_ => 0);
        var _, _ := r.ReadStringCopy(out);
      case CallSeqHeader =>
        var _, _ := r.ReadSeqHeader();
      case CallPrimArray(count, w) =>
        var out := new byte[count * w](_ => 0);
        var _ := r.ReadPrimArray(out, count, w);
      case CallBoolArray(count) =>
        var _, _ := r.ReadBoolArray(count);
      case CallMark =>
        later := marks + [r.pos];
      case CallDheaderEnd(mark, size) =>
        if mark < |marks| {
          r.ReadDheaderEnd(size, marks[mark]);
        }
      case CallEmheader =>
        var _, _ := r.ReadEmheaderWord();
      case CallPid =>
        var _, _ := r.ReadPidHeader();
      case CallSkip(count) =>
        var _ := r.SkipBytes(count);
      case CallField(t) =>
        var _ := r.ReadField(t);
    }
  }

  /** Every run over every buffer stays inside it, and the first error is final: nothing moves the reader after it. */
  method Run(r: Reader, calls: seq<Call>)
    requires r.Valid() && (forall i :: 0 <= i < |calls| ==> Known(calls[i]))
    modifies r
    ensures r.headerSize <= r.pos <= |r.buf|
    ensures old(r.error) != OK ==> r.error == old(r.error) && r.pos == old(r.pos)
    ensures r.error == old(r.error) || r.error == Underflow || r.error == Overflow
  {
    var marks: seq<nat> := [];
    for i := 0 to |calls|
      invariant r.Valid() && (forall k :: 0 <= k < |marks| ==> r.headerSize <= marks[k])
      invariant old(r.error) != OK ==> r.error == old(r.error) && r.pos == old(r.pos)
      invariant r.error == old(r.error) || r.error == Underflow || r.error == Overflow
    {
      marks := Play(r, calls[i], marks);
    }
  }
}
