/**
  Which error each failure reports: of the writer's calls and of whole scripts, and of the extractor.
 */
module Failures {
  import opened Bytes
  import opened Scripts
  import opened WriterSteps
  import opened WriterProof
  import opened WireFormat
  import opened Decoding
  import opened ExtractorAgreement
  import opened ExtractorLimits
  import X = FieldExtractor

  /** An id of more than 28 bits is refused as such, by both EMHEADER calls, and nothing is written. */
  lemma IdRefused(s: WState, id: nat, len: nat, mu: bool)
    requires Inv(s) && s.error == OK
    ensures id >= 0x1000_0000 ==> PutEmheader(s, id, len, mu) == s.(error := InvalidMemberId)
    ensures id >= 0x1000_0000 ==> BeginFramed(s, id, mu) == s.(error := InvalidMemberId)
    ensures id < 0x1000_0000 ==> PutEmheader(s, id, len, mu).error in {OK, Overflow}
    ensures id < 0x1000_0000 ==> BeginFramed(s, id, mu).error in {OK, Overflow}
  {
    hide EmWord, Put, Zeros;
  }

  /** A number that does not fit leaves its padding behind, if that fits. */
  lemma WhereNumbersStop(s: WState, w: nat, v: nat)
    requires Inv(s) && s.error == OK
    ensures var z := Zeros(Pad(s.c, StreamPos(s), AlignOf(w)));
            && (|s.out| + |z| > s.cap ==> PutScalar(s, w, v) == s.(error := Overflow))
            && (|s.out| + |z| <= s.cap < |s.out| + |z| + w ==> PutScalar(s, w, v) == s.(out := s.out + z, error := Overflow))
            && (|s.out| + |z| + w <= s.cap ==> PutScalar(s, w, v) == s.(out := s.out + z + Put(v, w, s.c.le)))
  {
    hide Put, Zeros, Pad, AlignOf;
  }

  /** A string that does not fit leaves its length behind, if that fits. */
  lemma WhereTextsStop(s: WState, t: seq<byte>)
    requires Inv(s) && s.error == OK
    ensures var z := Gap4(StreamPos(s));
            && (|s.out| + |z| > s.cap ==> PutText(s, t) == s.(error := Overflow))
            && (|s.out| + |z| <= s.cap < |s.out| + |z| + 4 ==> PutText(s, t) == s.(out := s.out + z, error := Overflow))
            && (|s.out| + |z| + 4 <= s.cap < |s.out| + |z| + 5 + |t| ==>
                  PutText(s, t) == s.(out := s.out + z + Put(|t| + 1, 4, s.c.le), error := Overflow))
  {
    GapIs(s.c, StreamPos(s));
    WhereNumbersStop(s, 4, |t| + 1);
    hide Put, Zeros, Pad, Gap4, PutScalar;
  }

  predicate Reported(s: WState, fits: bool) {
    s.error == OK || s.error == Overflow || (s.error == InvalidMemberId && !fits)
  }

  /** A script fails with an overflow, or over an id; never with an error of the reader. */
  lemma {:induction false} ScriptErrors(s: WState, k: Calls)
    requires Inv(s) && s.error == OK
    ensures Reported(Run(s, k), IdsFit(k))
    decreases k, 1
  {
    if !k.Done? {
      hide RunHead, IdsFit, HeadIdsFit;
      var m := RunHead(s, k);
      CallErrors(s, k);
      IdsSplit(k);
      if m.error == OK {
        ScriptErrors(m, k.rest);
      } else {
        RunStuck(m, k.rest);
      }
    }
  }

  lemma {:induction false} CallErrors(s: WState, k: Calls)
    requires Inv(s) && s.error == OK && !k.Done?
    ensures Reported(RunHead(s, k), HeadIdsFit(k))
    decreases k, 0
  {
    match k
    case Delimited(body, _) =>
      var b := BeginDelimited(s);
      OpenErrors(s, 0, false);
      if b.error == OK { ScriptErrors(b, body); } else { RunStuck(b, body); }
      CloseErrors(Run(b, body), AlignedToken(s), 0, false, IdsFit(body));
      hide BeginDelimited, AlignedToken, FinalizeLength, Run;
    case Framed(id, mu, body, _) =>
      var b := BeginFramed(s, id, mu);
      OpenErrors(s, id, mu);
      if b.error == OK { ScriptErrors(b, body); } else { RunStuck(b, body); }
      CloseErrors(Run(b, body), FramedToken(s), id, mu, HeadIdsFit(k));
      hide BeginFramed, FramedToken, FinalizeLength, Run;
    case Param(id, mu, body, _) =>
      var b := BeginParam(s, id);
      OpenErrors(s, id, false);
      if b.error == OK { ScriptErrors(b, body); } else { RunStuck(b, body); }
      CloseErrors(Run(b, body), AlignedToken(s), id, mu, IdsFit(body));
      hide BeginParam, AlignedToken, FinalizeParam, Run;
    case _ => PlainErrors(s, k);
  }

  lemma PlainErrors(s: WState, k: Calls)
    requires Inv(s) && s.error == OK && (k.Scalar? || k.Bulk? || k.Text? || k.Emheader? || k.Sentinel?)
    ensures Reported(RunHead(s, k), HeadIdsFit(k))
  {
    hide Put, Flat, Zeros, EmWord, Pad;
  }

  lemma OpenErrors(s: WState, id: nat, mu: bool)
    requires Inv(s) && s.error == OK
    ensures Reported(BeginDelimited(s), true) && Reported(BeginParam(s, id), true)
    ensures Reported(BeginFramed(s, id, mu), id <= MAX_MEMBER_ID)
  {
    hide Put, Zeros, EmWord, Pad;
  }

  lemma CloseErrors(s: WState, token: nat, id: nat, mu: bool, fits: bool)
    requires Inv(s) && Reported(s, fits)
    ensures (s.error == OK ==> token + 4 <= |s.out|) ==> Reported(FinalizeLength(s, token), fits)
    ensures (s.error == OK ==> token + Reserve(id) <= |s.out|) ==> Reported(FinalizeParam(s, id, mu, token), fits)
  {
    hide Put, ShortPid, ExtendedPid;
  }

  /**
    The extractor, on arbitrary bytes: the first field it cannot skip is named; the field asked for, when it cannot
    be read or is not there, is.
   */
  lemma {:induction false} ExtractFails(r: Source, fields: seq<X.FieldDescriptor>, pos: nat, name: string, j: nat)
    requires r.base <= pos
    ensures var i := X.FirstNamed(fields, name);
            var x := X.Extract(r.buf, fields, pos, r.base, r.c.le, name);
            && (j < i && SkipTo(r, fields, pos, j).Some? && SkipTo(r, fields, pos, j + 1).None? ==> x == X.Err(X.CannotSkip(fields[j].name)))
            && (i < |fields| && SkipTo(r, fields, pos, i).Some? && Got(r, fields[i].kind, SkipTo(r, fields, pos, i).value).None? ==>
                  x == X.Err(X.CannotParse(name)))
            && (i == |fields| && SkipTo(r, fields, pos, i).Some? ==> x == X.Err(X.NotFound(name)))
    decreases |fields|
  {
    hide X.SkipField, X.ReadField;
    if fields != [] && fields[0].name != name {
      var i := X.FirstNamed(fields, name);
      var s := Skipped(r, fields[0].kind, pos);
      SkipToUnfold(r, fields, pos, i);
      if s.Some? {
        ExtractFails(r, fields[1..], s.value, name, if j == 0 then 0 else j - 1);
        if 0 < j < i {
          SkipToUnfold(r, fields, pos, j);
          SkipToUnfold(r, fields, pos, j + 1);
        } else if j == 0 {
          SkipToUnfold(r, fields, pos, 1);
        }
      } else if j > 0 && j < i {
        SkipToUnfold(r, fields, pos, j);
      }
    }
  }

  /** Where the fields start: behind a DHEADER in XCDR2 unless the type is final, if there is room for one. */
  lemma FieldsStart(data: seq<byte>, ext: Ext)
    requires |data| >= 4
    ensures data[0] == 0 && 6 <= data[1] <= 11 && (ext == Appendable || ext == Mutable) && |data| >= 8 ==> X.StartOf(data, ext) == 8
    ensures data[0] == 0 && (data[1] < 6 || data[1] > 11) ==> X.StartOf(data, ext) == 4
    ensures data[0] != 0 || ext == Final || |data| < 8 ==> X.StartOf(data, ext) == 4
  {
    var b := data[..2];
    assert Reverse(b) == [data[1], data[0]];
    assert Get(b, false) == FromLe([data[1], data[0]]);
    assert [data[1], data[0]][1..] == [data[0]] && [data[0]][1..] == [];
    assert FromLe([data[0]]) == data[0];
    var lo: int, hi: int := data[1], data[0];
    assert Get(b, false) == lo + 256 * hi;
  }
}
