/**
  The CDR writer as a state machine: one pure transition per write function, errors included,
  with headers back-patched and widened in place exactly as the writer does it.
 */
module WriterSteps {
  import opened Bytes
  import opened Scripts

  datatype Error = OK | Overflow | Underflow | InvalidEncap | InvalidMemberId

  datatype Ext = Final | Appendable | Mutable

  /** `out` is the written part of the buffer; its length is the writer's position. */
  datatype WState = WState(c: Cfg, cap: nat, out: seq<byte>, headerSize: nat, error: Error)

  predicate Inv(s: WState) {
    s.headerSize <= |s.out| <= s.cap
  }

  function Init(c: Cfg, cap: nat): (s: WState)
    ensures Inv(s) && s.error == OK
  {
    WState(c, cap, [], 0, OK)
  }

  function Reset(s: WState): WState {
    s.(out := [], headerSize := 0, error := OK)
  }

  /** `later` extends `s`: same stream, nothing before the old position touched. */
  predicate Extends(s: WState, later: WState) {
    && Inv(later) && later.c == s.c && later.cap == s.cap && later.headerSize == s.headerSize
    && s.out <= later.out
    && (s.error != OK ==> later == s)
  }

  function Emit(s: WState, b: seq<byte>): (r: WState)
    requires Inv(s)
    ensures Extends(s, r)
  {
    if s.error != OK then s
    else if |s.out| + |b| > s.cap then s.(error := Overflow)
    else s.(out := s.out + b)
  }

  function Fail(s: WState, e: Error): WState {
    if s.error != OK then s else s.(error := e)
  }

  function StreamPos(s: WState): nat
    requires Inv(s)
  {
    |s.out| - s.headerSize
  }

  function AlignTo(s: WState, a: nat): (r: WState)
    requires Inv(s)
    ensures Extends(s, r)
  {
    Emit(s, Zeros(Pad(s.c, StreamPos(s), a)))
  }

  function PutScalar(s: WState, w: nat, v: nat): (r: WState)
    requires Inv(s)
    ensures Extends(s, r)
  {
    Emit(AlignTo(s, AlignOf(w)), Put(v, w, s.c.le))
  }

  function PutText(s: WState, t: seq<byte>): (r: WState)
    requires Inv(s)
    ensures Extends(s, r)
  {
    Emit(PutScalar(s, 4, |t| + 1), t + [0])
  }

  function PutBulk(s: WState, w: nat, values: seq<nat>): (r: WState)
    requires Inv(s)
    ensures Extends(s, r)
  {
    if values == [] then s else Emit(AlignTo(s, AlignOf(w)), Flat(values, w, s.c.le))
  }

  function PutEmheader(s: WState, id: nat, len: nat, mu: bool): (r: WState)
    requires Inv(s)
    ensures Extends(s, r)
  {
    if id > MAX_MEMBER_ID then Fail(s, InvalidMemberId)
    else
      var s1 := PutScalar(s, 4, EmWord(id, LengthCode(len), mu));
      if LengthCode(len) == 4 then PutScalar(s1, 4, len) else s1
  }

  function PutSentinel(s: WState): (r: WState)
    requires Inv(s)
    ensures Extends(s, r)
  {
    Emit(AlignTo(s, 4), Put(PID_SENTINEL, 2, s.c.le) + Put(0, 2, s.c.le))
  }

  /** The RTPS encapsulation identifier of a stream. */
  function EncapId(c: Cfg, ext: Ext): (id: nat)
    ensures id < 0x100
  {
    (if !c.xcdr2 then (if ext.Mutable? then 2 else 0)
     else match ext case Final => 6 case Appendable => 8 case Mutable => 10)
    + (if c.le then 1 else 0)
  }

  /** The encapsulation header: always big-endian, options zero; alignment restarts behind it. */
  function Encapsulate(s: WState, ext: Ext): (r: WState)
    requires Inv(s)
    ensures Inv(r) && s.out <= r.out && (s.error != OK ==> r == s)
  {
    var r := Emit(s, Put(EncapId(s.c, ext), 2, false) + [0, 0]);
    if r.error == OK then r.(headerSize := 4) else r
  }

  /** Overwrite `|b|` bytes at `at`, which lie before the current position. */
  function Patch(s: WState, at: nat, b: seq<byte>): WState
    requires at + |b| <= |s.out|
  {
    s.(out := s.out[..at] + b + s.out[at + |b|..])
  }

  function BeginDelimited(s: WState): (r: WState)
    requires Inv(s)
    ensures Extends(s, r)
  {
    PutScalar(AlignTo(s, 4), 4, 0)
  }

  function BeginFramed(s: WState, id: nat, mu: bool): (r: WState)
    requires Inv(s)
    ensures Extends(s, r)
  {
    if id > MAX_MEMBER_ID then Fail(s, InvalidMemberId)
    else PutScalar(PutScalar(s, 4, EmWord(id, 4, mu)), 4, 0)
  }

  /** A finalize call at `token`: nothing before the token is touched and nothing is cut off. */
  predicate Closes(s: WState, r: WState, token: nat) {
    && Inv(r) && r.c == s.c && r.cap == s.cap && r.headerSize == s.headerSize
    && (s.error != OK ==> r == s)
    && (s.error == OK ==> token <= |s.out| <= |r.out| && r.out[..token] == s.out[..token])
  }

  lemma ExtendsThenCloses(s: WState, mid: WState, r: WState, token: nat)
    requires Inv(s) && Extends(s, mid) && Closes(mid, r, token)
    requires mid.error == OK ==> |s.out| <= token
    ensures Extends(s, r)
  {
    if mid.error == OK {
      assert s.out == mid.out[..token][..|s.out|];
    }
  }

  /** Back-patch of a DHEADER or a NEXTINT: the 4 bytes at `token` get the bytes written since. */
  function FinalizeLength(s: WState, token: nat): (r: WState)
    requires Inv(s)
    requires s.error == OK ==> token + 4 <= |s.out|
    ensures Closes(s, r, token)
  {
    if s.error != OK then s else Patch(s, token, Put(|s.out| - token - 4, 4, s.c.le))
  }

  function Reserve(id: nat): nat {
    if id <= MAX_SHORT_PID then 4 else 12
  }

  function BeginParam(s: WState, id: nat): (r: WState)
    requires Inv(s)
    ensures Extends(s, r)
  {
    Emit(AlignTo(s, 4), Zeros(Reserve(id)))
  }

  /** A short header is kept while the content fits; otherwise the content moves up by 8 bytes. */
  function FinalizeParam(s: WState, id: nat, mu: bool, token: nat): (r: WState)
    requires Inv(s)
    requires s.error == OK ==> token + Reserve(id) <= |s.out|
    ensures Closes(s, r, token)
  {
    if s.error != OK then s
    else
      var len := |s.out| - token - Reserve(id);
      if UsesShortPid(id, len) then Patch(s, token, ShortPid(s.c, id, mu, len))
      else if id <= MAX_SHORT_PID then
        if |s.out| + 8 > s.cap then s.(error := Overflow)
        else s.(out := s.out[..token] + ExtendedPid(s.c, id, mu, len) + s.out[token + 4..])
      else Patch(s, token, ExtendedPid(s.c, id, mu, len))
  }

  lemma EmitNothing(s: WState)
    requires Inv(s)
    ensures Emit(s, Zeros(0)) == s
  {
    assert s.out + Zeros(0) == s.out;
  }

  /** The outcome when the extended header is needed. */
  lemma ExtendedState(s: WState, id: nat, mu: bool, token: nat)
    requires Inv(s) && s.error == OK && token + Reserve(id) <= |s.out| && !UsesShortPid(id, |s.out| - token - Reserve(id))
    ensures FinalizeParam(s, id, mu, token) ==
            if id <= MAX_SHORT_PID && |s.out| + 8 > s.cap then s.(error := Overflow)
            else
              var h := ExtendedPid(s.c, id, mu, |s.out| - token - Reserve(id));
              s.(out := s.out[..token] + h + s.out[token + Reserve(id)..])
  {
    hide ExtendedPid, ShortPid;
  }

  /** Where a begin call leaves its token, if it succeeds. */
  function AlignedToken(s: WState): nat
    requires Inv(s)
  {
    |AlignTo(s, 4).out|
  }

  function FramedToken(s: WState): nat
    requires Inv(s)
  {
    AlignedToken(s) + 4
  }

  lemma BeginReserves(s: WState, id: nat, mu: bool)
    requires Inv(s)
    ensures BeginDelimited(s).error == OK ==> |s.out| <= AlignedToken(s) && AlignedToken(s) + 4 == |BeginDelimited(s).out|
    ensures BeginFramed(s, id, mu).error == OK ==> |s.out| <= FramedToken(s) && FramedToken(s) + 4 == |BeginFramed(s, id, mu).out|
    ensures BeginParam(s, id).error == OK ==> |s.out| <= AlignedToken(s) && AlignedToken(s) + Reserve(id) == |BeginParam(s, id).out|
  {
    DelimitedReserves(s);
    FramedReserves(s, id, mu);
    ParamReserves(s, id);
    hide *;
  }

  lemma AlignLength(s: WState)
    requires Inv(s)
    ensures AlignTo(s, 4).error == OK ==> s.error == OK && |AlignTo(s, 4).out| == |s.out| + Pad(s.c, StreamPos(s), 4)
    ensures Inv(AlignTo(s, 4)) && AlignTo(s, 4).c == s.c && AlignTo(s, 4).headerSize == s.headerSize
  {
    hide Pad;
  }

  lemma WordLength(s: WState, v: nat)
    requires Inv(s)
    ensures PutScalar(s, 4, v).error == OK ==>
              AlignTo(s, 4).error == OK && |PutScalar(s, 4, v).out| == |s.out| + Pad(s.c, StreamPos(s), 4) + 4
    ensures Inv(PutScalar(s, 4, v)) && PutScalar(s, 4, v).c == s.c && PutScalar(s, 4, v).headerSize == s.headerSize
  {
    hide Pad, Put;
  }

  lemma DelimitedReserves(s: WState)
    requires Inv(s)
    ensures BeginDelimited(s).error == OK ==> |s.out| <= AlignedToken(s) && AlignedToken(s) + 4 == |BeginDelimited(s).out|
  {
    hide AlignTo, PutScalar, Pad;
    AlignLength(s);
    WordLength(AlignTo(s, 4), 0);
    AlignedAlready(s.c, StreamPos(s));
    if BeginDelimited(s).error == OK {
      AlignLength(AlignTo(s, 4));
    }
  }

  lemma FramedReserves(s: WState, id: nat, mu: bool)
    requires Inv(s)
    ensures BeginFramed(s, id, mu).error == OK ==> |s.out| <= FramedToken(s) && FramedToken(s) + 4 == |BeginFramed(s, id, mu).out|
  {
    hide AlignTo, PutScalar, Pad, EmWord;
    AlignLength(s);
    if id <= MAX_MEMBER_ID {
      var s1 := PutScalar(s, 4, EmWord(id, 4, mu));
      WordLength(s, EmWord(id, 4, mu));
      WordLength(s1, 0);
      AlignLength(s1);
      AlignedAfter(s.c, StreamPos(s), 4);
    }
  }

  lemma ParamReserves(s: WState, id: nat)
    requires Inv(s)
    ensures BeginParam(s, id).error == OK ==> |s.out| <= AlignedToken(s) && AlignedToken(s) + Reserve(id) == |BeginParam(s, id).out|
  {
    hide AlignTo, Pad;
    AlignLength(s);
  }

  /** The first call of a script, begin, body and finalize together. */
  function RunHead(s: WState, k: Calls): (r: WState)
    requires Inv(s) && !k.Done?
    ensures Inv(r) && Extends(s, r)
    decreases k, 0
  {
    match k
    case Scalar(w, v, _) => PutScalar(s, w, v)
    case Bulk(w, vs, _) => PutBulk(s, w, vs)
    case Text(t, _) => PutText(s, t)
    case Emheader(id, len, mu, _) => PutEmheader(s, id, len, mu)
    case Delimited(body, _) =>
      BeginReserves(s, 0, false);
      var mid := Run(BeginDelimited(s), body);
      var r := FinalizeLength(mid, AlignedToken(s));
      ExtendsThenCloses(s, mid, r, AlignedToken(s));
      r
    case Framed(id, mu, body, _) =>
      BeginReserves(s, id, mu);
      var mid := Run(BeginFramed(s, id, mu), body);
      var r := FinalizeLength(mid, FramedToken(s));
      ExtendsThenCloses(s, mid, r, FramedToken(s));
      r
    case Param(id, mu, body, _) =>
      BeginReserves(s, id, mu);
      var mid := Run(BeginParam(s, id), body);
      var r := FinalizeParam(mid, id, mu, AlignedToken(s));
      ExtendsThenCloses(s, mid, r, AlignedToken(s));
      r
    case Sentinel(_) => PutSentinel(s)
  }

  /** A whole script. */
  function Run(s: WState, k: Calls): (r: WState)
    requires Inv(s)
    ensures Inv(r) && Extends(s, r)
    decreases k, 1
  {
    if k.Done? then s else Run(RunHead(s, k), k.rest)
  }
}
