/**
  Arbitrary runs of the writer: any calls in any order, with tokens from earlier begin calls,
  whether or not the frames nest and whether or not a begin call failed.
 */
module WriterRuns {
  import opened Bytes
  import opened Scripts
  import opened WriterSteps
  import opened CdrWriter

  datatype Op =
    | OpReset
    | OpEncapsulate(ext: Ext)
    | OpAlign(alignment: nat)
    | OpScalar(width: nat, value: nat)
    | OpBulk(width: nat, values: seq<nat>)
    | OpText(text: seq<byte>)
    | OpEmheader(id: nat, len: nat, mu: bool)
    | OpSentinel
    | OpBeginDelimited
    | OpBeginFramed(id: nat, mu: bool)
    | OpBeginParam(id: nat)
    | OpFinalizeLength(index: nat)
    | OpFinalizeParam(index: nat, mu: bool)

  datatype ParamToken = ParamToken(id: nat, at: nat)

  /** The writer and the tokens its caller holds since the last reset. */
  datatype Session = Session(s: WState, lengths: seq<nat>, params: seq<ParamToken>)

  /** In bounds always; while there is no error, every token names bytes already written. */
  predicate Safe(m: Session) {
    && Inv(m.s)
    && (m.s.error == OK ==>
          && (forall i :: 0 <= i < |m.lengths| ==> m.lengths[i] + 4 <= |m.s.out|)
          && (forall i :: 0 <= i < |m.params| ==> m.params[i].at + Reserve(m.params[i].id) <= |m.s.out|))
  }

  /** A step that keeps the tokens in bounds because it never shortens what was written. */
  lemma Grows(m: Session, r: WState)
    requires Safe(m) && Inv(r)
    requires m.s.error != OK ==> r == m.s
    requires m.s.error == OK ==> |m.s.out| <= |r.out|
    ensures Safe(m.(s := r))
  {
  }

  function Simple(s: WState, op: Op): (r: WState)
    requires Inv(s)
    requires op.OpAlign? || op.OpScalar? || op.OpBulk? || op.OpText? || op.OpEmheader? || op.OpSentinel?
    ensures Extends(s, r)
  {
    match op
    case OpAlign(a) => AlignTo(s, a)
    case OpScalar(w, v) => PutScalar(s, w, v)
    case OpBulk(w, vs) => PutBulk(s, w, vs)
    case OpText(t) => PutText(s, t)
    case OpEmheader(id, len, mu) => PutEmheader(s, id, len, mu)
    case OpSentinel => PutSentinel(s)
  }

  function Step(m: Session, op: Op): (r: Session)
    requires Safe(m)
    ensures Safe(r)
  {
    hide BeginDelimited, BeginFramed, BeginParam, FinalizeLength, FinalizeParam, AlignedToken, FramedToken;
    match op
    case OpReset => Session(Reset(m.s), [], [])
    case OpEncapsulate(ext) => m.(s := Encapsulate(m.s, ext))
    case OpBeginDelimited =>
      BeginReserves(m.s, 0, false);
      Session(BeginDelimited(m.s), m.lengths + [AlignedToken(m.s)], m.params)
    case OpBeginFramed(id, mu) =>
      BeginReserves(m.s, id, mu);
      Session(BeginFramed(m.s, id, mu), m.lengths + [FramedToken(m.s)], m.params)
    case OpBeginParam(id) =>
      BeginReserves(m.s, id, false);
      Session(BeginParam(m.s, id), m.lengths, m.params + [ParamToken(id, AlignedToken(m.s))])
    case OpFinalizeLength(i) =>
      if i < |m.lengths| then
        Grows(m, FinalizeLength(m.s, m.lengths[i]));
        m.(s := FinalizeLength(m.s, m.lengths[i]))
      else m
    case OpFinalizeParam(i, mu) =>
      if i < |m.params| then
        var r := FinalizeParam(m.s, m.params[i].id, mu, m.params[i].at);
        Grows(m, r);
        m.(s := r)
      else m
    case _ =>
      Grows(m, Simple(m.s, op));
      m.(s := Simple(m.s, op))
  }

  function Steps(m: Session, ops: seq<Op>): (r: Session)
    requires Safe(m)
    ensures Safe(r)
    decreases |ops|
  {
    if ops == [] then m else Steps(Step(m, ops[0]), ops[1..])
  }

  /** From initialization, every run of calls keeps header_size <= pos <= capacity. */
  lemma {:induction false} EveryRunInBounds(c: Cfg, cap: nat, ops: seq<Op>)
    ensures var r := Steps(Session(Init(c, cap), [], []), ops).s; r.headerSize <= |r.out| <= r.cap == cap && r.c == c
  {
    CapKept(Session(Init(c, cap), [], []), ops);
  }

  lemma {:induction false} CapKept(m: Session, ops: seq<Op>)
    requires Safe(m)
    ensures Steps(m, ops).s.cap == m.s.cap && Steps(m, ops).s.c == m.s.c
    decreases |ops|
  {
    if ops != [] {
      CapKept(Step(m, ops[0]), ops[1..]);
    }
  }

  /** After an error nothing changes until a reset, not even by finalizing a frame whose begin failed. */
  lemma {:induction false} ErrorSticks(m: Session, ops: seq<Op>)
    requires Safe(m) && m.s.error != OK
    requires OpReset !in ops
    ensures Steps(m, ops).s == m.s
    decreases |ops|
  {
    if ops != [] {
      var op := ops[0];
      assert op in ops;
      ErrorSticks(Step(m, op), ops[1..]);
    }
  }

  lemma {:induction false} StepsAppend(m: Session, a: seq<Op>, b: seq<Op>)
    requires Safe(m)
    ensures Steps(m, a + b) == Steps(Steps(m, a), b)
    decreases |a|
  {
    hide Step;
    if a == [] {
      assert a + b == b;
    } else {
      assert (a + b)[0] == a[0] && (a + b)[1..] == a[1..] + b;
      StepsAppend(Step(m, a[0]), a[1..], b);
    }
  }

  /** Whatever happened before, errors included, a reset writer behaves as a new one. */
  lemma ResetStartsOver(c: Cfg, cap: nat, before: seq<Op>, after: seq<Op>)
    ensures var start := Session(Init(c, cap), [], []);
            Steps(start, before + ([OpReset] + after)) == Steps(start, after)
  {
    var start := Session(Init(c, cap), [], []);
    CapKept(start, before);
    StepsAppend(start, before, [OpReset] + after);
    var m := Steps(start, before);
    assert Step(m, OpReset) == start;
    assert ([OpReset] + after)[0] == OpReset && ([OpReset] + after)[1..] == after;
  }

  /** Arguments the interface knows. */
  predicate Known(op: Op) {
    match op
    case OpAlign(a) => a in {0, 1, 2, 4, 8}
    case OpScalar(w, _) => IsWidth(w)
    case OpBulk(w, values) => WellFormed(Bulk(w, values, Done))
    case OpEmheader(id, len, _) => WellFormed(Emheader(id, len, false, Done))
    case OpBeginFramed(id, _) => id < U32
    case OpBeginParam(id) => id < U32
    case _ => true
  }

  /** The tokens a caller has collected from the writer are the ones of the session, as long as there is no error. */
  ghost predicate Keeps(m: Session, lengths: seq<nat>, params: seq<ParamToken>) {
    && |lengths| == |m.lengths| && |params| == |m.params|
    && (m.s.error == OK ==> lengths == m.lengths && params == m.params)
  }

  /** One call on the writer. */
  method PlayOne(w: Writer, op: Op, lengths: seq<nat>, params: seq<ParamToken>, ghost m: Session)
    returns (lengths': seq<nat>, params': seq<ParamToken>)
    requires w.Valid() && Known(op) && Safe(m) && m.s == w.State() && Keeps(m, lengths, params)
    modifies w, w.buf
    ensures w.Valid() && w.State() == Step(m, op).s && Keeps(Step(m, op), lengths', params')
  {
    hide AlignTo, PutScalar, PutText, PutBulk, PutEmheader, PutSentinel, Encapsulate, BeginDelimited, BeginFramed, BeginParam;
    hide FinalizeLength, FinalizeParam, AlignedToken, FramedToken, WellFormed;
    lengths', params' := lengths, params;
    match op {
      case OpReset =>
        w.Clear();
        lengths', params' := [], [];
      case OpEncapsulate(ext) =>
        var _ := w.WriteEncapsulation(ext);
      case OpAlign(a) =>
        var _ := w.WriteAlign(a);
      case OpScalar(width, v) => w.PerformScalar(width, v);
      case OpBulk(width, values) => w.PerformHead(Bulk(width, values, Done));
      case OpText(t) =>
        var _ := w.WriteString(t);
      case OpEmheader(id, len, mu) =>
        var _ := w.WriteEmheader(id, len, mu);
      case OpSentinel =>
        var _ := w.PidSentinel();
      case OpBeginDelimited =>
        var ok, token := w.DheaderBegin();
        lengths' := lengths + [token];
      case OpBeginFramed(id, mu) =>
        var ok, token := w.EmheaderBegin(id, mu);
        lengths' := lengths + [token];
      case OpBeginParam(id) =>
        var ok, token := w.PidBegin(id);
        params' := params + [ParamToken(id, token)];
      case OpFinalizeLength(i) =>
        if i < |lengths| {
          var _ := w.FinalizeSize(lengths[i]);
        }
      case OpFinalizeParam(i, mu) =>
        if i < |params| {
          var _ := w.PidFinalize(params[i].id, mu, params[i].at);
        }
    }
  }

  /** Any calls in any order on the writer itself: it ends in the state the transitions compute. */
  method Play(w: Writer, ops: seq<Op>)
    requires w.Valid() && (forall i :: 0 <= i < |ops| ==> Known(ops[i]))
    modifies w, w.buf
    ensures w.Valid() && w.State() == Steps(Session(old(w.State()), [], []), ops).s
  {
    var lengths: seq<nat>, params: seq<ParamToken> := [], [];
    ghost var m := Session(w.State(), [], []);
    ghost var start := m;
    var i := 0;
    while i < |ops|
      invariant i <= |ops| && w.Valid() && Safe(m) && m.s == w.State() && Keeps(m, lengths, params)
      invariant Safe(start) && Steps(m, ops[i..]) == Steps(start, ops)
    {
      assert ops[i..][0] == ops[i] && ops[i..][1..] == ops[i + 1..];
      lengths, params := PlayOne(w, ops[i], lengths, params, m);
      m := Step(m, ops[i]);
      i := i + 1;
    }
    assert ops[i..] == [];
  }
}
