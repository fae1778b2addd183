/**
  The two loan protocols of the C interface: a serialized write is prepared, then committed or aborted; samples
  are read on loan, then returned.  A loan lives in a box the caller holds a handle to.  What the core answers
  is a parameter of each call.
 */
module Loans {

  import opened Wrappers

  datatype Ret = Ok | NoData | Rejected

  /** A box is freed for good; until then it holds the core's loan, or nothing once that has been taken out. */
  datatype Box<L> = Box(inner: Option<L>) | Freed

  /** How often each box has been freed, and each core loan handed back, since it was issued. */
  datatype Tally = Tally(frees: nat, handedBack: nat)

  // --------------------------------------------------------------------------------------------- writing

  datatype WriteOp<L> =
    | Prepare(core: Option<L>)
    | Commit(handle: nat, accepted: bool)
    | Abort(loan: Option<nat>)

  datatype Writes<L> = Writes(boxes: seq<Box<L>>, tallies: seq<Tally>)

  /** What the caller has to respect: a handle that was freed is not used again. */
  predicate MayWrite<L>(w: Writes<L>, op: WriteOp<L>) {
    match op
    case Prepare(_) => true
    case Commit(h, _) => h < |w.boxes| && w.boxes[h].Box?
    case Abort(None) => true
    case Abort(Some(h)) => h < |w.boxes| && w.boxes[h].Box?
  }

  /** A box and its tally after the core loan has been taken out or dropped, and the box freed or kept. */
  function Settle<L>(w: Writes<L>, h: nat, box: Box<L>): Writes<L>
    requires h < |w.boxes| == |w.tallies| && w.boxes[h].Box?
  {
    var t := w.tallies[h];
    Writes(
      w.boxes[h := box],
      w.tallies[h := Tally(t.frees + (if box.Freed? then 1 else 0), t.handedBack + (if w.boxes[h].inner.Some? then 1 else 0))])
  }

  function WriteStep<L>(w: Writes<L>, op: WriteOp<L>): (Writes<L>, Ret)
    requires |w.boxes| == |w.tallies| && MayWrite(w, op)
  {
    match op
    case Prepare(None) => (w, Rejected)
    case Prepare(Some(l)) => (Writes(w.boxes + [Box(Some(l))], w.tallies + [Tally(0, 0)]), Ok)
    case Commit(h, accepted) =>
      if w.boxes[h].inner.None? then (w, Rejected)
      else if accepted then (Settle(w, h, Freed), Ok)
      else (Settle(w, h, Box(None)), Rejected)
    case Abort(None) => (w, Ok)
    case Abort(Some(h)) => (Settle(w, h, Freed), Ok)
  }

  class WriteLoans<L> {
    var boxes: seq<Box<L>>
    ghost var tallies: seq<Tally>

    ghost function State(): Writes<L>
      reads this
    {
      Writes(boxes, tallies)
    }

    ghost predicate Valid()
      reads this
    {
      |boxes| == |tallies|
    }

    constructor ()
      ensures Valid() && boxes == []
    {
      boxes := [];
      tallies := [];
    }

    /** int2dds_datawriter_prepare_serialized_write */
    method Prepare(core: Option<L>) returns (handle: Option<nat>, ret: Ret)
      requires Valid()
      modifies this
      ensures Valid() && (State(), ret) == WriteStep(old(State()), WriteOp.Prepare(core))
      ensures core == None ==> ret == Rejected && boxes == old(boxes)
      ensures core.Some? ==> ret == Ok && boxes == old(boxes) + [Box(core)]
      ensures handle == if ret == Ok then Some(old(|boxes|)) else None
    {
      if core.None? {
        return None, Rejected;
      }
      handle, ret := Some(|boxes|), Ok;
      boxes := boxes + [Box(Some(core.value))];
      tallies := tallies + [Tally(0, 0)];
    }

    /** int2dds_datawriter_commit_serialized_write: the box is left to the caller on every failure. */
    method Commit(handle: nat, accepted: bool) returns (ret: Ret)
      requires Valid() && MayWrite(State(), WriteOp.Commit(handle, accepted))
      modifies this
      ensures Valid() && (State(), ret) == WriteStep(old(State()), WriteOp.Commit(handle, accepted))
      ensures old(boxes[handle]) == Box(None) ==> ret == Rejected && boxes == old(boxes)
      ensures old(boxes[handle]) != Box(None) && accepted ==> ret == Ok && boxes == old(boxes)[handle := Freed]
      ensures old(boxes[handle]) != Box(None) && !accepted ==> ret == Rejected && boxes == old(boxes)[handle := Box(None)]
    {
      var inner := boxes[handle].inner;
      boxes := boxes[handle := Box(None)];
      if inner.None? {
        assert boxes == old(boxes);
        return Rejected;
      }
      tallies := tallies[handle := tallies[handle].(handedBack := tallies[handle].handedBack + 1)];
      if accepted {
        boxes := boxes[handle := Freed];
        tallies := tallies[handle := tallies[handle].(frees := tallies[handle].frees + 1)];
        assert State() == Settle(old(State()), handle, Freed);
        ret := Ok;
      } else {
        ret := Rejected;
      }
    }

    /** int2dds_datawriter_abort_serialized_write: dropping the box drops the loan inside, if it is still there. */
    method Abort(handle: Option<nat>) returns (ret: Ret)
      requires Valid() && MayWrite(State(), WriteOp.Abort(handle))
      modifies this
      ensures Valid() && (State(), ret) == WriteStep(old(State()), WriteOp.Abort(handle))
      ensures ret == Ok && boxes == if handle.Some? then old(boxes)[handle.value := Freed] else old(boxes)
    {
      if handle.Some? {
        ghost var h := handle.value;
        ghost var t := tallies[h];
        tallies := tallies[h := Tally(t.frees + 1, t.handedBack + (if boxes[h].inner.Some? then 1 else 0))];
        boxes := boxes[handle.value := Freed];
      }
      ret := Ok;
    }

    /** Any calls in any order that do not reuse a freed handle. */
    method Play(ops: seq<WriteOp<L>>)
      requires Valid() && LegalWrites(State(), ops)
      modifies this
      ensures Valid() && State() == WriteRun(old(State()), ops)
    {
      var i := 0;
      while i < |ops|
        invariant i <= |ops| && Valid() && LegalWrites(State(), ops[i..])
        invariant WriteRun(State(), ops[i..]) == WriteRun(old(State()), ops)
      {
        assert ops[i..][0] == ops[i] && ops[i..][1..] == ops[i + 1..];
        match ops[i] {
          case Prepare(core) =>
            var _, _ := Prepare(core);
          case Commit(h, accepted) =>
            var _ := Commit(h, accepted);
          case Abort(h) =>
            var _ := Abort(h);
        }
        i := i + 1;
      }
    }

    /** The binding idiom: commit, and abort on error. */
    method CommitOrAbort(handle: nat, accepted: bool) returns (ret: Ret)
      requires Valid() && MayWrite(State(), WriteOp.Commit(handle, accepted))
      modifies this
      ensures Valid() && boxes == old(boxes)[handle := Freed]
      ensures ret == Ok <==> accepted && old(boxes[handle]).inner.Some?
      ensures |tallies| == old(|tallies|) && tallies[handle].frees == old(tallies[handle]).frees + 1
      ensures tallies[handle].handedBack == old(tallies[handle]).handedBack + (if old(boxes[handle]).inner.Some? then 1 else 0)
    {
      ret := Commit(handle, accepted);
      if ret != Ok {
        var _ := Abort(Some(handle));
      }
    }
  }

  /** Nothing freed twice, nothing handed back twice, nothing freed without its loan being handed back. */
  predicate Balanced<L>(w: Writes<L>) {
    && |w.boxes| == |w.tallies|
    && forall h :: 0 <= h < |w.boxes| ==>
                     && w.tallies[h].frees == (if w.boxes[h].Freed? then 1 else 0)
                     && w.tallies[h].handedBack == (if w.boxes[h].Box? && w.boxes[h].inner.Some? then 0 else 1)
  }

  predicate LegalWrites<L>(w: Writes<L>, ops: seq<WriteOp<L>>)
    requires |w.boxes| == |w.tallies|
    decreases |ops|
  {
    ops == [] || (MayWrite(w, ops[0]) && LegalWrites(WriteStep(w, ops[0]).0, ops[1..]))
  }

  function WriteRun<L>(w: Writes<L>, ops: seq<WriteOp<L>>): Writes<L>
    requires |w.boxes| == |w.tallies| && LegalWrites(w, ops)
    decreases |ops|
  {
    if ops == [] then w else WriteRun(WriteStep(w, ops[0]).0, ops[1..])
  }

  /** Over every run of callers who do not reuse a freed handle. */
  lemma {:induction false} EveryWriteSettledOnce<L>(w: Writes<L>, ops: seq<WriteOp<L>>)
    requires Balanced(w) && LegalWrites(w, ops)
    ensures Balanced(WriteRun(w, ops))
    decreases |ops|
  {
    if ops != [] {
      EveryWriteSettledOnce(WriteStep(w, ops[0]).0, ops[1..]);
    }
  }

  // --------------------------------------------------------------------------------------------- reading

  datatype ReadOp<L> =
    | Finish(core: Option<Option<L>>)
    | ReturnLoan(handle: Option<nat>, accepted: bool)

  /** `issued` remembers the samples each box was handed out with. */
  datatype Reads<L> = Reads(boxes: seq<Box<L>>, issued: seq<L>, tallies: seq<Tally>)

  predicate MayRead<L>(r: Reads<L>, op: ReadOp<L>) {
    op.ReturnLoan? && op.handle.Some? ==> op.handle.value < |r.boxes| && r.boxes[op.handle.value].Box?
  }

  /** A read that the core fails is `Finish(None)`; one that finds nothing is `Finish(Some(None))`. */
  function ReadStep<L>(r: Reads<L>, op: ReadOp<L>): (Reads<L>, Ret)
    requires |r.boxes| == |r.tallies| && MayRead(r, op)
  {
    match op
    case Finish(None) => (r, Rejected)
    case Finish(Some(None)) => (r, NoData)
    case Finish(Some(Some(l))) => (Reads(r.boxes + [Box(Some(l))], r.issued + [l], r.tallies + [Tally(0, 0)]), Ok)
    case ReturnLoan(None, _) => (r, Ok)
    case ReturnLoan(Some(h), accepted) =>
      if r.boxes[h].inner.None? then (r, Ok)
      else if accepted then
        (r.(boxes := r.boxes[h := Freed], tallies := r.tallies[h := Tally(r.tallies[h].frees + 1, r.tallies[h].handedBack + 1)]), Ok)
      else (r, Rejected)
  }

  class ReadLoans<L> {
    var boxes: seq<Box<L>>
    ghost var issued: seq<L>
    ghost var tallies: seq<Tally>

    ghost function State(): Reads<L>
      reads this
    {
      Reads(boxes, issued, tallies)
    }

    ghost predicate Valid()
      reads this
    {
      |boxes| == |tallies|
    }

    constructor ()
      ensures Valid() && boxes == [] && issued == []
    {
      boxes := [];
      issued := [];
      tallies := [];
    }

    /** The shared tail of the read and take calls. */
    method Finish(core: Option<Option<L>>) returns (handle: Option<nat>, ret: Ret)
      requires Valid()
      modifies this
      ensures Valid() && (State(), ret) == ReadStep(old(State()), ReadOp.Finish(core))
      ensures core == None ==> ret == Rejected && boxes == old(boxes)
      ensures core == Some(None) ==> ret == NoData && boxes == old(boxes)
      ensures core.Some? && core.value.Some? ==> ret == Ok && boxes == old(boxes) + [Box(core.value)]
      ensures handle == if ret == Ok then Some(old(|boxes|)) else None
    {
      if core.None? {
        return None, Rejected;
      }
      if core.value.None? {
        return None, NoData;
      }
      handle, ret := Some(|boxes|), Ok;
      boxes := boxes + [Box(Some(core.value.value))];
      issued := issued + [core.value.value];
      tallies := tallies + [Tally(0, 0)];
    }

    /** int2dds_datareader_return_loan: the loan is taken out and, when the core refuses it, put back. */
    method ReturnLoan(handle: Option<nat>, accepted: bool) returns (ret: Ret)
      requires Valid() && MayRead(State(), ReadOp.ReturnLoan(handle, accepted))
      modifies this
      ensures Valid() && (State(), ret) == ReadStep(old(State()), ReadOp.ReturnLoan(handle, accepted))
      ensures handle == None || old(boxes[handle.value]) == Box(None) ==> ret == Ok && boxes == old(boxes)
      ensures handle.Some? && old(boxes[handle.value]) != Box(None) && accepted ==> ret == Ok && boxes == old(boxes)[handle.value := Freed]
      ensures handle.Some? && old(boxes[handle.value]) != Box(None) && !accepted ==> ret == Rejected && boxes == old(boxes)
    {
      if handle.None? {
        return Ok;
      }
      var h := handle.value;
      var inner := boxes[h].inner;
      boxes := boxes[h := Box(None)];
      if inner.None? {
        assert boxes == old(boxes);
        return Ok;
      }
      if accepted {
        tallies := tallies[h := Tally(tallies[h].frees + 1, tallies[h].handedBack + 1)];
        boxes := boxes[h := Freed];
        assert boxes == old(boxes)[h := Freed];
        ret := Ok;
      } else {
        boxes := boxes[h := Box(inner)];
        assert boxes == old(boxes);
        ret := Rejected;
      }
    }

    /** Any calls in any order that do not reuse a freed handle. */
    method Play(ops: seq<ReadOp<L>>)
      requires Valid() && LegalReads(State(), ops)
      modifies this
      ensures Valid() && State() == ReadRun(old(State()), ops)
    {
      var i := 0;
      while i < |ops|
        invariant i <= |ops| && Valid() && LegalReads(State(), ops[i..])
        invariant ReadRun(State(), ops[i..]) == ReadRun(old(State()), ops)
      {
        assert ops[i..][0] == ops[i] && ops[i..][1..] == ops[i + 1..];
        match ops[i] {
          case Finish(core) =>
            var _, _ := Finish(core);
          case ReturnLoan(h, accepted) =>
            var _ := ReturnLoan(h, accepted);
        }
        i := i + 1;
      }
    }
  }

  /** Every box still out holds the very samples it was issued with; every other one was returned exactly once. */
  predicate Intact<L(==)>(r: Reads<L>) {
    && |r.boxes| == |r.tallies| == |r.issued|
    && forall h :: 0 <= h < |r.boxes| ==>
                     || (r.boxes[h] == Box(Some(r.issued[h])) && r.tallies[h] == Tally(0, 0))
                     || (r.boxes[h].Freed? && r.tallies[h] == Tally(1, 1))
  }

  predicate LegalReads<L>(r: Reads<L>, ops: seq<ReadOp<L>>)
    requires |r.boxes| == |r.tallies|
    decreases |ops|
  {
    ops == [] || (MayRead(r, ops[0]) && LegalReads(ReadStep(r, ops[0]).0, ops[1..]))
  }

  function ReadRun<L>(r: Reads<L>, ops: seq<ReadOp<L>>): Reads<L>
    requires |r.boxes| == |r.tallies| && LegalReads(r, ops)
    decreases |ops|
  {
    if ops == [] then r else ReadRun(ReadStep(r, ops[0]).0, ops[1..])
  }

  /** Over every legal run, with every mixture of refusals: no box is emptied, freed twice or given other samples. */
  lemma {:induction false} EveryReadIntact<L>(r: Reads<L>, ops: seq<ReadOp<L>>)
    requires Intact(r) && LegalReads(r, ops)
    ensures Intact(ReadRun(r, ops)) && r.issued <= ReadRun(r, ops).issued
    decreases |ops|
  {
    if ops != [] {
      EveryReadIntact(ReadStep(r, ops[0]).0, ops[1..]);
    }
  }
}
