/**
  The discovery snapshot: samples of a builtin reader, read again and again without taking them, folded into
  one entry per instance.
 */
module Discovery {

  import opened Wrappers
  import opened Bytes

  /** The bytes of an instance handle. */
  type Handle = seq<byte>

  datatype Sample<T> = Sample(handle: Handle, state: nat, data: Option<T>)

  datatype Entry<T> = Entry(data: Option<T>, state: nat, handle: Handle)

  /** One read of the builtin reader: the samples it returned, or a failure, which is ignored. */
  datatype Batch<T> = Failed | Samples(samples: seq<Sample<T>>)

  /** The later sample decides the state; the payload is kept from whichever sample had one. */
  function Merged<T>(m: map<Handle, Entry<T>>, s: Sample<T>): map<Handle, Entry<T>> {
    if s.handle in m then
      var e := m[s.handle];
      m[s.handle := Entry(if s.data.Some? then s.data else e.data, s.state, e.handle)]
    else m[s.handle := Entry(s.data, s.state, s.handle)]
  }

  function Fold<T>(m: map<Handle, Entry<T>>, samples: seq<Sample<T>>): map<Handle, Entry<T>>
    decreases |samples|
  {
    if samples == [] then m else Fold(Merged(m, samples[0]), samples[1..])
  }

  function FoldBatches<T>(m: map<Handle, Entry<T>>, batches: seq<Batch<T>>): map<Handle, Entry<T>>
    decreases |batches|
  {
    if batches == [] then m
    else FoldBatches(if batches[0].Failed? then m else Fold(m, batches[0].samples), batches[1..])
  }

  class Snapshot<T> {
    var byHandle: map<Handle, Entry<T>>

    constructor ()
      ensures byHandle == map[]
    {
      byHandle := map[];
    }

    /** merge_snapshot_sample */
    method Merge(s: Sample<T>)
      modifies this
      ensures byHandle == Merged(old(byHandle), s)
    {
      if s.handle in byHandle {
        var e := byHandle[s.handle];
        e := e.(state := s.state);
        if s.data.Some? {
          e := e.(data := s.data);
        }
        byHandle := byHandle[s.handle := e];
      } else {
        byHandle := byHandle[s.handle := Entry(s.data, s.state, s.handle)];
      }
    }

    method MergeAll(samples: seq<Sample<T>>)
      modifies this
      ensures byHandle == Fold(old(byHandle), samples)
    {
      var j := 0;
      while j < |samples|
        invariant j <= |samples|
        invariant Fold(byHandle, samples[j..]) == Fold(old(byHandle), samples)
      {
        assert samples[j..][0] == samples[j] && samples[j..][1..] == samples[j + 1..];
        Merge(samples[j]);
        j := j + 1;
      }
    }

    /**
      The collecting loop over the reads that happen; `expired` is what the clock says after each.  It stops after
      the first read that finds the deadline past or, without a deadline, the snapshot not empty.
     */
    method Collect(batches: seq<Batch<T>>, timed: bool, expired: seq<bool>) returns (made: nat, done: bool)
      requires |expired| == |batches|
      modifies this
      ensures made <= |batches| && byHandle == FoldBatches(old(byHandle), batches[..made])
      ensures timed ==> forall k :: 0 <= k < made - 1 ==> !expired[k]
      ensures !timed ==> forall k :: 0 < k < made ==> FoldBatches(old(byHandle), batches[..k]) == map[]
      ensures done ==> made > 0 && if timed then expired[made - 1] else byHandle != map[]
      ensures !done ==> made == |batches| && (made > 0 ==> if timed then !expired[made - 1] else byHandle == map[])
    {
      made, done := 0, false;
      while made < |batches| && !done
        invariant made <= |batches| && byHandle == FoldBatches(old(byHandle), batches[..made])
        invariant timed ==> forall k :: 0 <= k < made - 1 ==> !expired[k]
        invariant !timed ==> forall k :: 0 < k < made ==> FoldBatches(old(byHandle), batches[..k]) == map[]
        invariant made > 0 ==> done == if timed then expired[made - 1] else byHandle != map[]
        invariant done ==> made > 0
        decreases |batches| - made
      {
        assert batches[..made + 1] == batches[..made] + [batches[made]];
        FoldBatchesSnoc(old(byHandle), batches[..made], batches[made]);
        if batches[made].Samples? {
          MergeAll(batches[made].samples);
        }
        made := made + 1;
        done := if timed then expired[made - 1] else byHandle != map[];
      }
    }
  }

  /** The state of the last sample of an instance. */
  ghost function LastState<T>(samples: seq<Sample<T>>, h: Handle): Option<nat> {
    if samples == [] then None
    else if samples[|samples| - 1].handle == h then Some(samples[|samples| - 1].state)
    else LastState(samples[..|samples| - 1], h)
  }

  /** The last payload that was present for an instance. */
  ghost function LastData<T>(samples: seq<Sample<T>>, h: Handle): (r: Option<T>)
    ensures r.Some? ==> LastState(samples, h).Some?
  {
    if samples == [] then None
    else if samples[|samples| - 1].handle == h && samples[|samples| - 1].data.Some? then samples[|samples| - 1].data
    else LastData(samples[..|samples| - 1], h)
  }

  /** Every entry carries its own key. */
  ghost predicate Keyed<T>(m: map<Handle, Entry<T>>) {
    forall h :: h in m ==> m[h].handle == h
  }

  lemma {:induction false} FoldAppend<T>(m: map<Handle, Entry<T>>, a: seq<Sample<T>>, b: seq<Sample<T>>)
    ensures Fold(m, a + b) == Fold(Fold(m, a), b)
    decreases |a|
  {
    if a == [] {
      assert a + b == b;
    } else {
      assert (a + b)[0] == a[0] && (a + b)[1..] == a[1..] + b;
      FoldAppend(Merged(m, a[0]), a[1..], b);
    }
  }

  lemma {:induction false} FoldKeyed<T>(m: map<Handle, Entry<T>>, samples: seq<Sample<T>>)
    requires Keyed(m)
    ensures Keyed(Fold(m, samples))
    decreases |samples|
  {
    if samples != [] {
      FoldKeyed(Merged(m, samples[0]), samples[1..]);
    }
  }

  /** What a snapshot `f` has to say about an instance after samples merged into `m`. */
  ghost predicate Reports<T>(m: map<Handle, Entry<T>>, samples: seq<Sample<T>>, h: Handle, f: map<Handle, Entry<T>>) {
    && (h in f <==> h in m || LastState(samples, h).Some?)
    && (h in f ==>
          && (f[h].state == if LastState(samples, h).Some? then LastState(samples, h).value else m[h].state)
          && (f[h].data == if LastData(samples, h).Some? then LastData(samples, h) else if h in m then m[h].data else None))
  }

  lemma ReportsStep<T>(m: map<Handle, Entry<T>>, init: seq<Sample<T>>, s: Sample<T>, h: Handle, f: map<Handle, Entry<T>>)
    requires Reports(m, init, h, f)
    ensures Reports(m, init + [s], h, Merged(f, s))
  {
    var samples := init + [s];
    assert samples[|samples| - 1] == s && samples[..|samples| - 1] == init;
  }

  lemma {:induction false} FoldMeans<T>(m: map<Handle, Entry<T>>, samples: seq<Sample<T>>, h: Handle)
    ensures Reports(m, samples, h, Fold(m, samples))
    decreases |samples|
  {
    if samples != [] {
      var n := |samples| - 1;
      var init, s := samples[..n], samples[n];
      assert samples == init + [s];
      FoldAppend(m, init, [s]);
      FoldMeans(m, init, h);
      var f := Fold(m, init);
      ReportsStep(m, init, s, h, f);
      assert Fold(f, [s]) == Merged(f, s) by { assert [s][1..] == []; }
    }
  }

  /** Merging a batch once more changes nothing. */
  lemma FoldTwice<T>(m: map<Handle, Entry<T>>, samples: seq<Sample<T>>)
    requires Keyed(m)
    ensures Fold(Fold(m, samples), samples) == Fold(m, samples)
  {
    Absorbed(m, samples, samples);
  }

  function Concat<T>(batches: seq<Batch<T>>): seq<Sample<T>> {
    if batches == [] then []
    else (if batches[0].Failed? then [] else batches[0].samples) + Concat(batches[1..])
  }

  /** However the reads were cut up and whichever of them failed, the snapshot reports the last word on every instance. */
  lemma {:induction false} CollectMeans<T>(m: map<Handle, Entry<T>>, batches: seq<Batch<T>>, h: Handle)
    ensures FoldBatches(m, batches) == Fold(m, Concat(batches))
    ensures Reports(m, Concat(batches), h, FoldBatches(m, batches))
    decreases |batches|
  {
    if batches != [] {
      var first := if batches[0].Failed? then [] else batches[0].samples;
      FoldAppend(m, first, Concat(batches[1..]));
      CollectMeans(Fold(m, first), batches[1..], h);
    }
    FoldMeans(m, Concat(batches), h);
  }

  /** A read that has something to say about every instance, and every payload, that another one had. */
  ghost predicate Covers<T>(b: seq<Sample<T>>, a: seq<Sample<T>>) {
    forall h ::
      && (LastState(a, h).Some? ==> LastState(b, h).Some?)
      && (LastData(a, h).Some? ==> LastData(b, h).Some?)
  }

  /** What was merged before is absorbed by a later read, whatever the snapshot was, if and only if that read covers it. */
  lemma AbsorbedIff<T>(a: seq<Sample<T>>, b: seq<Sample<T>>)
    ensures (forall m: map<Handle, Entry<T>> :: Keyed(m) ==> Fold(Fold(m, a), b) == Fold(m, b)) <==> Covers(b, a)
  {
    if Covers(b, a) {
      forall m: map<Handle, Entry<T>> | Keyed(m) ensures Fold(Fold(m, a), b) == Fold(m, b) {
        Absorbed(m, a, b);
      }
    } else {
      var h :| (LastState(a, h).Some? && LastState(b, h).None?) || (LastData(a, h).Some? && LastData(b, h).None?);
      NotAbsorbed(a, b, h);
    }
  }

  lemma Absorbed<T>(m: map<Handle, Entry<T>>, a: seq<Sample<T>>, b: seq<Sample<T>>)
    requires Keyed(m) && Covers(b, a)
    ensures Fold(Fold(m, a), b) == Fold(m, b)
  {
    var twice, once := Fold(Fold(m, a), b), Fold(m, b);
    FoldKeyed(m, a);
    FoldKeyed(Fold(m, a), b);
    FoldKeyed(m, b);
    forall h ensures (h in twice <==> h in once) && (h in once ==> twice[h] == once[h]) {
      FoldMeans(m, a, h);
      FoldMeans(Fold(m, a), b, h);
      FoldMeans(m, b, h);
    }
    assert twice.Keys == once.Keys;
  }

  lemma NotAbsorbed<T>(a: seq<Sample<T>>, b: seq<Sample<T>>, h: Handle)
    requires (LastState(a, h).Some? && LastState(b, h).None?) || (LastData(a, h).Some? && LastData(b, h).None?)
    ensures Keyed<T>(map[]) && Fold(Fold(map[], a), b) != Fold(map[], b)
  {
    FoldMeans(map[], a, h);
    FoldMeans(Fold(map[], a), b, h);
    FoldMeans(map[], b, h);
  }

  /** Each read covers the ones before it; failed reads do not matter.  Samples may go missing as long as later ones stand in. */
  ghost predicate Renewed<T>(batches: seq<Batch<T>>) {
    forall i, j :: 0 <= i < j < |batches| && batches[i].Samples? && batches[j].Samples? ==>
                     Covers(batches[j].samples, batches[i].samples)
  }

  ghost function LastSamples<T>(batches: seq<Batch<T>>): seq<Sample<T>> {
    if batches == [] then []
    else if batches[|batches| - 1].Samples? then batches[|batches| - 1].samples
    else LastSamples(batches[..|batches| - 1])
  }

  lemma {:induction false} FoldBatchesSnoc<T>(m: map<Handle, Entry<T>>, batches: seq<Batch<T>>, b: Batch<T>)
    ensures FoldBatches(m, batches + [b]) ==
            var f := FoldBatches(m, batches); if b.Failed? then f else Fold(f, b.samples)
    decreases |batches|
  {
    if batches == [] {
      assert (batches + [b])[1..] == [];
    } else {
      assert (batches + [b])[0] == batches[0] && (batches + [b])[1..] == batches[1..] + [b];
      FoldBatchesSnoc(if batches[0].Failed? then m else Fold(m, batches[0].samples), batches[1..], b);
    }
  }

  lemma {:induction false} LastIsOne<T>(batches: seq<Batch<T>>) returns (i: nat)
    requires LastSamples(batches) != []
    ensures i < |batches| && batches[i].Samples? && batches[i].samples == LastSamples(batches)
    decreases |batches|
  {
    var n := |batches| - 1;
    if batches[n].Samples? {
      i := n;
    } else {
      i := LastIsOne(batches[..n]);
    }
  }

  /**
    The loop reads without taking, so it sees the same samples over and over.  However often it reads, the
    snapshot is the one its last successful read alone would give.
   */
  lemma {:induction false} RereadingIsHarmless<T>(m: map<Handle, Entry<T>>, batches: seq<Batch<T>>)
    requires Keyed(m) && Renewed(batches)
    ensures FoldBatches(m, batches) == Fold(m, LastSamples(batches))
    decreases |batches|
  {
    if batches != [] {
      var n := |batches| - 1;
      var init, b := batches[..n], batches[n];
      assert batches == init + [b];
      FoldBatchesSnoc(m, init, b);
      assert Renewed(init);
      RereadingIsHarmless(m, init);
      if b.Samples? {
        if LastSamples(init) != [] {
          var i := LastIsOne(init);
          assert batches[i] == init[i];
        }
        Absorbed(m, LastSamples(init), b.samples);
      }
    }
  }

  /** Reads of a cache that only grows are a special case. */
  lemma {:induction false} GrowingCovers<T>(a: seq<Sample<T>>, b: seq<Sample<T>>)
    requires a <= b
    ensures Covers(b, a)
    decreases |b|
  {
    if |a| < |b| {
      GrowingCovers(a, b[..|b| - 1]);
    } else {
      assert a == b;
    }
  }
}
