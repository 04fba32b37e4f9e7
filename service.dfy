/**
  The monitoring service of cmd/monitoor: the body of one `Monitor` tick and
  of one `Capture` tick, as sequential methods over the service's state.

  The goroutines, the tickers, the errgroup and the read-write lock are not
  modelled: each call of `MonitorTick` or `CaptureTick` is one tick, run to
  completion. The unbuffered channel `buffer` becomes the sequence `emitted`
  of every delta sent on it, and the calls of `SnapshotModel.Insert` become
  the sequence `captured` of every snapshot handed to it (its result is
  discarded by `Capture`, so whether the insert succeeded does not matter to
  the service's state).
 */
module Service {
  import opened NetStats
  import opened Wrappers

  /** `model.Stat`: the totals stored with one snapshot. */
  datatype Stat = Stat(sent: u64, received: u64, total: u64)

  /** `model.Snapshot`: a timestamp (unix seconds) and the traffic of one period. */
  datatype Snapshot = Snapshot(timestamp: int, stat: Stat)

  /** The traffic a snapshot records, as a `NetStat`. */
  function SnapshotTraffic(s: Snapshot): NetStat
  {
    NetStat(s.stat.sent, s.stat.received, s.stat.total)
  }

  /** The traffic of every snapshot, in order. */
  function SnapshotTraffics(ss: seq<Snapshot>): (r: seq<NetStat>)
    ensures |r| == |ss|
    ensures forall i :: 0 <= i < |ss| ==> r[i] == SnapshotTraffic(ss[i])
  {
    if ss == [] then [] else SnapshotTraffics(ss[..|ss| - 1]) + [SnapshotTraffic(ss[|ss| - 1])]
  }

  /** `Brief` returns `nil, err` on failure and otherwise a consistent reading. */
  predicate IsReading(r: Option<NetStat>)
  {
    r.Some? ==> Consistent(r.value)
  }

  class MonitorService {
    /** `currentStat`, the local baseline of `Monitor`: null until a reading succeeds. */
    var current: NetStatCell?
    /** `cumulativeStat`: all traffic since the service started. */
    var cumulative: NetStatCell
    /** `periodicStat`: traffic since the last capture. */
    var periodic: NetStatCell
    /** Every delta sent on the channel to `Display`, in order. */
    var emitted: seq<NetStat>
    /** Every snapshot handed to `Insert`, in order. */
    var captured: seq<Snapshot>

    /** The first reading `Monitor` took; every later reading is measured from it. */
    ghost var baseline: NetStat
    /** How many deltas had been emitted at the last capture. */
    ghost var mark: nat

    /** The baseline as a value, `None` while `currentStat` is nil. */
    function Current(): Option<NetStat>
      reads this, current
    {
      if current == null then None else Some(current.Value())
    }

    ghost predicate Valid()
      reads this, current, cumulative, periodic
    {
      // the three pointers are distinct allocations
      && cumulative != periodic
      && current != cumulative && current != periodic
      // every record keeps total == sent + recv
      && (current != null ==> Consistent(current.Value()))
      && Consistent(cumulative.Value()) && Consistent(periodic.Value())
      && AllConsistent(emitted)
      // nothing is emitted before the baseline exists
      && (current == null ==> emitted == [])
      // the cumulative total is the sum of every emitted delta ...
      && cumulative.Value() == SumOf(emitted)
      // ... which telescopes to the current reading minus the first one
      && (current != null ==> current.Value() == Incr(baseline, cumulative.Value()))
      // the periodic total is the sum of the deltas since the last capture
      && mark <= |emitted|
      && periodic.Value() == SumOf(emitted[mark..])
      && SumOf(SnapshotTraffics(captured)) == SumOf(emitted[..mark])
      // the accounting identity: cumulative = all captured snapshots + periodic
      && cumulative.Value() == Incr(SumOf(SnapshotTraffics(captured)), periodic.Value())
    }

    /** The state `main` builds when persistence is on: both accumulators zeroed. */
    constructor ()
      ensures Valid()
      ensures current == null && emitted == [] && captured == []
      ensures fresh(cumulative) && fresh(periodic)
      ensures cumulative.Value() == Zero && periodic.Value() == Zero
    {
      current := null;
      cumulative := new NetStatCell(Zero);
      periodic := new NetStatCell(Zero);
      emitted := [];
      captured := [];
      mark := 0;
      new;
      assert emitted[0..] == [] && emitted[..0] == [];
    }

    /**
      One `Monitor` tick. `first` is the result of the baseline call to
      `Brief` (made only while `currentStat` is nil) and `second` the result of
      the call that takes the new reading.
     */
    method MonitorTick(first: Option<NetStat>, second: Option<NetStat>)
      requires Valid()
      requires IsReading(first) && IsReading(second)
      modifies this, current, cumulative, periodic
      ensures Valid()
      ensures cumulative == old(cumulative) && periodic == old(periodic)
      ensures old(current) != null ==> current == old(current)
      ensures old(current) == null && current != null ==> fresh(current)
      ensures captured == old(captured)
      // no baseline and the baseline read fails: nothing changes
      ensures old(current) == null && first.None? ==>
        current == null && emitted == old(emitted)
        && cumulative.Value() == old(cumulative.Value()) && periodic.Value() == old(periodic.Value())
      // the new reading fails: the baseline (possibly just taken) is kept, nothing is emitted
      ensures (old(current) != null || first.Some?) && second.None? ==>
        Current() == (if old(current) == null then first else old(Current()))
        && emitted == old(emitted)
        && cumulative.Value() == old(cumulative.Value()) && periodic.Value() == old(periodic.Value())
      // success: emit new - baseline, add it to both accumulators, move the baseline
      ensures (old(current) != null || first.Some?) && second.Some? ==>
        var previous := if old(current) == null then first.value else old(current.Value());
        var delta := Delta(second.value, previous);
        && emitted == old(emitted) + [delta]
        && periodic.Value() == Incr(old(periodic.Value()), delta)
        && cumulative.Value() == Incr(old(cumulative.Value()), delta)
        && Current() == second
    {
      if current == null {
        if first.None? {
          return;
        }
        current := new NetStatCell(first.value);
        baseline := first.value;
        IncrIdentity(baseline);
      }
      if second.None? {
        return;
      }
      Emit(second.value);
    }

    /**
      The successful end of a `Monitor` tick: sends `newStat - currentStat` on
      the channel, adds it to both accumulators and makes `newStat` the
      baseline of the next tick.
     */
    method Emit(newStat: NetStat)
      requires Valid() && current != null && Consistent(newStat)
      modifies this, current, cumulative, periodic
      ensures Valid()
      ensures current == old(current) && cumulative == old(cumulative) && periodic == old(periodic)
      ensures captured == old(captured)
      ensures emitted == old(emitted) + [Delta(newStat, old(current.Value()))]
      ensures periodic.Value() == Incr(old(periodic.Value()), Delta(newStat, old(current.Value())))
      ensures cumulative.Value() == Incr(old(cumulative.Value()), Delta(newStat, old(current.Value())))
      ensures current.Value() == newStat
    {
      var delta := Delta(newStat, current.Value());
      var sent, pending, total := emitted, periodic.Value(), cumulative.Value();
      ghost var stored := SumOf(SnapshotTraffics(captured));
      emitted := sent + [delta];
      UpdateWith(periodic, Incr(pending, delta));
      UpdateWith(cumulative, Incr(total, delta));
      UpdateWith(current, newStat);
      EmitPreservesSums(sent, mark, delta, stored, pending, total, baseline, newStat);
    }

    /**
      One `Capture` tick: hands a snapshot of `periodicStat`, stamped with
      `now` (`time.Now().Unix()`), to `Insert`, ignores the result, and resets
      `periodicStat` to zero.
     */
    method CaptureTick(now: int) returns (snap: Snapshot)
      requires Valid()
      modifies this, periodic
      ensures Valid()
      ensures snap.timestamp == now
      ensures SnapshotTraffic(snap) == old(periodic.Value())
      ensures captured == old(captured) + [snap]
      ensures periodic == old(periodic) && periodic.Value() == Zero
      ensures cumulative == old(cumulative) && cumulative.Value() == old(cumulative.Value())
      ensures current == old(current) && Current() == old(Current())
      ensures emitted == old(emitted)
    {
      ghost var total := cumulative.Value();
      snap := Snapshot(now, Stat(periodic.sent, periodic.recv, periodic.total));
      CapturePreservesSums(captured, snap, emitted, mark);
      IncrIdentity(total);
      captured := captured + [snap];
      mark := |emitted|;
      assert emitted[..mark] == emitted;
      UpdateWith(periodic, Zero);
      assert cumulative.Value() == total;
    }
  }

  /** The accounting identity: all traffic since the start is what was captured plus what is pending. */
  lemma AccountingIdentity(s: MonitorService)
    requires s.Valid()
    ensures s.cumulative.Value() == Incr(SumOf(SnapshotTraffics(s.captured)), s.periodic.Value())
    ensures s.cumulative.Value() == SumOf(s.emitted)
  {
  }

  /** Every delta sent to `Display` keeps `total == sent + recv`. */
  lemma EmittedConsistent(s: MonitorService, i: nat)
    requires s.Valid() && i < |s.emitted|
    ensures Consistent(s.emitted[i])
  {
    AllConsistentAt(s.emitted, i);
  }

  /** Once a baseline exists, the cumulative total is the current reading minus the first reading. */
  lemma CumulativeTelescopes(s: MonitorService)
    requires s.Valid() && s.current != null
    ensures s.cumulative.Value() == Delta(s.current.Value(), s.baseline)
  {
    IncrCommutative(s.baseline, s.cumulative.Value());
    DeltaIncrRoundTrip(s.cumulative.Value(), s.baseline);
  }

  /**
    A run of the service: a first tick that takes the baseline and a reading,
    a tick whose reading fails, a second delta, then a capture.
   */
  method ServiceScenario() returns (emitted: seq<NetStat>, snap: Snapshot, periodic: NetStat, cumulative: NetStat)
    ensures emitted == [NetStat(100, 10, 110), NetStat(200, 20, 220)]
    ensures snap == Snapshot(1700000000, Stat(300, 30, 330))
    ensures periodic == Zero && cumulative == NetStat(300, 30, 330)
  {
    var s := new MonitorService();
    s.MonitorTick(Some(NewNetStat(1000, 200)), Some(NewNetStat(1100, 210)));
    s.MonitorTick(None, None);
    s.MonitorTick(None, Some(NewNetStat(1300, 230)));
    snap := s.CaptureTick(1700000000);
    emitted, periodic, cumulative := s.emitted, s.periodic.Value(), s.cumulative.Value();
  }

  /** The value-level facts behind `Emit`: the sums after one more delta, and the baseline identity. */
  lemma EmitPreservesSums(sent: seq<NetStat>, mark: nat, delta: NetStat, stored: NetStat, pending: NetStat, total: NetStat, baseline: NetStat, newStat: NetStat)
    requires mark <= |sent|
    requires total == SumOf(sent) && pending == SumOf(sent[mark..])
    requires stored == SumOf(sent[..mark]) && total == Incr(stored, pending)
    ensures Incr(total, delta) == SumOf(sent + [delta])
    ensures Incr(pending, delta) == SumOf((sent + [delta])[mark..])
    ensures stored == SumOf((sent + [delta])[..mark])
    ensures Incr(total, delta) == Incr(stored, Incr(pending, delta))
    ensures delta == Delta(newStat, Incr(baseline, total)) ==> newStat == Incr(baseline, Incr(total, delta))
  {
    SumOfAppend(sent, delta);
    SuffixSumAppend(sent, mark, delta);
    assert (sent + [delta])[..mark] == sent[..mark];
    IncrAssociative(stored, pending, delta);
    IncrAssociative(baseline, total, delta);
    IncrDeltaRoundTrip(newStat, Incr(baseline, total));
  }

  /** The sum over the deltas since the last capture, after one more delta is emitted. */
  lemma SuffixSumAppend(emitted: seq<NetStat>, mark: nat, delta: NetStat)
    requires mark <= |emitted|
    ensures SumOf((emitted + [delta])[mark..]) == Incr(SumOf(emitted[mark..]), delta)
  {
    assert (emitted + [delta])[mark..] == emitted[mark..] + [delta];
    SumOfAppend(emitted[mark..], delta);
  }

  /** The sums over the snapshots and the emitted deltas after one capture. */
  lemma CapturePreservesSums(captured: seq<Snapshot>, snap: Snapshot, emitted: seq<NetStat>, mark: nat)
    requires mark <= |emitted|
    requires SumOf(SnapshotTraffics(captured)) == SumOf(emitted[..mark])
    requires SnapshotTraffic(snap) == SumOf(emitted[mark..])
    ensures SumOf(SnapshotTraffics(captured + [snap])) == SumOf(emitted)
    ensures SumOf(emitted[|emitted|..]) == Zero
  {
    assert SnapshotTraffics(captured + [snap]) == SnapshotTraffics(captured) + [SnapshotTraffic(snap)];
    SumOfAppend(SnapshotTraffics(captured), SnapshotTraffic(snap));
    assert emitted == emitted[..mark] + emitted[mark..];
    SumOfConcat(emitted[..mark], emitted[mark..]);
    assert emitted[|emitted|..] == [];
  }
}
