/**
  The single-file monitor of main.go: a loop that reads the interface
  counters, shows the delta since the previous reading and adds it into the
  global `total`, which starts at zero.

  The endless loop is modelled over a finite sequence of `net.IOCounters`
  results: `readings[0]` is the call made before the loop and `readings[i]`
  the call of the i-th iteration. Running out of readings stands for the
  interrupt whose handler prints `total` and exits; a failed read panics, and
  so does `PrettyStat` on a value of 10^9 bytes or more (see `ByteRepr`).
  Sleeping and clearing the screen are not modelled; the deltas `PrettyStat`
  printed are collected in `shown`.
 */
module LegacyMonitor {
  import opened NetStats
  import opened ByteUnits
  import opened Wrappers

  /** The fields main.go uses from one `net.IOCounters` result. */
  datatype Counters = Counters(bytesSent: u64, bytesRecv: u64)

  /** How the loop ends: the interrupt handler runs, or a failed read panics. */
  datatype Outcome = Interrupted | Panicked

  /** The `NetStat` main.go builds from the i-th successful reading. */
  function ReadingAt(readings: seq<Option<Counters>>, i: nat): (r: NetStat)
    requires i < |readings| && readings[i].Some?
    ensures Consistent(r)
  {
    NewNetStat(readings[i].value.bytesSent, readings[i].value.bytesRecv)
  }

  /** The index of the first failed read, or the number of readings when none failed. */
  function FirstFailure(readings: seq<Option<Counters>>): (k: nat)
    ensures k <= |readings|
    ensures forall i :: 0 <= i < k ==> readings[i].Some?
    ensures k < |readings| ==> readings[k].None?
  {
    if readings == [] || readings[0].None? then 0 else 1 + FirstFailure(readings[1..])
  }

  /** Whether `ByteRepr` can print every field of a record: each is below 10^9. */
  predicate Printable(s: NetStat)
  {
    s.sent < Pow1000(3) && s.recv < Pow1000(3) && s.total < Pow1000(3)
  }

  /**
    `PrettyStat`: formats the three fields with `ByteRepr`; `ok` is false when
    one of those calls panics on its prefix index.
   */
  method PrettyStat(stat: NetStat) returns (ok: bool)
    ensures ok <==> Printable(stat)
  {
    var sent := ByteRepr(stat.sent);
    var recv := ByteRepr(stat.recv);
    var total := ByteRepr(stat.total);
    ok := sent.Ok? && recv.Ok? && total.Ok?;
  }

  /**
    The deltas `main` has shown after the reads `readings[..i]`, all of which
    succeeded: the `i - 1` consecutive differences, each of them printable.
   */
  predicate ShownUpTo(readings: seq<Option<Counters>>, i: nat, shown: seq<NetStat>)
  {
    && 1 <= i <= |readings|
    && (forall j :: 0 <= j < i ==> readings[j].Some?)
    && |shown| == i - 1
    && (forall j {:trigger shown[j]} :: 0 <= j < i - 1 ==> shown[j] == Delta(ReadingAt(readings, j + 1), ReadingAt(readings, j)))
    && (forall j :: 0 <= j < i - 1 ==> Printable(shown[j]))
  }

  /**
    How `main` ends on `readings`. `shown` is the longest run of printable
    consecutive differences among the successful reads, `total` is their sum,
    and it telescopes to the last reading added minus the first. The program
    panics when the run stops at a delta `PrettyStat` cannot print, at a
    failed read, or, once the readings are used up, when the interrupt
    handler cannot print `total`; otherwise the interrupt handler ends it.
   */
  predicate RunsAs(readings: seq<Option<Counters>>, outcome: Outcome, total: NetStat, shown: seq<NetStat>)
  {
    && total == SumOf(shown)
    && (forall i :: 0 <= i < |shown| ==> Printable(shown[i]))
    && (FirstFailure(readings) == 0 ==>
          total == Zero && shown == [] && (outcome == Panicked <==> readings != []))
    && (FirstFailure(readings) > 0 ==>
          var k := FirstFailure(readings);
          && |shown| <= k - 1
          && (forall i {:trigger shown[i]} :: 0 <= i < |shown| ==> shown[i] == Delta(ReadingAt(readings, i + 1), ReadingAt(readings, i)))
          && total == Delta(ReadingAt(readings, |shown|), ReadingAt(readings, 0))
          && (|shown| < k - 1 ==>
                outcome == Panicked && !Printable(Delta(ReadingAt(readings, |shown| + 1), ReadingAt(readings, |shown|))))
          && (|shown| == k - 1 ==> (outcome == Panicked <==> k < |readings| || !Printable(total))))
  }

  /**
    `main`'s loop. Each reading after the first shows `current - last`
    through `PrettyStat` and then adds it into `total` in place; a failed
    read or a delta `PrettyStat` cannot print stops it with a panic. When the
    readings run out, the interrupt handler prints `total`.
   */
  method Run(readings: seq<Option<Counters>>) returns (outcome: Outcome, total: NetStat, shown: seq<NetStat>)
    ensures RunsAs(readings, outcome, total, shown)
  {
    var totalCell := new NetStatCell(Zero);
    shown := [];
    if readings == [] {
      var ok := PrettyStat(totalCell.Value());
      outcome, total := if ok then Interrupted else Panicked, totalCell.Value();
      StopsEarly(readings, outcome);
      return;
    }
    if readings[0].None? {
      outcome, total := Panicked, totalCell.Value();
      StopsEarly(readings, outcome);
      return;
    }
    var last := ReadingAt(readings, 0);
    DeltaSelf(last);
    var i := 1;
    while i < |readings|
      invariant ShownUpTo(readings, i, shown)
      invariant last == ReadingAt(readings, i - 1)
      invariant totalCell.Value() == SumOf(shown)
      invariant totalCell.Value() == Delta(last, ReadingAt(readings, 0))
    {
      if readings[i].None? {
        outcome, total := Panicked, totalCell.Value();
        StopsAtFailedRead(readings, i, shown, total);
        return;
      }
      var current := ReadingAt(readings, i);
      var delta := new NetStatCell(Delta(current, last));
      var ok := PrettyStat(delta.Value());
      if !ok {
        outcome, total := Panicked, totalCell.Value();
        StopsAtUnprintable(readings, i, shown, total);
        return;
      }
      RunStep(ReadingAt(readings, 0), last, current, shown);
      ShownExtends(readings, i, shown);
      shown := shown + [delta.Value()];
      totalCell.IncrBy(delta);
      last := current;
      i := i + 1;
    }
    total := totalCell.Value();
    var ok := PrettyStat(total);
    outcome := if ok then Interrupted else Panicked;
    StopsAtEnd(readings, shown, total, outcome);
  }

  /**
    A counter that goes backwards: the wrapped delta is almost 2^64 bytes,
    which `PrettyStat` cannot print, so `main` panics before showing anything.
   */
  method BackwardsCounterExample() returns (outcome: Outcome, shown: seq<NetStat>)
    ensures outcome == Panicked && shown == []
  {
    var readings := [Some(Counters(5, 0)), Some(Counters(4, 0))];
    assert FirstFailure(readings[2..]) == 0 && FirstFailure(readings[1..]) == 1 && FirstFailure(readings) == 2;
    var total;
    outcome, total, shown := Run(readings);
  }

  /** Steadily growing counters: both deltas are shown and summed until the interrupt prints the total. */
  method SteadyRunExample() returns (outcome: Outcome, total: NetStat, shown: seq<NetStat>)
    ensures outcome == Interrupted
    ensures shown == [NetStat(50, 10, 60), NetStat(150, 10, 160)]
    ensures total == NetStat(200, 20, 220)
  {
    var readings := [Some(Counters(100, 10)), Some(Counters(150, 20)), Some(Counters(300, 30))];
    assert FirstFailure(readings[3..]) == 0 && FirstFailure(readings[2..]) == 1;
    assert FirstFailure(readings[1..]) == 2 && FirstFailure(readings) == 3;
    outcome, total, shown := Run(readings);
  }

  /** One iteration keeps the sum invariants: adding the new delta extends the sum, which still telescopes. */
  lemma RunStep(first: NetStat, last: NetStat, current: NetStat, shown: seq<NetStat>)
    requires SumOf(shown) == Delta(last, first)
    ensures SumOf(shown + [Delta(current, last)]) == Incr(SumOf(shown), Delta(current, last))
    ensures SumOf(shown + [Delta(current, last)]) == Delta(current, first)
  {
    SumOfAppend(shown, Delta(current, last));
    DeltaChain(first, last, current);
  }

  /** One iteration keeps the shown deltas the printable consecutive differences of the reads so far. */
  lemma ShownExtends(readings: seq<Option<Counters>>, i: nat, shown: seq<NetStat>)
    requires ShownUpTo(readings, i, shown) && i < |readings| && readings[i].Some?
    requires Printable(Delta(ReadingAt(readings, i), ReadingAt(readings, i - 1)))
    ensures ShownUpTo(readings, i + 1, shown + [Delta(ReadingAt(readings, i), ReadingAt(readings, i - 1))])
  {
    var d := Delta(ReadingAt(readings, i), ReadingAt(readings, i - 1));
    var next := shown + [d];
    assert next[i - 1] == d;
    assert forall j :: 0 <= j < i - 1 ==> next[j] == shown[j];
  }

  /** With no reading, or a failed first read, nothing is shown: the handler prints zero, or the program panics. */
  lemma StopsEarly(readings: seq<Option<Counters>>, outcome: Outcome)
    requires readings == [] || readings[0].None?
    requires outcome == (if readings == [] then Interrupted else Panicked)
    ensures RunsAs(readings, outcome, Zero, [])
  {
  }

  /** A failed read ends the loop with a panic and what was shown so far. */
  lemma StopsAtFailedRead(readings: seq<Option<Counters>>, i: nat, shown: seq<NetStat>, total: NetStat)
    requires ShownUpTo(readings, i, shown) && i < |readings| && readings[i].None?
    requires total == SumOf(shown) && total == Delta(ReadingAt(readings, i - 1), ReadingAt(readings, 0))
    ensures RunsAs(readings, Panicked, total, shown)
  {
    FirstFailureAt(readings, i);
    assert |shown| == FirstFailure(readings) - 1;
  }

  /** A delta that cannot be printed ends the loop with a panic, before it is added to `total`. */
  lemma StopsAtUnprintable(readings: seq<Option<Counters>>, i: nat, shown: seq<NetStat>, total: NetStat)
    requires ShownUpTo(readings, i, shown) && i < |readings| && readings[i].Some?
    requires total == SumOf(shown) && total == Delta(ReadingAt(readings, i - 1), ReadingAt(readings, 0))
    requires !Printable(Delta(ReadingAt(readings, i), ReadingAt(readings, i - 1)))
    ensures RunsAs(readings, Panicked, total, shown)
  {
    FirstFailureBeyond(readings, i);
    assert |shown| < FirstFailure(readings) - 1;
  }

  /** Once the readings are used up, the interrupt handler prints `total`, and panics if it cannot. */
  lemma StopsAtEnd(readings: seq<Option<Counters>>, shown: seq<NetStat>, total: NetStat, outcome: Outcome)
    requires ShownUpTo(readings, |readings|, shown)
    requires total == SumOf(shown) && total == Delta(ReadingAt(readings, |readings| - 1), ReadingAt(readings, 0))
    requires outcome == (if Printable(total) then Interrupted else Panicked)
    ensures RunsAs(readings, outcome, total, shown)
  {
    FirstFailureAt(readings, |readings|);
  }

  /** `FirstFailure` is the first index whose read failed. */
  lemma {:induction false} FirstFailureAt(readings: seq<Option<Counters>>, k: nat)
    requires k <= |readings|
    requires forall j :: 0 <= j < k ==> readings[j].Some?
    requires k < |readings| ==> readings[k].None?
    ensures FirstFailure(readings) == k
    decreases k
  {
    if k > 0 {
      FirstFailureAt(readings[1..], k - 1);
    }
  }

  /** When the reads up to and including `i` succeeded, the first failure comes after `i`. */
  lemma FirstFailureBeyond(readings: seq<Option<Counters>>, i: nat)
    requires i < |readings| && readings[i].Some?
    requires forall j :: 0 <= j < i ==> readings[j].Some?
    ensures FirstFailure(readings) > i
  {
  }
}
