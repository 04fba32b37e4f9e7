# go-monitor: traffic accounting, in Dafny

This project models the traffic-accounting core of go-monitor. go-monitor is a
network monitor that reads the machine's byte counters, shows the traffic
since the previous reading, and keeps running totals. The model covers:

- **The `NetStat` record** (`{sent, recv, total}`) and its uint64 arithmetic.
  This is `NewNetStat`, `Incr` (into a new value and in place), `Delta` and
  `UpdateWith`. The repository repeats these in five files; they are modelled
  once in `netstat.dfy`. Go's wrap-around modulo 2^64 is written out
  (`Add64`, `Sub64`).
- **The monitoring service** of `cmd/monitoor` (`service.dfy`). It is a class
  holding the baseline reading, the cumulative and periodic accumulators,
  the deltas sent to the display, and the snapshots handed to the database.
  - `MonitorTick` is one tick of `Monitor`.
  - `CaptureTick` is one tick of `Capture`.
  - The invariant `Valid` states the accounting identity: the cumulative
    total is the sum of every captured snapshot plus the periodic total, and
    also the current reading minus the first one.
- **The single-file monitor of `main.go`** (`legacy_main.dfy`). Its loop
  reads the counters, prints each delta with `PrettyStat` and accumulates
  the total in place. Its readings are a sequence, and the interrupt comes
  when they run out. A failed read panics, and so does `PrettyStat` on a
  field of 10^9 bytes or more (the `ByteRepr` finding below), both in the
  loop and in the interrupt handler.
- **Byte-unit selection** of `ByteCountSI` and `ByteRepr` (`convert.dfy`).
  This is the integer divisor loop and the choice of SI prefix.
- **Small helpers** (`statistics_helper.dfy`, `cli_helper.dfy`, `logger.dfy`):
  - the month-name table and `transformMonthName`;
  - `GetLevel` and the `EnumFlag` validation callback;
  - the logger's level names and the filter, entry and trace decisions of
    `log`.

Readings from `Brief` / `net.IOCounters` are inputs. Each is an `Option`: a
failed read is `None`, and a successful one is a record with
`total == sent + recv`. The timestamp of a capture and the formatted time of
a log entry are inputs too.

The code resets `periodicStat` after every capture, whatever `Insert`
returned (cmd/monitoor/service.go:164-170). Resetting only after a
successful insert would keep unsaved traffic for the next tick; the code
resets regardless. The model follows the code: `CaptureTick` always resets,
and `captured` records every snapshot handed to `Insert`.

## Model

| member | source | states |
|---|---|---|
| NetStats.Add64 | netstat.go:17-21 | uint64 `+`: the exact sum below 2^64, otherwise the sum minus 2^64 |
| NetStats.Sub64 | netstat.go:24-30 | uint64 `-`: the exact difference when it is non-negative, otherwise the difference plus 2^64 |
| NetStats.NewNetStat | netstat.go:33-39 | keeps `sent` and `recv`; the total is their wrapped sum, so the record is consistent |
| NetStats.Incr | cmd/monitoor/helper/stat_helper.go:6-12 | field-wise wrapped sum; two consistent records sum to a consistent record |
| NetStats.Delta | cmd/monitoor/helper/stat_helper.go:15-21 | field-wise wrapped difference; the difference of two consistent records is consistent |
| NetStats.AddCongruence | netstat_helper.go:11-17 | adding totals equals adding the sent and received parts separately, mod 2^64 |
| NetStats.SubCongruence | netstat_helper.go:20-26 | subtracting totals equals subtracting the parts separately, mod 2^64 |
| NetStats.IncrCommutative | netstat_helper.go:11-17 | `Incr(a, b) == Incr(b, a)` |
| NetStats.IncrAssociative | netstat_helper.go:11-17 | `Incr(Incr(a, b), c) == Incr(a, Incr(b, c))` |
| NetStats.IncrIdentity | netstat_helper.go:11-17 | the zero record is a two-sided identity of `Incr` |
| NetStats.DeltaSelf | netstat_helper.go:20-26 | `Delta(a, a)` is all zeros |
| NetStats.IncrDeltaRoundTrip | cmd/monitoor/helper/stat_helper.go:6-21 | `Incr(b, Delta(a, b)) == a` for all records, including wrapped ones |
| NetStats.DeltaIncrRoundTrip | netstat_helper.go:11-26 | `Delta(Incr(a, b), b) == a` for all records |
| NetStats.DeltaInjective | monitoor/netstat.go:24-30 | equal deltas from the same older reading mean equal newer readings |
| NetStats.DeltaExact | main.go:44-50 | with no field going backwards, the delta is the exact field-wise difference |
| NetStats.DeltaWraps | netstat.go:24-30 | a counter that went backwards gives a wrapped delta of 2^64 minus the drop, larger than the new counter |
| NetStats.TestVectors | monitoor/netstat_test.go:5-43 | `{20,5,25}` plus `{10,3,13}` is `{30,8,38}`, their delta is `{10,2,12}`, and `NewNetStat` builds both test records |
| NetStats.NewNetStatDeltaConsistent | netstat.go:24-39 | the delta of two `NewNetStat` records satisfies `total == sent + recv` |
| NetStats.DeltaChain | main.go:133-140 | two consecutive deltas add up to the delta across both intervals |
| NetStats.SumOfAppend | main.go:139 | adding one more delta into a sum extends the sum by that delta |
| NetStats.SumOfConcat | main.go:139 | the sum of two runs of deltas is the `Incr` of their sums |
| NetStats.AllConsistentAt | pkg/monitoor/monitor.go:21-25 | every element of an all-consistent sequence is consistent |
| NetStats.SumOfConsistent | cmd/monitoor/helper/stat_helper.go:6-12 | the sum of consistent records is consistent |
| NetStats.NetStatCell.IncrBy | monitoor/netstat.go:17-21 | in place: the receiver becomes the field-wise sum of its old value and the argument's old value, even when both are the same record |
| NetStats.UpdateWith | cmd/monitoor/helper/stat_helper.go:23-27 | the target's three fields become the new value's; nothing else is modified |
| NetStats.IncrInPlaceExample | netstat_test.go:5-13 | `NewNetStat(20,5)` incremented in place by `NewNetStat(10,3)` holds `30/8/38` |
| Service.SnapshotTraffics | internal/model/snapshot.go:13-22 | the traffic of each snapshot, one per snapshot, in order |
| Service.MonitorService.constructor | cmd/monitoor/main.go:102-124 | both accumulators start at zero in fresh records; no baseline, nothing emitted or captured; the invariant holds |
| Service.MonitorService.MonitorTick | cmd/monitoor/service.go:72-103 | three cases. A failed baseline read changes nothing. A failed second read keeps the baseline (or the one just taken) and emits nothing. Otherwise it emits `new - baseline`, adds it to both accumulators and moves the baseline to the new reading. It keeps the accounting invariant |
| Service.MonitorService.Emit | cmd/monitoor/service.go:89-103 | the successful end of a tick: appends the delta, increments periodic and cumulative by it, stores the new reading; keeps the invariant |
| Service.MonitorService.CaptureTick | cmd/monitoor/service.go:145-170 | the snapshot carries `now` and the periodic total and is appended to the captured ones. The periodic total is reset to zero unconditionally. Cumulative, baseline and emitted deltas are untouched. Keeps the invariant |
| Service.AccountingIdentity | cmd/monitoor/service.go:92-100 | cumulative equals the sum of all captured snapshots plus periodic, and equals the sum of every emitted delta |
| Service.EmittedConsistent | pkg/monitoor/monitor.go:21-25 | every delta sent to the display satisfies `total == sent + recv` |
| Service.CumulativeTelescopes | cmd/monitoor/service.go:89-103 | once a baseline exists, cumulative equals the current reading minus the first reading |
| Service.ServiceScenario | cmd/monitoor/service.go:72-170 | a concrete run: readings 1000/200, 1100/210, a failed tick, 1300/230, then a capture. It emits `{100,10,110}` and `{200,20,220}`, captures `{300,30,330}`, and leaves periodic zero and cumulative `{300,30,330}` |
| Service.EmitPreservesSums | cmd/monitoor/service.go:95-98 | after one more delta the sums over all, captured and pending deltas still match both accumulators and the baseline identity |
| Service.SuffixSumAppend | cmd/monitoor/service.go:95 | the sum since the last capture grows by exactly the new delta |
| Service.CapturePreservesSums | cmd/monitoor/service.go:164-169 | after a capture the captured snapshots sum to all emitted deltas and nothing is pending |
| LegacyMonitor.ReadingAt | main.go:133 | the record built from a successful reading is consistent |
| LegacyMonitor.FirstFailure | main.go:121-131 | the index of the first failed read: all earlier reads succeeded |
| LegacyMonitor.PrettyStat | main.go:60-71 | printing succeeds iff each of sent, received and total is below 10^9; otherwise `ByteRepr` panics |
| LegacyMonitor.Run | main.go:107-140 | the shown deltas are the differences of consecutive readings, each printable, in order, up to the first failed read or the first unprintable delta. `total` is their sum and equals the last summed reading minus the first. The run panics iff the first read fails, a later read fails, a delta cannot be printed, or the handler cannot print `total`; otherwise the interrupt ends it. With no reading at all, nothing is shown and `total` is zero |
| LegacyMonitor.BackwardsCounterExample | main.go:133-137 | a counter going from 5 to 4 gives a delta near 2^64, which cannot be printed: the program panics having shown nothing |
| LegacyMonitor.SteadyRunExample | main.go:107-140 | readings 100/10, 150/20, 300/30 show `{50,10,60}` and `{150,10,160}`, and the interrupt prints the total `{200,20,220}` |
| LegacyMonitor.RunStep | main.go:133-140 | adding the new delta into the running sum extends the sum of the shown deltas, which still telescopes to the current reading minus the first |
| LegacyMonitor.ShownExtends | main.go:133-137 | a printable delta appended to the shown ones keeps them the consecutive differences of the reads so far |
| LegacyMonitor.StopsEarly | main.go:107-123 | no reading: the handler prints zero and the run ends normally; a failed first read: a panic with nothing shown |
| LegacyMonitor.StopsAtFailedRead | main.go:126-131 | a failed read ends the run with a panic, keeping what was shown and summed before it |
| LegacyMonitor.StopsAtUnprintable | main.go:133-139 | an unprintable delta ends the run with a panic before it is added to `total` |
| LegacyMonitor.StopsAtEnd | main.go:111-119 | when the readings run out the handler prints `total`, and the run panics iff `total` is not printable |
| LegacyMonitor.FirstFailureBeyond | main.go:126-131 | when every read up to `i` succeeded, the first failure comes after `i` |
| LegacyMonitor.FirstFailureAt | main.go:126-131 | characterises `FirstFailure` as the first failed index |
| ByteUnits.Decimal | internal/util/convert.go:10-12 | `%d`: at least one digit, only digits, no leading zero |
| ByteUnits.DecimalRoundTrip | internal/util/convert.go:11 | reading back the printed digits gives the number |
| ByteUnits.ScaleDivisor | internal/util/convert.go:14-19 | the loop ends with `div == 1000^(exp+1)` and `div <= bytes < 1000*div`. `exp` is the prefix index and at most 5, so `div <= 10^18` never overflows |
| ByteUnits.MagnitudeMonotone | internal/util/convert.go:16-21 | a larger count never gets a smaller prefix |
| ByteUnits.ByteCountSI | internal/util/convert.go:7-22 | below 1000: the decimal and " B". Otherwise: scaled by the largest power of 1000 not above the count, with an in-range prefix from "kMGTPE" |
| ByteUnits.ByteRepr | main.go:77-92 | succeeds iff the count is below 10^9: " B" below 1000, "kB" with divisor 1000, "MB" with divisor 10^6. From 10^9 on, the index into "kM" is out of range |
| ByteUnits.ByteCountSIExamples | internal/util/convert_test.go:8-27 | the test's values: 0 and 1 print exactly; 1024, 4792 and 10240 use "kB" with divisor 1000. Boundary values added beside them: 999 prints exactly, 1000 uses "kB", and 1234500 uses "MB" with divisor 10^6 |
| ByteUnits.GigabyteExample | main.go:91 | at 10^9 bytes `ByteRepr` fails with index 2, while `ByteCountSI` gives "GB" with divisor 10^9 |
| StatisticsHelper.MonthNamesKeys | cmd/statistics/helper.go:9-22 | the table's keys are exactly "01".."12" |
| StatisticsHelper.MonthKeyRoundTrip | cmd/statistics/helper.go:9-22 | every month name maps back to its key |
| StatisticsHelper.MonthNamesDistinct | cmd/statistics/helper.go:9-22 | different keys have different, non-empty names |
| StatisticsHelper.UnknownMonthLabel | cmd/statistics/helper.go:28 | a key outside the table gives "<key> - " |
| StatisticsHelper.LabelRoundTrip | cmd/statistics/helper.go:28 | for a two-character key, the label's first two characters are the key and what follows " - " is its name |
| StatisticsHelper.TransformMonthName | cmd/statistics/helper.go:24-32 | one label per key, same length, same order, each "key - name" |
| CliHelper.GetLevel | cmd/helper/helper.go:8-29 | the result lies in [-1, 7] and is 6 iff the name is not one of the eight recognised names |
| CliHelper.LevelName | cmd/helper/helper.go:8-29 | the recognised name of each level other than 6 |
| CliHelper.GetLevelRoundTrip | cmd/helper/helper.go:8-29 | recognised names and the levels other than 6 correspond one to one, in both directions |
| CliHelper.GetLevelInjective | cmd/helper/helper.go:8-29 | distinct recognised names get distinct levels |
| CliHelper.GetLevelValues | cmd/helper/helper.go:10-27 | trace -1, debug 0, info 1, warn 2, error 3, fatal 4, panic 5, disabled 7, and "" gives 6 |
| CliHelper.EnumFlagCheck | cmd/helper/helper.go:32-41 | accepts iff the value is in the safe list. On acceptance the target holds the value. On rejection the error carries the list and the target is unchanged |
| Logger.LevelString | internal/logger/logger.go:14-29 | non-empty exactly for the levels Debug..Fatal |
| Logger.ParseLevel | internal/logger/logger.go:14-29 | a name reads back only as a level in Debug..Fatal |
| Logger.LevelStringRoundTrip | internal/logger/logger.go:14-29 | names and the levels Debug..Fatal correspond one to one, in both directions |
| Logger.LevelOrder | internal/logger/logger.go:39-46 | Debug < Info < Warn < Error < Fatal < Off, consecutive from 0; Off has the empty name |
| Logger.Log | internal/logger/logger.go:81-95 | skipped iff the level is below the minimum. Otherwise the entry has the level's name, the time, the message and the properties, and carries a trace iff the level is at least Fatal |
| Logger.LevelOffSilences | internal/logger/logger.go:61-84 | at `LevelOff`, none of Info, Warn, Debug, Error and Fatal writes anything |
| Logger.LogFilterMonotone | internal/logger/logger.go:82-84 | raising the minimum level never lets through a skipped message |
| Logger.ErrorEntries | internal/logger/logger.go:73-79 | Error logs the error text under "ERROR" without a trace. Fatal logs it under "FATAL" with a trace, and is written unless the minimum is `LevelOff` |

## Left out

- Goroutines, the errgroup, the channel, the read-write lock and the tickers
  of `Run`, `Monitor`, `Display` and `Capture` are not modelled. Each method
  call is one tick, run to completion. The channel send is an append to
  `emitted`, and its blocking is not modelled. A `Monitor` update landing
  between `Capture`'s read lock and its reset lock, which would be lost, is
  not modelled.
- `Display` only formats values for the log. The model does not cover it
  beyond `ByteCountSI`.
- The `%.1f` floating-point rendering of scaled byte counts is not modelled.
  A scaled result keeps the count, the divisor and the unit.
- `Brief` and `net.IOCounters` (gopsutil) are not modelled. A reading is an
  input that may fail, and a successful one is consistent.
- The SQL layer is not modelled. `Insert` is recorded as a call whose result
  `Capture` ignores.
- `time.Now()` and `time.Sleep` are not modelled: timestamps and formatted
  times are parameters.
- When persistence is off, `periodicStat` stays nil and the first successful
  `Monitor` tick dereferences it. `Capture` dereferences the same nil
  `periodicStat` (cmd/monitoor/service.go:151) and calls `Insert` on a nil
  model (cmd/monitoor/service.go:164). The model covers only the
  configuration with both accumulators and the model allocated.
- The clearing of the screen, the colours, `String` and `Pretty` are not
  modelled. `PrettyStat` is modelled only as whether it can print its
  record. The signal handler is not a concurrent goroutine in the model: in
  `LegacyMonitor.Run` the interrupt comes when the readings run out, so an
  interrupt in the middle of an iteration is not modelled.
- The registration through `flag.Func` in `EnumFlag` is not modelled; only
  the callback is.
- `selectPrompt` and the interactive statistics service are not modelled.
- The logger's JSON marshalling and its fallback line, the stack trace's
  text, the mutex and the write to the `io.Writer` are not modelled. A
  written entry records whether it carries a trace.
- `LegacyMonitor.Run`: only `stats[0]` of a reading is used. An empty
  counter list, which would panic on the index, is not modelled.

## Findings

| source | as written | input that shows it | evidently intended | confidence | as-written member | corrected member |
|---|---|---|---|---|---|---|
| main.go:91 | the prefix is `"kM"[exp]`, and `exp` reaches 2 at 10^9 bytes | 1000000000 bytes: index 2 into a two-character string, so the program panics; in `main` a delta or a total of 10^9 bytes or more ends the monitor (`LegacyMonitor.BackwardsCounterExample`) | the prefix table of `ByteCountSI`, `"kMGTPE"`, which covers every uint64 | high; not executed | ByteUnits.ByteRepr | ByteUnits.ByteCountSI |
