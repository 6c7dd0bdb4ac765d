/**
 The ClickHouse process and thread sampler.

 A first command discovers thread ids, later ones sample the selected ids, and a
 changed process id throws the selection away.  Rates are taken between two
 successive successful samples of the same process and thread.
 */
module ProcessSampler {
  import opened Prelude

  datatype Thread = Thread(
    name: string, state: string, starttime: int, cpuTicks: int, readBytes: int, writeBytes: int, ioAccess: bool)

  datatype Coverage = Coverage(discovered: int, selected: int, captured: int, ioCaptured: int)

  /** A parsed /proc sample; `order` lists the thread ids as they were read. */
  datatype Process = Process(
    pid: int, hz: int, cpuTicks: int, rssBytes: int, readBytes: Option<int>, writeBytes: Option<int>,
    threads: map<int, Thread>, order: seq<int>, coverage: Coverage)

  ghost predicate WellFormed(p: Process) {
    forall tid :: tid in p.order <==> tid in p.threads
  }

  // ---- rates ----

  /** _counter_delta: None after a counter reset. */
  function CounterDelta(previous: int, current: int): Option<int> {
    if current >= previous then Some(current - previous) else None
  }

  function PerSecond(delta: Option<int>, elapsed: real): (rate: Option<real>)
    ensures rate.Some? <==> delta.Some?
    ensures rate.Some? && delta.value >= 0 ==> rate.value >= 0.0
  {
    if delta.None? then None else Some(delta.value as real / Max(elapsed, 0.001))
  }

  function CpuPercent(delta: Option<int>, hz: int, elapsed: real): (percent: Option<real>)
    ensures percent.Some? <==> delta.Some?
    ensures percent.Some? && delta.value >= 0 ==> percent.value >= 0.0
  {
    if delta.None? then None
    else Some(delta.value as real / (if hz < 1 then 1 else hz) as real / Max(elapsed, 0.001) * 100.0)
  }

  /** A rate times the elapsed time, at least a millisecond, is the growth of the counter. */
  lemma RateTimesElapsed(growth: int, elapsed: real)
    ensures PerSecond(Some(growth), elapsed).value * Max(elapsed, 0.001) == growth as real
  {
    var seconds := Max(elapsed, 0.001);
    assert growth as real / seconds * seconds == growth as real;
  }

  /** The CPU share times the elapsed clock ticks is a hundred times the ticks used. */
  lemma ShareTimesTicks(growth: int, hz: int, elapsed: real)
    ensures var rate := (if hz < 1 then 1 else hz) as real;
            CpuPercent(Some(growth), hz, elapsed).value * (Max(elapsed, 0.001) * rate) == growth as real * 100.0
  {
    var rate, seconds := (if hz < 1 then 1 else hz) as real, Max(elapsed, 0.001);
    var perTick := growth as real / rate;
    var share := perTick / seconds;
    assert perTick * rate == growth as real;
    assert share * seconds == perTick;
    assert share * 100.0 * (seconds * rate) == share * seconds * rate * 100.0;
  }

  datatype ThreadRow = ThreadRow(
    pid: int, tid: int, name: string, state: string, starttime: int, ioAccess: bool,
    cpuPct: Option<real>, readPerSec: Option<real>, writePerSec: Option<real>)

  /** The two observations of a thread can be compared. */
  predicate Comparable(previous: Option<Process>, current: Process, elapsed: Option<real>, tid: int) {
    && previous.Some? && elapsed.Some? && previous.value.pid == current.pid
    && tid in previous.value.threads && tid in current.threads
    && previous.value.threads[tid].starttime == current.threads[tid].starttime
  }

  /** What one row must say. */
  ghost predicate RowOf(previous: Option<Process>, current: Process, elapsed: Option<real>, tid: int, row: ThreadRow)
    requires tid in current.threads
  {
    var now := current.threads[tid];
    var comparable := Comparable(previous, current, elapsed, tid);
    && row.pid == current.pid && row.tid == tid && row.name == now.name && row.state == now.state
    && row.starttime == now.starttime && row.ioAccess == now.ioAccess
    && row.cpuPct == (if !comparable then None else
         CpuPercent(CounterDelta(previous.value.threads[tid].cpuTicks, now.cpuTicks), current.hz, elapsed.value))
    && var io := comparable && previous.value.threads[tid].ioAccess && now.ioAccess;
    && row.readPerSec == (if !io then None else
         PerSecond(CounterDelta(previous.value.threads[tid].readBytes, now.readBytes), elapsed.value))
    && row.writePerSec == (if !io then None else
         PerSecond(CounterDelta(previous.value.threads[tid].writeBytes, now.writeBytes), elapsed.value))
  }

  /** One row for each thread, in the order of their ids. */
  ghost predicate RowsOf(previous: Option<Process>, current: Process, elapsed: Option<real>, rows: seq<ThreadRow>) {
    && (forall i, j :: 0 <= i < j < |rows| ==> rows[i].tid < rows[j].tid)
    && (forall tid :: tid in current.threads <==> exists i :: 0 <= i < |rows| && rows[i].tid == tid)
    && (forall i :: 0 <= i < |rows| ==>
          rows[i].tid in current.threads && RowOf(previous, current, elapsed, rows[i].tid, rows[i]))
  }

  /** sorted(current_threads) */
  method SortedIds(ids: set<int>) returns (sorted: seq<int>)
    ensures forall i, j :: 0 <= i < j < |sorted| ==> sorted[i] < sorted[j]
    ensures forall id :: id in sorted <==> id in ids
  {
    sorted := [];
    var rest := ids;
    while rest != {}
      invariant rest <= ids
      invariant forall id :: id in ids <==> id in sorted || id in rest
      invariant forall i, j :: 0 <= i < j < |sorted| ==> sorted[i] < sorted[j]
      invariant forall i, id :: 0 <= i < |sorted| && id in rest ==> sorted[i] < id
      decreases |rest|
    {
      var least := Least(rest);
      sorted := sorted + [least];
      rest := rest - {least};
    }
  }

  method Least(ids: set<int>) returns (least: int)
    requires ids != {}
    ensures least in ids && forall id :: id in ids ==> least <= id
  {
    least := Pick(ids);
    var rest := ids - {least};
    while rest != {}
      invariant rest <= ids && least in ids
      invariant forall id :: id in ids && id !in rest ==> least <= id
      decreases |rest|
    {
      var id := Pick(rest);
      if id < least {
        least := id;
      }
      rest := rest - {id};
    }
  }

  /** normalized_clickhouse_thread_rows */
  method NormalizedThreadRows(previous: Option<Process>, current: Process, elapsed: Option<real>)
    returns (rows: seq<ThreadRow>)
    ensures RowsOf(previous, current, elapsed, rows)
  {
    var tids := SortedIds(current.threads.Keys);
    var sameProcess := previous.Some? && previous.value.pid == current.pid;
    rows := [];
    for k := 0 to |tids|
      invariant |rows| == k
      invariant forall i :: 0 <= i < k ==>
                  rows[i].tid == tids[i] && tids[i] in current.threads
                  && RowOf(previous, current, elapsed, tids[i], rows[i])
    {
      var tid := tids[k];
      assert tid in tids;
      var thread := current.threads[tid];
      var row := ThreadRow(current.pid, tid, thread.name, thread.state, thread.starttime, thread.ioAccess,
                           None, None, None);
      if sameProcess && tid in previous.value.threads && elapsed.Some? {
        var old' := previous.value.threads[tid];
        if old'.starttime == thread.starttime {
          row := row.(cpuPct := CpuPercent(CounterDelta(old'.cpuTicks, thread.cpuTicks), current.hz, elapsed.value));
          if old'.ioAccess && thread.ioAccess {
            row := row.(readPerSec := PerSecond(CounterDelta(old'.readBytes, thread.readBytes), elapsed.value),
                        writePerSec := PerSecond(CounterDelta(old'.writeBytes, thread.writeBytes), elapsed.value));
          }
        }
      }
      rows := rows + [row];
    }
    forall tid | tid in current.threads
      ensures exists i :: 0 <= i < |rows| && rows[i].tid == tid
    {
      var i :| 0 <= i < |tids| && tids[i] == tid;
      assert rows[i].tid == tid;
    }
  }

  /** A rate appears only for the same process, thread and start time, without a reset, and is not negative. */
  lemma ThreadRatesSound(previous: Option<Process>, current: Process, elapsed: Option<real>, tid: int, row: ThreadRow)
    requires tid in current.threads && RowOf(previous, current, elapsed, tid, row)
    ensures row.cpuPct.Some? <==>
              (Comparable(previous, current, elapsed, tid)
               && previous.value.threads[tid].cpuTicks <= current.threads[tid].cpuTicks)
    ensures row.readPerSec.Some? <==>
              (Comparable(previous, current, elapsed, tid)
               && previous.value.threads[tid].ioAccess && current.threads[tid].ioAccess
               && previous.value.threads[tid].readBytes <= current.threads[tid].readBytes)
    ensures row.writePerSec.Some? <==>
              (Comparable(previous, current, elapsed, tid)
               && previous.value.threads[tid].ioAccess && current.threads[tid].ioAccess
               && previous.value.threads[tid].writeBytes <= current.threads[tid].writeBytes)
    ensures row.cpuPct.Some? ==>
              row.cpuPct.value >= 0.0
              && row.cpuPct.value * (Max(elapsed.value, 0.001) * (if current.hz < 1 then 1 else current.hz) as real)
              == (current.threads[tid].cpuTicks - previous.value.threads[tid].cpuTicks) as real * 100.0
    ensures row.readPerSec.Some? ==>
              row.readPerSec.value >= 0.0
              && row.readPerSec.value * Max(elapsed.value, 0.001)
              == (current.threads[tid].readBytes - previous.value.threads[tid].readBytes) as real
    ensures row.writePerSec.Some? ==>
              row.writePerSec.value >= 0.0
              && row.writePerSec.value * Max(elapsed.value, 0.001)
              == (current.threads[tid].writeBytes - previous.value.threads[tid].writeBytes) as real
  {
    if Comparable(previous, current, elapsed, tid) {
      var old', now := previous.value.threads[tid], current.threads[tid];
      ShareTimesTicks(now.cpuTicks - old'.cpuTicks, current.hz, elapsed.value);
      RateTimesElapsed(now.readBytes - old'.readBytes, elapsed.value);
      RateTimesElapsed(now.writeBytes - old'.writeBytes, elapsed.value);
    }
  }

  /** What a row copies from its thread, and when its rates may appear at all. */
  lemma ThreadRowFields(previous: Option<Process>, current: Process, elapsed: Option<real>, tid: int, row: ThreadRow)
    requires tid in current.threads && RowOf(previous, current, elapsed, tid, row)
    ensures var t := current.threads[tid];
            row == ThreadRow(current.pid, tid, t.name, t.state, t.starttime, t.ioAccess,
                             row.cpuPct, row.readPerSec, row.writePerSec)
    ensures row.cpuPct.Some? || row.readPerSec.Some? || row.writePerSec.Some? ==>
              && previous.Some? && elapsed.Some? && previous.value.pid == current.pid
              && tid in previous.value.threads
              && previous.value.threads[tid].starttime == current.threads[tid].starttime
    ensures previous.Some? && elapsed.Some? && previous.value.pid == current.pid && tid in previous.value.threads
            && previous.value.threads[tid].starttime == current.threads[tid].starttime ==>
              && (row.cpuPct.Some? <==> previous.value.threads[tid].cpuTicks <= current.threads[tid].cpuTicks)
              && (row.readPerSec.Some? <==>
                    previous.value.threads[tid].ioAccess && current.threads[tid].ioAccess
                    && previous.value.threads[tid].readBytes <= current.threads[tid].readBytes)
              && (row.writePerSec.Some? <==>
                    previous.value.threads[tid].ioAccess && current.threads[tid].ioAccess
                    && previous.value.threads[tid].writeBytes <= current.threads[tid].writeBytes)
  {
  }

  datatype ProcessRow = ProcessRow(
    pid: int, rssBytes: int, cpuPct: Option<real>, readPerSec: Option<real>, writePerSec: Option<real>)

  function ByteRate(previous: Option<int>, current: Option<int>, elapsed: real): Option<real> {
    if previous.None? || current.None? then None
    else PerSecond(CounterDelta(previous.value, current.value), elapsed)
  }

  /** normalized_clickhouse_process_rows */
  function NormalizedProcessRow(previous: Option<Process>, current: Process, elapsed: Option<real>): (row: ProcessRow)
    ensures row.pid == current.pid && row.rssBytes == current.rssBytes
    ensures previous.None? ==> row.cpuPct.None? && row.readPerSec.None? && row.writePerSec.None?
  {
    if previous.None? || elapsed.None? || previous.value.pid != current.pid then
      ProcessRow(current.pid, current.rssBytes, None, None, None)
    else
      ProcessRow(
        current.pid, current.rssBytes,
        CpuPercent(CounterDelta(previous.value.cpuTicks, current.cpuTicks), current.hz, elapsed.value),
        ByteRate(previous.value.readBytes, current.readBytes, elapsed.value),
        ByteRate(previous.value.writeBytes, current.writeBytes, elapsed.value))
  }

  /** Both samples are of the same process and the counter was read in both without falling. */
  predicate Grew(
      previous: Option<Process>, current: Process, elapsed: Option<real>, was: Option<int>, now: Option<int>) {
    && previous.Some? && elapsed.Some? && previous.value.pid == current.pid
    && was.Some? && now.Some? && was.value <= now.value
  }

  lemma ByteRateMeaning(was: Option<int>, now: Option<int>, elapsed: real)
    ensures ByteRate(was, now, elapsed).Some? <==> was.Some? && now.Some? && was.value <= now.value
    ensures ByteRate(was, now, elapsed).Some? ==>
              ByteRate(was, now, elapsed).value * Max(elapsed, 0.001) == (now.value - was.value) as real
  {
    if was.Some? && now.Some? {
      RateTimesElapsed(now.value - was.value, elapsed);
    }
  }

  /** A process I/O rate appears exactly for a grown counter of the same process, and measures its growth. */
  lemma ProcessRatesSound(previous: Process, current: Process, elapsed: Option<real>)
    ensures var row := NormalizedProcessRow(Some(previous), current, elapsed);
            && (row.readPerSec.Some? <==>
                  Grew(Some(previous), current, elapsed, previous.readBytes, current.readBytes))
            && (row.writePerSec.Some? <==>
                  Grew(Some(previous), current, elapsed, previous.writeBytes, current.writeBytes))
            && (row.readPerSec.Some? ==>
                  row.readPerSec.value * Max(elapsed.value, 0.001)
                  == (current.readBytes.value - previous.readBytes.value) as real)
            && (row.writePerSec.Some? ==>
                  row.writePerSec.value * Max(elapsed.value, 0.001)
                  == (current.writeBytes.value - previous.writeBytes.value) as real)
  {
    if elapsed.Some? {
      ByteRateMeaning(previous.readBytes, current.readBytes, elapsed.value);
      ByteRateMeaning(previous.writeBytes, current.writeBytes, elapsed.value);
    }
  }

  /** The CPU share appears exactly for ticks of the same process that did not fall, and measures their growth. */
  lemma ProcessShareSound(previous: Process, current: Process, elapsed: Option<real>)
    ensures var row := NormalizedProcessRow(Some(previous), current, elapsed);
            && (row.cpuPct.Some? <==>
                  Grew(Some(previous), current, elapsed, Some(previous.cpuTicks), Some(current.cpuTicks)))
            && (row.cpuPct.Some? ==>
                  row.cpuPct.value * (Max(elapsed.value, 0.001) * (if current.hz < 1 then 1 else current.hz) as real)
                  == (current.cpuTicks - previous.cpuTicks) as real * 100.0)
  {
    if elapsed.Some? {
      ShareTimesTicks(current.cpuTicks - previous.cpuTicks, current.hz, elapsed.value);
    }
  }

  // ---- the selection machine ----

  datatype Arguments =
    | ProcessOnly
    | Discover(maxThreads: nat)
    | SelectedIds(maxThreads: nat, tids: seq<int>, discovered: int)

  datatype Warning = ThreadLimit | CaptureIncomplete | IoIncomplete

  /** The variables collect_process_once keeps between samples. */
  datatype Memory = Memory(
    previous: Option<Process>, previousMono: Option<real>,
    selected: Option<seq<int>>, selectedPid: Option<int>, discovered: int,
    warnings: seq<Warning>)

  /** One scheduled sample: the command failed, or it printed a process at a clock reading. */
  datatype Outcome = CommandFailed | Read(process: Process, monotonic: real)

  const START := Memory(None, None, None, None, 0, [])

  function Elapsed(m: Memory, monotonic: real): Option<real> {
    if m.previousMono.None? then None else Some(monotonic - m.previousMono.value)
  }

  function Request(threads: bool, maxThreads: nat, m: Memory): Arguments {
    if !threads then ProcessOnly
    else if m.selected.None? then Discover(maxThreads)
    else SelectedIds(maxThreads, m.selected.value, m.discovered)
  }

  function Warn(warnings: seq<Warning>, warning: Warning, due: bool): seq<Warning> {
    if due && warning !in warnings then warnings + [warning] else warnings
  }

  function CoverageWarnings(warnings: seq<Warning>, c: Coverage): seq<Warning> {
    var w1 := Warn(warnings, ThreadLimit, c.discovered > c.selected);
    var w2 := Warn(w1, CaptureIncomplete, c.captured < c.selected);
    Warn(w2, IoIncomplete, c.ioCaptured < c.captured)
  }

  function Select(threads: bool, m: Memory, p: Process): Memory {
    if threads && m.selected.None? then
      m.(selected := if p.order == [] then None else Some(p.order),
         selectedPid := Some(p.pid), discovered := p.coverage.discovered)
    else if m.selectedPid != Some(p.pid) then
      m.(selected := None, selectedPid := None, discovered := 0)
    else m
  }

  function After(threads: bool, m: Memory, outcome: Outcome): Memory {
    match outcome
    case CommandFailed => m
    case Read(p, monotonic) =>
      Select(threads, m, p).(
        previous := Some(p), previousMono := Some(monotonic), warnings := CoverageWarnings(m.warnings, p.coverage))
  }

  function AfterAll(threads: bool, outcomes: seq<Outcome>): Memory {
    if outcomes == [] then START
    else After(threads, AfterAll(threads, outcomes[..|outcomes| - 1]), outcomes[|outcomes| - 1])
  }

  /** A selection belongs to the process of the last successful sample. */
  predicate SelectionFits(m: Memory) {
    m.selected.Some? ==> m.previous.Some? && m.selectedPid == Some(m.previous.value.pid)
  }

  /** Whatever commands fail, the selection always fits. */
  lemma {:induction false} SelectionAlwaysFits(threads: bool, outcomes: seq<Outcome>)
    ensures SelectionFits(AfterAll(threads, outcomes))
    ensures !threads ==> AfterAll(threads, outcomes).selected == None
  {
    if outcomes != [] {
      SelectionAlwaysFits(threads, outcomes[..|outcomes| - 1]);
    }
  }

  /**
   The ids of a `selected` command were read by an earlier `discover`, and every
   successful sample since then was of the same process.
   */
  lemma {:induction false} SelectionOrigin(threads: bool, maxThreads: nat, outcomes: seq<Outcome>) returns (j: nat)
    requires AfterAll(threads, outcomes).selected.Some?
    ensures j < |outcomes| && outcomes[j].Read?
    ensures Request(threads, maxThreads, AfterAll(threads, outcomes[..j])) == Discover(maxThreads)
    ensures outcomes[j].process.order == AfterAll(threads, outcomes).selected.value
    ensures AfterAll(threads, outcomes).selectedPid == Some(outcomes[j].process.pid)
    ensures forall k :: j <= k < |outcomes| && outcomes[k].Read? ==> outcomes[k].process.pid == outcomes[j].process.pid
  {
    var n := |outcomes| - 1;
    var before := AfterAll(threads, outcomes[..n]);
    SelectionAlwaysFits(threads, outcomes);
    if outcomes[n].Read? && before.selected.None? {
      j := n;
    } else {
      j := SelectionOrigin(threads, maxThreads, outcomes[..n]);
      assert outcomes[..n][..j] == outcomes[..j];
    }
  }

  /** A sample of another process than the selected one is followed by a discover. */
  lemma {:induction false} PidChangeRediscovers(maxThreads: nat, outcomes: seq<Outcome>, p: Process, monotonic: real)
    requires AfterAll(true, outcomes).selected.Some? && AfterAll(true, outcomes).previous.Some?
    requires AfterAll(true, outcomes).previous.value.pid != p.pid
    ensures Request(true, maxThreads, AfterAll(true, outcomes + [Read(p, monotonic)])) == Discover(maxThreads)
  {
    SelectionAlwaysFits(true, outcomes);
    assert (outcomes + [Read(p, monotonic)])[..|outcomes|] == outcomes;
  }

  /** The sample calls for the warning. */
  predicate CallsFor(outcome: Outcome, warning: Warning) {
    outcome.Read? &&
    var c := outcome.process.coverage;
    match warning
    case ThreadLimit => c.discovered > c.selected
    case CaptureIncomplete => c.captured < c.selected
    case IoIncomplete => c.ioCaptured < c.captured
  }

  /** Each coverage warning is recorded once, and exactly when some sample calls for it. */
  lemma {:induction false} WarningsOnce(threads: bool, outcomes: seq<Outcome>)
    ensures var w := AfterAll(threads, outcomes).warnings;
            && NoDuplicates(w)
            && (forall warning :: warning in w <==> exists k :: 0 <= k < |outcomes| && CallsFor(outcomes[k], warning))
  {
    if outcomes != [] {
      var n := |outcomes| - 1;
      WarningsOnce(threads, outcomes[..n]);
      assert outcomes == outcomes[..n] + [outcomes[n]];
    }
  }

  /** The sampler of one collection. */
  class Sampler {
    const threads: bool
    const maxThreads: nat
    var memory: Memory

    constructor (threads: bool, maxThreads: nat)
      ensures this.threads == threads && this.maxThreads == maxThreads && memory == START
    {
      this.threads, this.maxThreads, memory := threads, maxThreads, START;
    }

    /** The arguments of the next command. */
    method CommandArguments() returns (arguments: Arguments)
      ensures arguments == Request(threads, maxThreads, memory)
    {
      if !threads {
        arguments := ProcessOnly;
      } else if memory.selected.None? {
        arguments := Discover(maxThreads);
      } else {
        arguments := SelectedIds(maxThreads, memory.selected.value, memory.discovered);
      }
    }

    /** Keep, take or drop the selected thread ids. */
    method SelectThreads(p: Process)
      modifies this
      ensures memory == Select(threads, old(memory), p)
    {
      if threads && memory.selected.None? {
        memory := memory.(selected := if p.order == [] then None else Some(p.order));
        memory := memory.(selectedPid := Some(p.pid), discovered := p.coverage.discovered);
      } else if memory.selectedPid != Some(p.pid) {
        memory := memory.(selected := None, selectedPid := None, discovered := 0);
      }
    }

    /** Record a coverage warning unless it is already reported. */
    method WarnOnce(warning: Warning, due: bool)
      modifies this
      ensures memory == old(memory).(warnings := Warn(old(memory).warnings, warning, due))
    {
      if due && warning !in memory.warnings {
        memory := memory.(warnings := memory.warnings + [warning]);
      }
    }

    /** Record what the coverage of a sample lacks. */
    method WarnCoverage(c: Coverage)
      modifies this
      ensures memory == old(memory).(warnings := CoverageWarnings(old(memory).warnings, c))
    {
      WarnOnce(ThreadLimit, c.discovered > c.selected);
      WarnOnce(CaptureIncomplete, c.captured < c.selected);
      WarnOnce(IoIncomplete, c.ioCaptured < c.captured);
    }

    /** Normalize a sample against the previous one, and remember it. */
    method Normalize(p: Process, monotonic: real) returns (processRow: ProcessRow, threadRows: seq<ThreadRow>)
      requires WellFormed(p)
      modifies this
      ensures memory == old(memory).(previous := Some(p), previousMono := Some(monotonic))
      ensures var elapsed := Elapsed(old(memory), monotonic);
              && processRow == NormalizedProcessRow(old(memory).previous, p, elapsed)
              && RowsOf(old(memory).previous, p, elapsed, threadRows)
    {
      var elapsed := Elapsed(memory, monotonic);
      processRow := NormalizedProcessRow(memory.previous, p, elapsed);
      threadRows := NormalizedThreadRows(memory.previous, p, elapsed);
      memory := memory.(previous := Some(p), previousMono := Some(monotonic));
    }

    /** collect_process_once: build the command, then digest what it printed. */
    method CollectOnce(outcome: Outcome)
      returns (arguments: Arguments, processRow: Option<ProcessRow>, threadRows: seq<ThreadRow>)
      requires SelectionFits(memory) && (outcome.Read? ==> WellFormed(outcome.process))
      modifies this
      ensures arguments == Request(threads, maxThreads, old(memory))
      ensures memory == After(threads, old(memory), outcome) && SelectionFits(memory)
      ensures outcome.CommandFailed? ==> processRow == None && threadRows == []
      ensures outcome.Read? ==>
                var elapsed := Elapsed(old(memory), outcome.monotonic);
                && processRow == Some(NormalizedProcessRow(old(memory).previous, outcome.process, elapsed))
                && RowsOf(old(memory).previous, outcome.process, elapsed, threadRows)
    {
      arguments := CommandArguments();
      processRow, threadRows := None, [];
      if outcome.CommandFailed? {
        return;
      }
      var p := outcome.process;
      SelectThreads(p);
      WarnCoverage(p.coverage);
      assert memory.previous == old(memory).previous && memory.previousMono == old(memory).previousMono;
      var row;
      row, threadRows := Normalize(p, outcome.monotonic);
      processRow := Some(row);
    }
  }

  /** What a discover command reads is what the next command asks for, while the process stays the same. */
  lemma {:induction false} SelectionIsSent(
      maxThreads: nat, outcomes: seq<Outcome>, p: Process, monotonic: real, later: seq<Outcome>)
    requires Request(true, maxThreads, AfterAll(true, outcomes)) == Discover(maxThreads) && p.order != []
    requires forall k :: 0 <= k < |later| && later[k].Read? ==> later[k].process.pid == p.pid
    ensures Request(true, maxThreads, AfterAll(true, outcomes + [Read(p, monotonic)] + later))
         == SelectedIds(maxThreads, p.order, p.coverage.discovered)
    ensures AfterAll(true, outcomes + [Read(p, monotonic)] + later).selectedPid == Some(p.pid)
  {
    var first := outcomes + [Read(p, monotonic)];
    var all := first + later;
    if later == [] {
      assert all == first && first[..|outcomes|] == outcomes;
    } else {
      var n := |later| - 1;
      assert all[..|all| - 1] == first + later[..n] && all[|all| - 1] == later[n];
      SelectionIsSent(maxThreads, outcomes, p, monotonic, later[..n]);
    }
  }

  /** The first command discovers, and without threads only the process is read. */
  lemma {:induction false} FirstRequest(maxThreads: nat, outcomes: seq<Outcome>)
    ensures Request(true, maxThreads, AfterAll(true, [])) == Discover(maxThreads)
    ensures Request(false, maxThreads, AfterAll(false, outcomes)) == ProcessOnly
  {
  }

  /** Before the first success the memory holds no sample. */
  lemma {:induction false} NoSuccess(threads: bool, outcomes: seq<Outcome>)
    ensures var m := AfterAll(threads, outcomes);
            && (m.previous.None? <==> m.previousMono.None?)
            && (m.previous.None? <==> forall k :: 0 <= k < |outcomes| ==> outcomes[k].CommandFailed?)
  {
    if outcomes != [] {
      var n := |outcomes| - 1;
      NoSuccess(threads, outcomes[..n]);
      assert outcomes == outcomes[..n] + [outcomes[n]];
    }
  }

  /** The memory holds the last successful sample, and time is measured from it. */
  lemma {:induction false} LastSuccess(threads: bool, outcomes: seq<Outcome>) returns (k: nat)
    requires AfterAll(threads, outcomes).previous.Some?
    ensures k < |outcomes| && forall j :: k < j < |outcomes| ==> outcomes[j].CommandFailed?
    ensures var m := AfterAll(threads, outcomes);
            && outcomes[k].Read? && m.previous == Some(outcomes[k].process)
            && m.previousMono == Some(outcomes[k].monotonic)
            && forall t :: Elapsed(m, t) == Some(t - outcomes[k].monotonic)
  {
    var n := |outcomes| - 1;
    if outcomes[n].Read? {
      k := n;
    } else {
      k := LastSuccess(threads, outcomes[..n]);
      assert outcomes == outcomes[..n] + [outcomes[n]];
    }
  }
}
