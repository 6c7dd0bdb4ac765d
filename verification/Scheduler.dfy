/**
 One sampling source on absolute deadlines.

 `State` is the whole life of a source as a reader of its log would see it, and
 `Apply` gives the effect of each atomic section between two awaits.  Deadlines,
 completions and cancellation may interleave in any order the guards allow.
 */
module Scheduler {
  import opened Prelude

  /** A schedule entry: the sample index and the offset from the start of the run. */
  datatype Entry = Entry(sampleIndex: nat, offset: real)

  datatype Status = Running | Sampled(monotonic: real) | Failed | Stopped

  /** A task created for schedule[pos] at the clock reading `at`. */
  datatype Task = Task(pos: nat, at: real, status: Status)

  datatype Sample = Sample(sampleIndex: nat, offset: real, monotonic: real)

  /** What _record_source_error leaves behind; an error does not name its sample. */
  datatype Diagnostic = SkippedBusy(sampleIndex: nat) | Error

  datatype Phase = Looping | Returned | Cancelled

  datatype State = State(
    clock: real,
    pos: nat,
    active: Option<nat>,
    tasks: seq<Task>,
    skipped: seq<nat>,
    samples: seq<Sample>,
    diagnostics: seq<Diagnostic>,
    phase: Phase)

  datatype Event =
    | Elapse(clock: real)   // time passes while everything waits
    | Deadline              // the loop wakes for its next entry
    | FinishOk              // collect_once appends its sample
    | FinishError           // collect_once raises and guarded_collect records it
    | Drain                 // the loop is over and the last task is done
    | Cancel                // the source's own task is cancelled

  function Init(clock: real): State {
    State(clock, 0, None, [], [], [], [], Looping)
  }

  predicate Busy(s: State) {
    s.active.Some? && s.active.value < |s.tasks| && s.tasks[s.active.value].status == Running
  }

  predicate Enabled(schedule: seq<Entry>, s: State, e: Event) {
    match e
    case Elapse(clock) => s.clock <= clock && s.phase == Looping
    case Deadline => s.phase == Looping && s.pos < |schedule| && schedule[s.pos].offset <= s.clock
    case FinishOk => s.phase == Looping && Busy(s) && s.tasks[s.active.value].pos < |schedule|
    case FinishError => s.phase == Looping && Busy(s)
    case Drain => s.phase == Looping && s.pos == |schedule| && !Busy(s)
    case Cancel => s.phase == Looping
  }

  function WithStatus(s: State, status: Status): seq<Task>
    requires Busy(s)
  {
    s.tasks[s.active.value := s.tasks[s.active.value].(status := status)]
  }

  function Apply(schedule: seq<Entry>, s: State, e: Event): State
    requires Enabled(schedule, s, e)
  {
    match e
    case Elapse(clock) => s.(clock := clock)
    case Deadline =>
      if Busy(s) then
        s.(pos := s.pos + 1, skipped := s.skipped + [s.pos],
           diagnostics := s.diagnostics + [SkippedBusy(schedule[s.pos].sampleIndex)])
      else
        s.(pos := s.pos + 1, active := Some(|s.tasks|), tasks := s.tasks + [Task(s.pos, s.clock, Running)])
    case FinishOk =>
      var entry := schedule[s.tasks[s.active.value].pos];
      s.(tasks := WithStatus(s, Sampled(s.clock)),
         samples := s.samples + [Sample(entry.sampleIndex, entry.offset, s.clock)])
    case FinishError =>
      s.(tasks := WithStatus(s, Failed), diagnostics := s.diagnostics + [Error])
    case Drain => s.(phase := Returned)
    case Cancel =>
      s.(phase := Cancelled, tasks := if Busy(s) then WithStatus(s, Stopped) else s.tasks)
  }

  /** Event e is enabled and leads from s to t. */
  predicate Leads(schedule: seq<Entry>, s: State, e: Event, t: State) {
    Enabled(schedule, s, e) && t == Apply(schedule, s, e)
  }

  lemma DrainLeads(schedule: seq<Entry>, s: State)
    requires s.phase == Looping && s.pos == |schedule| && !Busy(s)
    ensures Leads(schedule, s, Drain, s.(phase := Returned))
  {
  }

  lemma FinishLeads(schedule: seq<Entry>, s: State)
    requires s.phase == Looping && Busy(s) && s.tasks[s.active.value].pos < |schedule|
    ensures var entry := schedule[s.tasks[s.active.value].pos];
            Leads(schedule, s, FinishOk, s.(
              tasks := WithStatus(s, Sampled(s.clock)),
              samples := s.samples + [Sample(entry.sampleIndex, entry.offset, s.clock)]))
    ensures Leads(schedule, s, FinishError, s.(
              tasks := WithStatus(s, Failed), diagnostics := s.diagnostics + [Error]))
  {
  }

  lemma LaunchLeads(schedule: seq<Entry>, s: State)
    requires s.phase == Looping && s.pos < |schedule| && schedule[s.pos].offset <= s.clock && !Busy(s)
    ensures Leads(schedule, s, Deadline, s.(
              pos := s.pos + 1, active := Some(|s.tasks|), tasks := s.tasks + [Task(s.pos, s.clock, Running)]))
  {
  }

  // ---- runs ----

  ghost predicate ValidRun(schedule: seq<Entry>, s: State, events: seq<Event>)
    decreases |events|
  {
    events == [] ||
    (Enabled(schedule, s, events[0]) && ValidRun(schedule, Apply(schedule, s, events[0]), events[1..]))
  }

  ghost function Exec(schedule: seq<Entry>, s: State, events: seq<Event>): State
    requires ValidRun(schedule, s, events)
    decreases |events|
  {
    if events == [] then s else Exec(schedule, Apply(schedule, s, events[0]), events[1..])
  }

  // ---- what the log should hold ----

  /** The samples of the tasks that succeeded, in launch order. */
  function SamplesOf(schedule: seq<Entry>, tasks: seq<Task>): seq<Sample>
    requires forall i {:trigger tasks[i].pos} :: 0 <= i < |tasks| ==> tasks[i].pos < |schedule|
  {
    if tasks == [] then []
    else
      var last := tasks[|tasks| - 1];
      SamplesOf(schedule, tasks[..|tasks| - 1]) +
      match last.status
      case Sampled(monotonic) =>
        [Sample(schedule[last.pos].sampleIndex, schedule[last.pos].offset, monotonic)]
      case _ => []
  }

  function FailureCount(tasks: seq<Task>): nat {
    if tasks == [] then 0
    else FailureCount(tasks[..|tasks| - 1]) + if tasks[|tasks| - 1].status == Failed then 1 else 0
  }

  function ErrorCount(diagnostics: seq<Diagnostic>): nat {
    if diagnostics == [] then 0
    else ErrorCount(diagnostics[..|diagnostics| - 1]) + if diagnostics[|diagnostics| - 1] == Error then 1 else 0
  }

  /** The sample indices of the skip diagnostics, in order. */
  function Skips(diagnostics: seq<Diagnostic>): seq<nat> {
    if diagnostics == [] then []
    else Skips(diagnostics[..|diagnostics| - 1]) +
         match diagnostics[|diagnostics| - 1]
         case SkippedBusy(index) => [index]
         case Error => []
  }

  function IndicesAt(schedule: seq<Entry>, positions: seq<nat>): (indices: seq<nat>)
    requires forall i :: 0 <= i < |positions| ==> positions[i] < |schedule|
    ensures |indices| == |positions|
    ensures forall i :: 0 <= i < |positions| ==> indices[i] == schedule[positions[i]].sampleIndex
  {
    seq(|positions|, i requires 0 <= i < |positions| => schedule[positions[i]].sampleIndex)
  }

  predicate Launched(s: State, p: nat) {
    exists i :: 0 <= i < |s.tasks| && s.tasks[i].pos == p
  }

  // ---- the invariant ----

  /** Launch order, deadlines and the split of the handled entries into launches and skips. */
  ghost predicate Accounts(schedule: seq<Entry>, s: State) {
    && s.pos <= |schedule|
    && (forall i {:trigger s.tasks[i].pos} {:trigger s.tasks[i].at} :: 0 <= i < |s.tasks| ==>
          s.tasks[i].pos < s.pos && schedule[s.tasks[i].pos].offset <= s.tasks[i].at <= s.clock)
    && (forall i, j {:trigger s.tasks[i].pos, s.tasks[j].pos} {:trigger s.tasks[i].at, s.tasks[j].at} ::
          0 <= i < j < |s.tasks| ==> s.tasks[i].pos < s.tasks[j].pos && s.tasks[i].at <= s.tasks[j].at)
    && (forall i :: 0 <= i < |s.skipped| ==> s.skipped[i] < s.pos)
    && (forall i, j :: 0 <= i < j < |s.skipped| ==> s.skipped[i] < s.skipped[j])
    && (forall p: nat {:trigger Launched(s, p)} :: p < s.pos ==> (Launched(s, p) <==> p !in s.skipped))
    && |s.tasks| + |s.skipped| == s.pos
    && (s.pos > 0 ==> |s.tasks| > 0 && s.tasks[0].pos == 0)
  }

  /** Only the last task can be running, and only while the loop is. */
  ghost predicate OneActive(s: State) {
    && (s.active.None? <==> s.tasks == [])
    && (s.active.Some? ==> s.active.value == |s.tasks| - 1)
    && (forall i {:trigger s.tasks[i].status} :: 0 <= i < |s.tasks| && s.tasks[i].status == Running ==>
          i == |s.tasks| - 1 && s.phase == Looping)
    && (forall i {:trigger s.tasks[i].status} :: 0 <= i < |s.tasks| && s.tasks[i].status == Stopped ==>
          s.phase == Cancelled)
  }

  /** The log agrees with the tasks. */
  ghost predicate LogAgrees(schedule: seq<Entry>, s: State)
    requires Accounts(schedule, s)
  {
    && s.samples == SamplesOf(schedule, s.tasks)
    && ErrorCount(s.diagnostics) == FailureCount(s.tasks)
    && Skips(s.diagnostics) == IndicesAt(schedule, s.skipped)
    && (forall i {:trigger s.tasks[i].status} :: 0 <= i < |s.tasks| && s.tasks[i].status.Sampled? ==>
          s.tasks[i].at <= s.tasks[i].status.monotonic <= s.clock)
    && (forall i, j {:trigger s.tasks[i].status, s.tasks[j].at} ::
          0 <= i < j < |s.tasks| && s.tasks[i].status.Sampled? ==>
          s.tasks[i].status.monotonic <= s.tasks[j].at)
  }

  ghost predicate Inv(schedule: seq<Entry>, s: State) {
    && Accounts(schedule, s) && OneActive(s) && LogAgrees(schedule, s)
    && (s.phase == Returned ==> s.pos == |schedule|)
  }

  lemma InitInv(schedule: seq<Entry>, clock: real)
    ensures Inv(schedule, Init(clock))
  {
  }

  /** A skipped deadline. */
  lemma SkipAccounts(schedule: seq<Entry>, s: State)
    requires Accounts(schedule, s) && OneActive(s) && Enabled(schedule, s, Deadline) && Busy(s)
    ensures Accounts(schedule, Apply(schedule, s, Deadline)) && OneActive(Apply(schedule, s, Deadline))
  {
    var next := Apply(schedule, s, Deadline);
    forall p: nat | p < next.pos
      ensures Launched(next, p) <==> p !in next.skipped
    {
      assert Launched(next, p) <==> Launched(s, p);
      assert next.skipped[|s.skipped|] == s.pos;
    }
  }

  lemma LaunchedGrows(s: State, next: State, task: Task, p: nat)
    requires next.tasks == s.tasks + [task]
    ensures Launched(next, p) <==> Launched(s, p) || p == task.pos
  {
    if Launched(s, p) {
      var i :| 0 <= i < |s.tasks| && s.tasks[i].pos == p;
      assert next.tasks[i].pos == p;
    }
    assert next.tasks[|s.tasks|] == task;
  }

  /** A launch at a deadline. */
  lemma LaunchAccounts(schedule: seq<Entry>, s: State)
    requires Accounts(schedule, s) && OneActive(s) && Enabled(schedule, s, Deadline) && !Busy(s)
    ensures Accounts(schedule, Apply(schedule, s, Deadline)) && OneActive(Apply(schedule, s, Deadline))
  {
    var next := Apply(schedule, s, Deadline);
    forall p: nat | p < next.pos
      ensures Launched(next, p) <==> p !in next.skipped
    {
      LaunchedGrows(s, next, Task(s.pos, s.clock, Running), p);
    }
  }

  ghost predicate SameLaunches(a: seq<Task>, b: seq<Task>) {
    |a| == |b| && forall i :: 0 <= i < |a| ==> a[i].pos == b[i].pos && a[i].at == b[i].at
  }

  lemma SameLaunchesAccounts(schedule: seq<Entry>, s: State, next: State)
    requires Accounts(schedule, s) && SameLaunches(s.tasks, next.tasks)
    requires next.pos == s.pos && next.skipped == s.skipped && s.clock <= next.clock
    ensures Accounts(schedule, next)
  {
    forall p: nat | p < next.pos
      ensures Launched(next, p) <==> p !in next.skipped
    {
      assert Launched(s, p) <==> p !in s.skipped;
      if Launched(s, p) {
        var i :| 0 <= i < |s.tasks| && s.tasks[i].pos == p;
        assert next.tasks[i].pos == p;
      }
    }
  }

  /** The active task ends with the given status. */
  lemma EndAccounts(schedule: seq<Entry>, s: State, next: State, status: Status)
    requires Accounts(schedule, s) && OneActive(s) && Busy(s)
    requires status != Running && (status == Stopped ==> next.phase == Cancelled)
    requires next.tasks == WithStatus(s, status) && next.active == s.active && next.clock == s.clock
    requires next.pos == s.pos && next.skipped == s.skipped
    requires s.phase == Looping && (next.phase == Looping || next.phase == Cancelled)
    ensures Accounts(schedule, next) && OneActive(next)
  {
    assert SameLaunches(s.tasks, next.tasks);
    SameLaunchesAccounts(schedule, s, next);
    forall i | 0 <= i < |s.tasks| - 1
      ensures next.tasks[i] == s.tasks[i]
    {
    }
  }

  /** Only the clock or the phase changes. */
  lemma QuietAccounts(schedule: seq<Entry>, s: State, next: State)
    requires Accounts(schedule, s) && OneActive(s)
    requires next.tasks == s.tasks && next.active == s.active && s.clock <= next.clock
    requires next.pos == s.pos && next.skipped == s.skipped
    requires s.phase == Looping && (next.phase == Looping || !Busy(s))
    ensures Accounts(schedule, next) && OneActive(next)
  {
    assert SameLaunches(s.tasks, next.tasks);
    SameLaunchesAccounts(schedule, s, next);
  }

  predicate Ends(s: State, e: Event) {
    Busy(s) && (e == FinishOk || e == FinishError || e == Cancel)
  }

  function EndStatus(s: State, e: Event): Status {
    if e == FinishOk then Sampled(s.clock) else if e == FinishError then Failed else Stopped
  }

  lemma EndShape(schedule: seq<Entry>, s: State, e: Event)
    requires Enabled(schedule, s, e) && Ends(s, e)
    ensures var next := Apply(schedule, s, e);
            next == next.(clock := s.clock, pos := s.pos, active := s.active, skipped := s.skipped,
                          tasks := WithStatus(s, EndStatus(s, e)))
    ensures Apply(schedule, s, e).phase == if e == Cancel then Cancelled else Looping
  {
  }

  lemma QuietShape(schedule: seq<Entry>, s: State, e: Event)
    requires Enabled(schedule, s, e) && e != Deadline && !Ends(s, e)
    ensures var next := Apply(schedule, s, e);
            next == s.(clock := next.clock, phase := next.phase) && s.clock <= next.clock
            && s.phase == Looping && (next.phase == Looping || !Busy(s))
    ensures Apply(schedule, s, e).phase == Returned ==> s.pos == |schedule|
  {
  }

  // ---- the log ----

  lemma {:induction false} StatusCounts(schedule: seq<Entry>, tasks: seq<Task>, status: Status)
    requires |tasks| > 0 && tasks[|tasks| - 1].status == Running
    requires forall i {:trigger tasks[i].pos} :: 0 <= i < |tasks| ==> tasks[i].pos < |schedule|
    ensures var last := tasks[|tasks| - 1];
            var ended := tasks[|tasks| - 1 := last.(status := status)];
            && FailureCount(ended) == FailureCount(tasks) + (if status == Failed then 1 else 0)
            && SamplesOf(schedule, ended) == SamplesOf(schedule, tasks) +
                 match status
                 case Sampled(m) => [Sample(schedule[last.pos].sampleIndex, schedule[last.pos].offset, m)]
                 case _ => []
  {
    var n := |tasks| - 1;
    var ended := tasks[n := tasks[n].(status := status)];
    assert ended[..n] == tasks[..n];
  }

  lemma DeadlineLog(schedule: seq<Entry>, s: State)
    requires Inv(schedule, s) && Enabled(schedule, s, Deadline)
    requires Accounts(schedule, Apply(schedule, s, Deadline))
    ensures LogAgrees(schedule, Apply(schedule, s, Deadline))
  {
    var next := Apply(schedule, s, Deadline);
    if Busy(s) {
      assert next.diagnostics[..|s.diagnostics|] == s.diagnostics;
      assert IndicesAt(schedule, next.skipped)
          == IndicesAt(schedule, s.skipped) + [schedule[s.pos].sampleIndex];
    } else {
      assert next.tasks[..|s.tasks|] == s.tasks;
    }
  }

  lemma EndLog(schedule: seq<Entry>, s: State, e: Event)
    requires Inv(schedule, s) && Enabled(schedule, s, e) && Ends(s, e)
    requires Accounts(schedule, Apply(schedule, s, e))
    ensures LogAgrees(schedule, Apply(schedule, s, e))
  {
    var next := Apply(schedule, s, e);
    var status := EndStatus(s, e);
    assert next.tasks == WithStatus(s, status);
    StatusCounts(schedule, s.tasks, status);
    if e == FinishError {
      assert next.diagnostics[..|s.diagnostics|] == s.diagnostics;
    }
  }

  lemma StepInv(schedule: seq<Entry>, s: State, e: Event)
    requires Inv(schedule, s) && Enabled(schedule, s, e)
    ensures Inv(schedule, Apply(schedule, s, e))
  {
    if e == Deadline {
      DeadlineInv(schedule, s);
    } else if Ends(s, e) {
      EndInv(schedule, s, e);
    } else {
      QuietInv(schedule, s, e);
    }
  }

  lemma DeadlineInv(schedule: seq<Entry>, s: State)
    requires Inv(schedule, s) && Enabled(schedule, s, Deadline)
    ensures Inv(schedule, Apply(schedule, s, Deadline))
  {
    if Busy(s) {
      SkipAccounts(schedule, s);
    } else {
      LaunchAccounts(schedule, s);
    }
    DeadlineLog(schedule, s);
  }

  lemma EndInv(schedule: seq<Entry>, s: State, e: Event)
    requires Inv(schedule, s) && Enabled(schedule, s, e) && Ends(s, e)
    ensures Inv(schedule, Apply(schedule, s, e))
  {
    EndShape(schedule, s, e);
    EndAccounts(schedule, s, Apply(schedule, s, e), EndStatus(s, e));
    EndLog(schedule, s, e);
  }

  lemma QuietInv(schedule: seq<Entry>, s: State, e: Event)
    requires Inv(schedule, s) && Enabled(schedule, s, e) && e != Deadline && !Ends(s, e)
    ensures Inv(schedule, Apply(schedule, s, e))
  {
    QuietShape(schedule, s, e);
    QuietAccounts(schedule, s, Apply(schedule, s, e));
  }

  /** Every state of every run satisfies the invariant. */
  lemma {:induction false} RunInv(schedule: seq<Entry>, s: State, events: seq<Event>)
    requires Inv(schedule, s) && ValidRun(schedule, s, events)
    ensures Inv(schedule, Exec(schedule, s, events))
    decreases |events|
  {
    if events != [] {
      StepInv(schedule, s, events[0]);
      RunInv(schedule, Apply(schedule, s, events[0]), events[1..]);
    }
  }

  // ---- what a run amounts to ----

  predicate Ascending(schedule: seq<Entry>) {
    forall i, j :: 0 <= i < j < |schedule| ==>
      schedule[i].sampleIndex < schedule[j].sampleIndex && schedule[i].offset <= schedule[j].offset
  }

  /** How schedule[p] ended, given the task launched for it, if any. */
  ghost predicate EndedAs(s: State, p: nat, i: nat) {
    i < |s.tasks| && s.tasks[i].pos == p && (s.tasks[i].status.Sampled? || s.tasks[i].status == Failed)
  }

  /** The source stops only when nothing is running, however it stops. */
  lemma {:induction false} NothingLeftRunning(schedule: seq<Entry>, clock: real, events: seq<Event>)
    requires ValidRun(schedule, Init(clock), events)
    ensures var s := Exec(schedule, Init(clock), events);
            && (s.phase != Looping ==> forall i :: 0 <= i < |s.tasks| ==> s.tasks[i].status != Running)
            && (forall i, j :: 0 <= i < j < |s.tasks| ==>
                  s.tasks[i].status != Running || s.tasks[j].status != Running)
            && (forall i :: 0 <= i < |s.tasks| && s.tasks[i].pos < |schedule| ==>
                  schedule[s.tasks[i].pos].offset <= s.tasks[i].at)
            && 0 !in s.skipped
  {
    InitInv(schedule, clock);
    RunInv(schedule, Init(clock), events);
    var s := Exec(schedule, Init(clock), events);
    if s.pos > 0 {
      assert Launched(s, 0) <==> 0 !in s.skipped;
    }
  }

  lemma {:induction false} SamplesCount(schedule: seq<Entry>, tasks: seq<Task>)
    requires forall i {:trigger tasks[i].pos} :: 0 <= i < |tasks| ==> tasks[i].pos < |schedule|
    requires forall i :: 0 <= i < |tasks| ==> tasks[i].status.Sampled? || tasks[i].status == Failed
    ensures |SamplesOf(schedule, tasks)| + FailureCount(tasks) == |tasks|
  {
    if tasks != [] {
      SamplesCount(schedule, tasks[..|tasks| - 1]);
    }
  }

  lemma {:induction false} DiagnosticCount(diagnostics: seq<Diagnostic>)
    ensures |Skips(diagnostics)| + ErrorCount(diagnostics) == |diagnostics|
  {
    if diagnostics != [] {
      DiagnosticCount(diagnostics[..|diagnostics| - 1]);
    }
  }

  ghost predicate Ordered(samples: seq<Sample>) {
    forall j, k :: 0 <= j < k < |samples| ==>
      samples[j].sampleIndex < samples[k].sampleIndex && samples[j].monotonic <= samples[k].monotonic
  }

  ghost predicate Below(samples: seq<Sample>, sampleIndex: nat, monotonic: real) {
    forall k :: 0 <= k < |samples| ==>
      samples[k].sampleIndex < sampleIndex && samples[k].monotonic <= monotonic
  }

  /** The samples of the first n tasks are in order and come before everything task m brings. */
  lemma {:induction false} SampleOrder(schedule: seq<Entry>, s: State, n: nat, m: nat)
    requires Inv(schedule, s) && Ascending(schedule) && n <= m <= |s.tasks|
    ensures Ordered(SamplesOf(schedule, s.tasks[..n]))
    ensures m < |s.tasks| ==>
              Below(SamplesOf(schedule, s.tasks[..n]), schedule[s.tasks[m].pos].sampleIndex, s.tasks[m].at)
  {
    if n > 0 {
      var last := s.tasks[n - 1];
      assert s.tasks[..n][..n - 1] == s.tasks[..n - 1];
      SampleOrder(schedule, s, n - 1, n - 1);
      SampleOrder(schedule, s, n - 1, m);
    }
  }

  /** When the source has returned, the log holds one line for each entry. */
  lemma ReturnedAccounts(schedule: seq<Entry>, s: State)
    requires Inv(schedule, s) && s.phase == Returned
    ensures |s.samples| + |s.diagnostics| == |schedule|
  {
    SamplesCount(schedule, s.tasks);
    DiagnosticCount(s.diagnostics);
  }

  /**
   A run that returns loses nothing: each entry ended as one sample, one error
   or one skip, and the log holds one line for each.
   */
  lemma {:induction false} RunAccounts(schedule: seq<Entry>, clock: real, events: seq<Event>, p: nat)
    requires ValidRun(schedule, Init(clock), events)
    requires Exec(schedule, Init(clock), events).phase == Returned
    requires p < |schedule|
    ensures var s := Exec(schedule, Init(clock), events);
            && ((exists i :: EndedAs(s, p, i)) <==> p !in s.skipped)
            && (forall i, j :: EndedAs(s, p, i) && EndedAs(s, p, j) ==> i == j)
            && Inv(schedule, s)
            && |s.samples| + |s.diagnostics| == |schedule|
  {
    InitInv(schedule, clock);
    RunInv(schedule, Init(clock), events);
    var s := Exec(schedule, Init(clock), events);
    ReturnedAccounts(schedule, s);
    EntryEnds(schedule, s, p);
  }

  /** Some sample of the log carries the index of schedule[p]. */
  ghost predicate HasSample(schedule: seq<Entry>, s: State, p: nat)
    requires p < |schedule|
  {
    exists k :: 0 <= k < |s.samples| && s.samples[k].sampleIndex == schedule[p].sampleIndex
  }

  predicate HasSkip(schedule: seq<Entry>, s: State, p: nat)
    requires p < |schedule|
  {
    SkippedBusy(schedule[p].sampleIndex) in s.diagnostics
  }

  ghost predicate HasError(s: State, p: nat) {
    exists i :: 0 <= i < |s.tasks| && s.tasks[i].pos == p && s.tasks[i].status == Failed
  }

  /** The entry left a sample, a skip or an error, and only one of them. */
  ghost predicate OneRecord(schedule: seq<Entry>, s: State, p: nat)
    requires p < |schedule|
  {
    && (HasSample(schedule, s, p) || HasSkip(schedule, s, p) || HasError(s, p))
    && !(HasSample(schedule, s, p) && HasSkip(schedule, s, p))
    && !(HasSample(schedule, s, p) && HasError(s, p))
    && !(HasSkip(schedule, s, p) && HasError(s, p))
    && (forall j, k :: 0 <= j < k < |s.samples| && s.samples[j].sampleIndex == schedule[p].sampleIndex ==>
          s.samples[k].sampleIndex != schedule[p].sampleIndex)
  }

  /** Each sample of the log belongs to a task that succeeded, and the other way round. */
  lemma {:induction false} SamplesMeaning(schedule: seq<Entry>, tasks: seq<Task>, sample: Sample)
    requires forall i {:trigger tasks[i].pos} :: 0 <= i < |tasks| ==> tasks[i].pos < |schedule|
    ensures sample in SamplesOf(schedule, tasks) <==>
              exists i :: 0 <= i < |tasks| && tasks[i].status == Sampled(sample.monotonic)
                && schedule[tasks[i].pos] == Entry(sample.sampleIndex, sample.offset)
  {
    if tasks != [] {
      var n := |tasks| - 1;
      SamplesMeaning(schedule, tasks[..n], sample);
      assert tasks == tasks[..n] + [tasks[n]];
    }
  }

  lemma {:induction false} SkipsMeaning(diagnostics: seq<Diagnostic>, index: nat)
    ensures index in Skips(diagnostics) <==> SkippedBusy(index) in diagnostics
  {
    if diagnostics != [] {
      var n := |diagnostics| - 1;
      SkipsMeaning(diagnostics[..n], index);
      assert diagnostics == diagnostics[..n] + [diagnostics[n]];
    }
  }

  lemma SampleTask(schedule: seq<Entry>, s: State, p: nat, k: nat)
    requires Inv(schedule, s) && Ascending(schedule) && p < |schedule|
    requires k < |s.samples| && s.samples[k].sampleIndex == schedule[p].sampleIndex
    ensures exists i :: 0 <= i < |s.tasks| && s.tasks[i].pos == p && s.tasks[i].status.Sampled?
  {
    SamplesMeaning(schedule, s.tasks, s.samples[k]);
    var i :| 0 <= i < |s.tasks| && s.tasks[i].status.Sampled?
      && schedule[s.tasks[i].pos].sampleIndex == schedule[p].sampleIndex;
    assert s.tasks[i].pos == p;
  }

  lemma SampleHasTask(schedule: seq<Entry>, s: State, p: nat)
    requires Inv(schedule, s) && Ascending(schedule) && p < |schedule|
    ensures HasSample(schedule, s, p) <==>
              exists i :: 0 <= i < |s.tasks| && s.tasks[i].pos == p && s.tasks[i].status.Sampled?
  {
    if HasSample(schedule, s, p) {
      var k :| 0 <= k < |s.samples| && s.samples[k].sampleIndex == schedule[p].sampleIndex;
      SampleTask(schedule, s, p, k);
    }
    if i :| 0 <= i < |s.tasks| && s.tasks[i].pos == p && s.tasks[i].status.Sampled? {
      var sample := Sample(schedule[p].sampleIndex, schedule[p].offset, s.tasks[i].status.monotonic);
      SamplesMeaning(schedule, s.tasks, sample);
      var k :| 0 <= k < |s.samples| && s.samples[k] == sample;
    }
  }

  lemma SkipHasEntry(schedule: seq<Entry>, s: State, p: nat)
    requires Inv(schedule, s) && Ascending(schedule) && p < |schedule|
    ensures HasSkip(schedule, s, p) <==> p in s.skipped
  {
    SkipsMeaning(s.diagnostics, schedule[p].sampleIndex);
    var indices := IndicesAt(schedule, s.skipped);
    if schedule[p].sampleIndex in indices {
      var k :| 0 <= k < |indices| && indices[k] == schedule[p].sampleIndex;
      assert s.skipped[k] == p;
    }
    if p in s.skipped {
      var k :| 0 <= k < |s.skipped| && s.skipped[k] == p;
      assert indices[k] == schedule[p].sampleIndex;
    }
  }

  /** Which entry ended in a task, and in how many. */
  lemma EntryEnds(schedule: seq<Entry>, s: State, p: nat)
    requires Inv(schedule, s) && s.phase == Returned && p < |schedule|
    ensures (exists i :: EndedAs(s, p, i)) <==> p !in s.skipped
    ensures forall i, j :: EndedAs(s, p, i) && EndedAs(s, p, j) ==> i == j
  {
    assert Launched(s, p) <==> p !in s.skipped;
    if Launched(s, p) {
      var i :| 0 <= i < |s.tasks| && s.tasks[i].pos == p;
      assert EndedAs(s, p, i);
    }
  }

  /** In a returned source every entry of an ascending schedule has left exactly one record. */
  lemma RecordedOnce(schedule: seq<Entry>, s: State, p: nat)
    requires Inv(schedule, s) && s.phase == Returned && Ascending(schedule) && p < |schedule|
    ensures OneRecord(schedule, s, p)
  {
    SampleHasTask(schedule, s, p);
    SkipHasEntry(schedule, s, p);
    SampleOrder(schedule, s, |s.tasks|, |s.tasks|);
    assert s.tasks[..|s.tasks|] == s.tasks;
    assert Launched(s, p) <==> p !in s.skipped;
    if i :| 0 <= i < |s.tasks| && s.tasks[i].pos == p {
      assert s.tasks[i].status.Sampled? || s.tasks[i].status == Failed;
    }
  }

  /** The samples of a run have strictly increasing indices and nondecreasing clock readings. */
  lemma {:induction false} SamplesAscend(schedule: seq<Entry>, clock: real, events: seq<Event>)
    requires ValidRun(schedule, Init(clock), events) && Ascending(schedule)
    ensures Ordered(Exec(schedule, Init(clock), events).samples)
  {
    InitInv(schedule, clock);
    RunInv(schedule, Init(clock), events);
    var s := Exec(schedule, Init(clock), events);
    SampleOrder(schedule, s, |s.tasks|, |s.tasks|);
    assert s.tasks[..|s.tasks|] == s.tasks;
  }

  // ---- progress ----

  /** The number of further steps, not counting the passing of time, is bounded by this. */
  function Rank(schedule: seq<Entry>, s: State): int {
    2 * (|schedule| - s.pos) + (if Busy(s) then 1 else 0) + (if s.phase == Looping then 1 else 0)
  }

  function Steps(events: seq<Event>): nat {
    if events == [] then 0 else (if events[0].Elapse? then 0 else 1) + Steps(events[1..])
  }

  lemma {:induction false} RunIsBounded(schedule: seq<Entry>, s: State, events: seq<Event>)
    requires Inv(schedule, s) && ValidRun(schedule, s, events)
    ensures Steps(events) <= Rank(schedule, s) - Rank(schedule, Exec(schedule, s, events))
    decreases |events|
  {
    if events != [] {
      StepInv(schedule, s, events[0]);
      RankStep(schedule, s, events[0]);
      RunIsBounded(schedule, Apply(schedule, s, events[0]), events[1..]);
    }
  }

  lemma RankStep(schedule: seq<Entry>, s: State, e: Event)
    requires Inv(schedule, s) && Enabled(schedule, s, e)
    ensures Rank(schedule, Apply(schedule, s, e)) <= Rank(schedule, s) - if e.Elapse? then 0 else 1
  {
  }

  /** A source that is still looping can always move on, once enough time has passed and its task is done. */
  lemma NeverStuck(schedule: seq<Entry>, s: State) returns (e: Event)
    requires Inv(schedule, s) && s.phase == Looping
    ensures Enabled(schedule, s, e)
    ensures e.Elapse? ==> s.clock < e.clock && Enabled(schedule, s.(clock := e.clock), Deadline)
  {
    if s.pos < |schedule| {
      e := if schedule[s.pos].offset <= s.clock then Deadline else Elapse(schedule[s.pos].offset);
    } else {
      e := if Busy(s) then FinishOk else Drain;
    }
  }

  // ---- where the log comes from ----

  /** The event before which the run stood at the given clock reading. */
  ghost predicate HappenedAt(schedule: seq<Entry>, s: State, events: seq<Event>, e: Event, clock: real)
    requires ValidRun(schedule, s, events)
  {
    exists n :: 0 <= n < |events| && events[n] == e && ValidRun(schedule, s, events[..n])
      && Exec(schedule, s, events[..n]).clock == clock
  }

  lemma {:induction false} HappenedLater(schedule: seq<Entry>, s: State, events: seq<Event>, e: Event, clock: real)
    requires ValidRun(schedule, s, events) && events != []
    requires HappenedAt(schedule, Apply(schedule, s, events[0]), events[1..], e, clock)
    ensures HappenedAt(schedule, s, events, e, clock)
  {
    var next, rest := Apply(schedule, s, events[0]), events[1..];
    var n :| 0 <= n < |rest| && rest[n] == e && ValidRun(schedule, next, rest[..n])
      && Exec(schedule, next, rest[..n]).clock == clock;
    assert events[..n + 1][1..] == rest[..n] && events[n + 1] == e;
    assert ValidRun(schedule, s, events[..n + 1]);
  }

  /** Every sample carries the clock reading at which its task succeeded. */
  lemma {:induction false} SampleAtCompletion(schedule: seq<Entry>, s: State, events: seq<Event>, sample: Sample)
    requires ValidRun(schedule, s, events) && sample in Exec(schedule, s, events).samples
    ensures sample in s.samples || HappenedAt(schedule, s, events, FinishOk, sample.monotonic)
    decreases |events|
  {
    if events != [] {
      var next := Apply(schedule, s, events[0]);
      SampleAtCompletion(schedule, next, events[1..], sample);
      if sample !in next.samples {
        HappenedLater(schedule, s, events, FinishOk, sample.monotonic);
      } else if sample !in s.samples {
        assert events[..0] == [] && events[0] == FinishOk;
      }
    }
  }
}
