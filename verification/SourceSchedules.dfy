/** Which schedule each metric source runs on, and what the scheduler makes of it. */
module SourceSchedules {
  import opened Scheduler
  import opened Schedule

  datatype CollectionScope = EverySnapshot | WindowEnd | Once

  /** list(enumerate(offsets)) */
  function Enumerated(offsets: seq<real>): (schedule: seq<Entry>)
    ensures |schedule| == |offsets|
    ensures forall i :: 0 <= i < |offsets| ==> schedule[i] == Entry(i, offsets[i])
  {
    seq(|offsets|, i requires 0 <= i < |offsets| => Entry(i, offsets[i]))
  }

  /** The schedule of a query source. */
  function ScheduleFor(scope: CollectionScope, schedule: seq<Entry>): seq<Entry>
    requires schedule != []
  {
    match scope
    case WindowEnd => [schedule[|schedule| - 1]]
    case Once => [schedule[0]]
    case EverySnapshot => schedule
  }

  /** Every source runs on a schedule in ascending order, within the window. */
  lemma SourceScheduleAscends(scope: CollectionScope, offsets: seq<real>, duration: real, interval: real)
    requires interval > 0.0 && IsSchedule(offsets, duration, interval)
    ensures Ascending(ScheduleFor(scope, Enumerated(offsets)))
    ensures forall i :: 0 <= i < |ScheduleFor(scope, Enumerated(offsets))| ==>
              0.0 <= ScheduleFor(scope, Enumerated(offsets))[i].offset <= duration
  {
    ScheduleAscends(offsets, duration, interval);
    var schedule := ScheduleFor(scope, Enumerated(offsets));
    forall i | 0 <= i < |schedule|
      ensures 0.0 <= schedule[i].offset <= duration
    {
      var k := schedule[i].sampleIndex;
      assert schedule[i].offset == offsets[k];
      assert k > 0 ==> offsets[0] < offsets[k];
      assert k < |offsets| - 1 ==> offsets[k] < offsets[|offsets| - 1];
    }
  }

  lemma {:induction false} OneSample(schedule: seq<Entry>, tasks: seq<Task>)
    requires |tasks| == 1 && tasks[0].pos == 0 && |schedule| == 1
    ensures forall k :: 0 <= k < |SamplesOf(schedule, tasks)| ==>
              SamplesOf(schedule, tasks)[k].offset == schedule[0].offset
  {
    assert tasks[..0] == [];
  }

  lemma OneEntry(schedule: seq<Entry>, s: State)
    requires |schedule| == 1 && Inv(schedule, s) && s.phase == Returned
    ensures s.skipped == [] && |s.tasks| == 1 && s.tasks[0].at >= schedule[0].offset
    ensures |s.samples| + ErrorCount(s.diagnostics) == 1
    ensures forall k :: 0 <= k < |s.samples| ==> s.samples[k].offset == schedule[0].offset
  {
    assert s.pos == 1 && s.tasks[0].pos == 0 && |s.tasks| == 1;
    OneSample(schedule, s.tasks);
    ReturnedAccounts(schedule, s);
    SamplesCount(schedule, s.tasks);
  }

  /**
   A window_end source runs once, at the exact end of the window and not
   before it, and a run that returns ends as one sample or one error.
   */
  lemma {:induction false} WindowEndRunsOnce(
      offsets: seq<real>, duration: real, interval: real, clock: real, events: seq<Event>)
    requires interval > 0.0 && IsSchedule(offsets, duration, interval)
    requires ValidRun(ScheduleFor(WindowEnd, Enumerated(offsets)), Init(clock), events)
    requires Exec(ScheduleFor(WindowEnd, Enumerated(offsets)), Init(clock), events).phase == Returned
    ensures var s := Exec(ScheduleFor(WindowEnd, Enumerated(offsets)), Init(clock), events);
            && s.skipped == [] && |s.tasks| == 1 && s.tasks[0].at >= duration
            && |s.samples| + ErrorCount(s.diagnostics) == 1
            && (forall k :: 0 <= k < |s.samples| ==> s.samples[k].offset == duration)
  {
    var schedule := ScheduleFor(WindowEnd, Enumerated(offsets));
    InitInv(schedule, clock);
    RunInv(schedule, Init(clock), events);
    OneEntry(schedule, Exec(schedule, Init(clock), events));
  }

  /** An every_snapshot source is due at 0, at each whole interval below the duration, and at the duration. */
  lemma SnapshotSchedule(offsets: seq<real>, duration: real, interval: real, k: nat)
    requires interval > 0.0 && IsSchedule(offsets, duration, interval) && k < |offsets|
    ensures |ScheduleFor(EverySnapshot, Enumerated(offsets))| == |offsets|
    ensures ScheduleFor(EverySnapshot, Enumerated(offsets))[k]
         == Entry(k, if k == |offsets| - 1 then duration else k as real * interval)
  {
  }

  /** A once source runs once, not before the start of the window, and leaves one sample of index 0 or one error. */
  lemma {:induction false} OnceRunsOnce(
      offsets: seq<real>, duration: real, interval: real, clock: real, events: seq<Event>)
    requires interval > 0.0 && IsSchedule(offsets, duration, interval)
    requires ValidRun(ScheduleFor(Once, Enumerated(offsets)), Init(clock), events)
    requires Exec(ScheduleFor(Once, Enumerated(offsets)), Init(clock), events).phase == Returned
    ensures ScheduleFor(Once, Enumerated(offsets)) == [Entry(0, 0.0)]
    ensures var s := Exec(ScheduleFor(Once, Enumerated(offsets)), Init(clock), events);
            && s.skipped == [] && |s.tasks| == 1 && s.tasks[0].at >= 0.0
            && |s.samples| + ErrorCount(s.diagnostics) == 1
            && (forall k :: 0 <= k < |s.samples| ==> s.samples[k].offset == 0.0)
  {
    var schedule := ScheduleFor(Once, Enumerated(offsets));
    InitInv(schedule, clock);
    RunInv(schedule, Init(clock), events);
    OneEntry(schedule, Exec(schedule, Init(clock), events));
  }
}
