/**
 _run_scheduled_source over a log that every source of a collection shares.

 Each method is one atomic section between two awaits.  A source owns its ids
 only: whatever it does, the lists of every other id in the log stay as they are.
 */
module ScheduledSources {
  import opened Prelude
  import opened Scheduler

  /** m and m' have the same keys and agree outside ids. */
  ghost predicate SameOutside<T>(ids: set<string>, m: map<string, T>, m': map<string, T>) {
    m.Keys == m'.Keys && forall id :: id in m && id !in ids ==> m'[id] == m[id]
  }

  lemma OutsideTransitive<T>(ids: set<string>, a: map<string, T>, b: map<string, T>, c: map<string, T>)
    requires SameOutside(ids, a, b) && SameOutside(ids, b, c)
    ensures SameOutside(ids, a, c)
  {
  }

  /** sampler_samples or query_samples, and source_errors. */
  class SourceLog {
    var samples: map<string, seq<Sample>>
    var errors: map<string, seq<Diagnostic>>

    constructor (ids: set<string>)
      ensures samples.Keys == ids && errors.Keys == ids
      ensures forall id :: id in ids ==> samples[id] == [] && errors[id] == []
    {
      samples := map id | id in ids :: [];
      errors := map id | id in ids :: [];
    }
  }

  /** Appends x to the list of every id, one id at a time. */
  method AppendEach<T>(lists: map<string, seq<T>>, ids: set<string>, x: T) returns (longer: map<string, seq<T>>)
    requires ids <= lists.Keys
    ensures SameOutside(ids, lists, longer)
    ensures forall id :: id in ids ==> longer[id] == lists[id] + [x]
  {
    longer := lists;
    var rest := ids;
    while rest != {}
      invariant rest <= ids && longer.Keys == lists.Keys
      invariant forall id :: id in lists ==>
                  longer[id] == if id in ids && id !in rest then lists[id] + [x] else lists[id]
      decreases |rest|
    {
      var id :| id in rest;
      longer := longer[id := longer[id] + [x]];
      rest := rest - {id};
    }
  }

  /** What happens while the loop sleeps: at most one completion, then the wake-up. */
  datatype Sleep = Sleep(done: Option<(real, bool)>, wake: real)

  /** The clock reading when sleep k begins. */
  function ClockBefore(sleeps: seq<Sleep>, start: real, k: nat): real
    requires k <= |sleeps|
  {
    if k == 0 then start else sleeps[k - 1].wake
  }

  /** Sleep k: the clock does not go back, and the wake-up is not before the deadline. */
  predicate SleepFits(schedule: seq<Entry>, sleeps: seq<Sleep>, start: real, k: nat)
    requires k < |sleeps| == |schedule|
  {
    var clock, s := ClockBefore(sleeps, start, k), sleeps[k];
    && clock <= s.wake && schedule[k].offset <= s.wake
    && (s.done.Some? ==> clock <= s.done.value.0 <= s.wake)
  }

  class ScheduledSource {
    const ids: set<string>
    const schedule: seq<Entry>
    const log: SourceLog
    var clock: real
    var pos: nat
    var active: Option<nat>
    var tasks: seq<Task>
    ghost var skipped: seq<nat>
    var phase: Phase

    ghost function View(id: string): State
      reads this, log
      requires id in log.samples && id in log.errors
    {
      State(clock, pos, active, tasks, skipped, log.samples[id], log.errors[id], phase)
    }

    ghost predicate Valid()
      reads this, log
    {
      && ids != {} && ids <= log.samples.Keys && ids <= log.errors.Keys
      && forall id :: id in ids ==> Inv(schedule, View(id))
    }

    constructor (ids: set<string>, schedule: seq<Entry>, log: SourceLog, clock: real)
      requires ids != {} && ids <= log.samples.Keys && ids <= log.errors.Keys
      requires forall id :: id in ids ==> log.samples[id] == [] && log.errors[id] == []
      ensures this.ids == ids && this.schedule == schedule && this.log == log
      ensures Valid() && forall id :: id in ids ==> View(id) == Init(clock)
      ensures pos == 0 && this.clock == clock && phase == Looping && active == None && tasks == []
    {
      this.ids, this.schedule, this.log, this.clock := ids, schedule, log, clock;
      pos, active, tasks, skipped, phase := 0, None, [], [], Looping;
    }

    predicate ActiveRunning()
      reads this
    {
      active.Some? && active.value < |tasks| && tasks[active.value].status == Running
    }

    lemma TaskInSchedule()
      requires Valid() && ActiveRunning()
      ensures tasks[active.value].pos < |schedule|
    {
      var id :| id in ids;
      assert Inv(schedule, View(id));
    }

    /** The lists of all other ids are as they were. */
    twostate predicate OwnIdsOnly()
      reads log
    {
      SameOutside(ids, old(log.samples), log.samples) && SameOutside(ids, old(log.errors), log.errors)
    }

    /** A section that has the effect of an enabled event keeps the invariant. */
    twostate lemma StepValid(e: Event)
      requires old(Valid()) && ids <= log.samples.Keys && ids <= log.errors.Keys
      requires forall id :: id in ids ==> Leads(schedule, old(View(id)), e, View(id))
      ensures Valid()
    {
      forall id | id in ids
        ensures Inv(schedule, View(id))
      {
        StepInv(schedule, old(View(id)), e);
      }
    }

    /** Time passes while the source waits. */
    method Elapse(now: real)
      requires Valid() && phase == Looping && clock <= now
      modifies this`clock
      ensures Valid() && clock == now
      ensures forall id :: id in ids ==> Leads(schedule, old(View(id)), Event.Elapse(now), View(id))
    {
      clock := now;
      forall id | id in ids
        ensures Leads(schedule, old(View(id)), Event.Elapse(now), View(id))
      {
      }
      StepValid(Event.Elapse(now));
    }

    /** Record a diagnostic for every id of the source. */
    method AppendDiagnostic(diagnostic: Diagnostic)
      requires ids <= log.errors.Keys
      modifies log`errors
      ensures SameOutside(ids, old(log.errors), log.errors)
      ensures forall id :: id in ids ==> log.errors[id] == old(log.errors)[id] + [diagnostic]
    {
      log.errors := AppendEach(log.errors, ids, diagnostic);
    }

    /** Record a sample for every id of the source. */
    method AppendSample(sample: Sample)
      requires ids <= log.samples.Keys
      modifies log`samples
      ensures SameOutside(ids, old(log.samples), log.samples)
      ensures forall id :: id in ids ==> log.samples[id] == old(log.samples)[id] + [sample]
    {
      log.samples := AppendEach(log.samples, ids, sample);
    }

    /** At a deadline: record the busy source. */
    method Skip()
      requires Valid() && phase == Looping && pos < |schedule| && schedule[pos].offset <= clock && ActiveRunning()
      modifies this`pos, this`skipped, log
      ensures Valid() && pos == old(pos) + 1
      ensures forall id :: id in ids ==> Leads(schedule, old(View(id)), Deadline, View(id))
      ensures OwnIdsOnly()
    {
      AppendDiagnostic(SkippedBusy(schedule[pos].sampleIndex));
      skipped := skipped + [pos];
      pos := pos + 1;
      forall id | id in ids
        ensures Leads(schedule, old(View(id)), Deadline, View(id))
      {
      }
      StepValid(Deadline);
    }

    /** At a deadline: start the next task. */
    method Launch()
      requires Valid() && phase == Looping && pos < |schedule| && schedule[pos].offset <= clock && !ActiveRunning()
      modifies this`pos, this`active, this`tasks
      ensures Valid() && pos == old(pos) + 1
      ensures forall id :: id in ids ==> Leads(schedule, old(View(id)), Deadline, View(id))
    {
      active := Some(|tasks|);
      tasks := tasks + [Task(pos, clock, Running)];
      pos := pos + 1;
      forall id | id in ids
        ensures Leads(schedule, old(View(id)), Deadline, View(id))
      {
        LaunchLeads(schedule, old(View(id)));
      }
      StepValid(Deadline);
    }

    /** The body of the for loop, after its sleep. */
    method AtDeadline()
      requires Valid() && phase == Looping && pos < |schedule| && schedule[pos].offset <= clock
      modifies this, log
      ensures Valid() && clock == old(clock) && pos == old(pos) + 1 && phase == Looping
      ensures forall id :: id in ids ==> Leads(schedule, old(View(id)), Deadline, View(id))
      ensures OwnIdsOnly()
    {
      if ActiveRunning() {
        Skip();
      } else {
        Launch();
      }
    }

    /** The running task takes its final status. */
    method EndTask(status: Status)
      requires ActiveRunning() && status != Running
      modifies this`tasks
      ensures tasks == old(tasks)[active.value := old(tasks)[active.value].(status := status)]
      ensures !ActiveRunning()
    {
      tasks := tasks[active.value := tasks[active.value].(status := status)];
    }

    /** The running task ends well: collect_once appended its sample. */
    method FinishSample()
      requires Valid() && phase == Looping && ActiveRunning()
      modifies this`tasks, log
      ensures Valid() && !ActiveRunning()
      ensures forall id :: id in ids ==> Leads(schedule, old(View(id)), FinishOk, View(id))
      ensures OwnIdsOnly()
    {
      TaskInSchedule();
      var entry := schedule[tasks[active.value].pos];
      AppendSample(Sample(entry.sampleIndex, entry.offset, clock));
      EndTask(Sampled(clock));
      forall id | id in ids
        ensures Leads(schedule, old(View(id)), FinishOk, View(id))
      {
        FinishLeads(schedule, old(View(id)));
      }
      StepValid(FinishOk);
    }

    /** The running task fails: guarded_collect recorded its error. */
    method FinishFailed()
      requires Valid() && phase == Looping && ActiveRunning()
      modifies this`tasks, log
      ensures Valid() && !ActiveRunning()
      ensures forall id :: id in ids ==> Leads(schedule, old(View(id)), FinishError, View(id))
      ensures OwnIdsOnly()
    {
      TaskInSchedule();
      AppendDiagnostic(Error);
      EndTask(Failed);
      forall id | id in ids
        ensures Leads(schedule, old(View(id)), FinishError, View(id))
      {
        FinishLeads(schedule, old(View(id)));
      }
      StepValid(FinishError);
    }

    /** The running task ends. */
    method Finish(ok: bool)
      requires Valid() && phase == Looping && ActiveRunning()
      modifies this`tasks, log
      ensures Valid() && !ActiveRunning()
      ensures forall id :: id in ids ==>
                Leads(schedule, old(View(id)), if ok then FinishOk else FinishError, View(id))
      ensures OwnIdsOnly()
    {
      if ok {
        FinishSample();
      } else {
        FinishFailed();
      }
    }

    /** The last await is over. */
    method Drain()
      requires Valid() && phase == Looping && pos == |schedule| && !ActiveRunning()
      modifies this`phase
      ensures Valid() && phase == Returned
      ensures forall id :: id in ids ==> Leads(schedule, old(View(id)), Event.Drain, View(id))
    {
      phase := Returned;
      forall id | id in ids
        ensures Leads(schedule, old(View(id)), Event.Drain, View(id))
      {
        DrainLeads(schedule, old(View(id)));
      }
      StepValid(Event.Drain);
    }

    /** The except clause: a running task is cancelled and awaited before the cancellation is passed on. */
    method Cancel()
      requires Valid() && phase == Looping
      modifies this`tasks, this`phase
      ensures Valid() && phase == Cancelled && !ActiveRunning()
      ensures forall id :: id in ids ==> Leads(schedule, old(View(id)), Event.Cancel, View(id))
    {
      if ActiveRunning() {
        tasks := tasks[active.value := tasks[active.value].(status := Stopped)];
      }
      phase := Cancelled;
      forall id | id in ids
        ensures Leads(schedule, old(View(id)), Event.Cancel, View(id))
      {
      }
      StepValid(Event.Cancel);
    }

    /** A completion that arrives while the loop sleeps or drains, if something is running. */
    method Complete(at: real, ok: bool)
      requires Valid() && phase == Looping && clock <= at
      modifies this`clock, this`tasks, log
      ensures Valid() && clock == at && !ActiveRunning()
      ensures OwnIdsOnly()
    {
      Elapse(at);
      if ActiveRunning() {
        Finish(ok);
      }
    }

    /** One turn of the loop: sleep, with what happens meanwhile, then act. */
    method Turn(sleep: Sleep)
      requires Valid() && phase == Looping && pos < |schedule|
      requires clock <= sleep.wake && schedule[pos].offset <= sleep.wake
      requires sleep.done.Some? ==> clock <= sleep.done.value.0 <= sleep.wake
      modifies this, log
      ensures Valid() && phase == Looping && pos == old(pos) + 1 && clock == sleep.wake
      ensures OwnIdsOnly()
    {
      if sleep.done.Some? {
        Complete(sleep.done.value.0, sleep.done.value.1);
      }
      Elapse(sleep.wake);
      AtDeadline();
    }

    /** Turn k of the loop. */
    method TurnAt(sleeps: seq<Sleep>, ghost start: real, k: nat)
      requires Valid() && phase == Looping && k == pos < |sleeps| == |schedule|
      requires clock == ClockBefore(sleeps, start, k) && SleepFits(schedule, sleeps, start, k)
      modifies this, log
      ensures Valid() && phase == Looping && pos == k + 1 && clock == ClockBefore(sleeps, start, k + 1)
      ensures OwnIdsOnly()
    {
      Turn(sleeps[k]);
    }

    /** The for loop, for any timing of the completions and wake-ups. */
    method Loop(sleeps: seq<Sleep>)
      requires Valid() && phase == Looping && pos == 0 && |sleeps| == |schedule|
      requires forall k :: 0 <= k < |sleeps| ==> SleepFits(schedule, sleeps, clock, k)
      modifies this, log
      ensures Valid() && phase == Looping && pos == |schedule|
      ensures clock == ClockBefore(sleeps, old(clock), |sleeps|)
      ensures OwnIdsOnly()
    {
      for k := 0 to |sleeps|
        invariant Valid() && phase == Looping && pos == k && OwnIdsOnly()
        invariant clock == ClockBefore(sleeps, old(clock), k)
      {
        ghost var samples, errors := log.samples, log.errors;
        TurnAt(sleeps, old(clock), k);
        OutsideTransitive(ids, old(log.samples), samples, log.samples);
        OutsideTransitive(ids, old(log.errors), errors, log.errors);
      }
    }

    /** What follows the loop: await the last task, then return. */
    method Settle(at: real, ok: bool)
      requires Valid() && phase == Looping && pos == |schedule| && clock <= at
      modifies this, log
      ensures Valid() && phase == Returned && pos == |schedule| && !ActiveRunning()
      ensures OwnIdsOnly()
    {
      if ActiveRunning() {
        Complete(at, ok);
      }
      Drain();
    }

    /** _run_scheduled_source without cancellation; afterwards the log accounts for every entry. */
    method Run(sleeps: seq<Sleep>, at: real, ok: bool)
      requires Valid() && phase == Looping && pos == 0 && |sleeps| == |schedule|
      requires forall k :: 0 <= k < |sleeps| ==> SleepFits(schedule, sleeps, clock, k)
      requires ClockBefore(sleeps, clock, |sleeps|) <= at
      modifies this, log
      ensures Valid() && phase == Returned && !ActiveRunning()
      ensures forall id :: id in ids ==> |log.samples[id]| + |log.errors[id]| == |schedule|
      ensures Ascending(schedule) ==>
                forall id, p: nat :: id in ids && p < |schedule| ==> OneRecord(schedule, View(id), p)
      ensures OwnIdsOnly()
    {
      Loop(sleeps);
      Settle(at, ok);
      Tally();
    }

    lemma Tally()
      requires Valid() && phase == Returned
      ensures forall id :: id in ids ==> |log.samples[id]| + |log.errors[id]| == |schedule|
      ensures Ascending(schedule) ==>
                forall id, p: nat :: id in ids && p < |schedule| ==> OneRecord(schedule, View(id), p)
    {
      forall id | id in ids
        ensures |log.samples[id]| + |log.errors[id]| == |schedule|
      {
        ReturnedAccounts(schedule, View(id));
      }
      if Ascending(schedule) {
        forall id, p: nat | id in ids && p < |schedule|
          ensures OneRecord(schedule, View(id), p)
        {
          RecordedOnce(schedule, View(id), p);
        }
      }
    }

    /** The source can take this step now. */
    predicate CanTake(e: Event)
      reads this
    {
      phase == Looping &&
      match e
      case Elapse(now) => clock <= now
      case Deadline => pos < |schedule| && schedule[pos].offset <= clock
      case FinishOk => ActiveRunning()
      case FinishError => ActiveRunning()
      case Drain => pos == |schedule| && !ActiveRunning()
      case Cancel => true
    }

    /** Any step of the source, as one event of the state machine. */
    method Take(e: Event)
      requires Valid() && CanTake(e)
      modifies this, log
      ensures Valid() && OwnIdsOnly()
      ensures forall id :: id in ids ==> Leads(schedule, old(View(id)), e, View(id))
    {
      match e
      case Elapse(now) => Elapse(now);
      case Deadline => AtDeadline();
      case FinishOk => Finish(true);
      case FinishError => Finish(false);
      case Drain => Drain();
      case Cancel => Cancel();
    }
  }

  /** Whatever step a source takes, every other source of the same log stays where it was. */
  method StepBeside(source: ScheduledSource, other: ScheduledSource, e: Event)
    requires source != other && source.log == other.log && source.ids !! other.ids
    requires source.Valid() && other.Valid() && source.CanTake(e)
    modifies source, source.log
    ensures source.Valid() && other.Valid()
    ensures forall id :: id in source.ids ==> Leads(source.schedule, old(source.View(id)), e, source.View(id))
    ensures forall id :: id in other.ids ==> other.View(id) == old(other.View(id))
  {
    source.Take(e);
    forall id | id in other.ids
      ensures other.View(id) == old(other.View(id))
    {
    }
  }

  /** The other source may even run from beginning to end. */
  method RunBeside(source: ScheduledSource, other: ScheduledSource, sleeps: seq<Sleep>, at: real, ok: bool)
    requires source != other && source.log == other.log && source.ids !! other.ids
    requires source.Valid() && other.Valid()
    requires source.phase == Looping && source.pos == 0 && |sleeps| == |source.schedule|
    requires forall k :: 0 <= k < |sleeps| ==> SleepFits(source.schedule, sleeps, source.clock, k)
    requires ClockBefore(sleeps, source.clock, |sleeps|) <= at
    modifies source, source.log
    ensures source.Valid() && source.phase == Returned && other.Valid()
    ensures forall id :: id in other.ids ==> other.View(id) == old(other.View(id))
  {
    source.Run(sleeps, at, ok);
    forall id | id in other.ids
      ensures other.View(id) == old(other.View(id))
    {
    }
  }
}
