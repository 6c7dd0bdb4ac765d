/**
 Whether a slow or failed query source can shift the samples of another one.

 The documentation says that it cannot.  It can, through each of the three things
 the query sources share; the theorems say exactly when, from what is known
 before the window: the schedules, the workers and the reconnect attempts.
 */
module QueryPromise {
  import opened Prelude
  import opened Scheduler
  import opened QueryPool
  import opened QueryPoolRuns

  // ---- who holds up whom ----

  /** The task of source i waits for something that source j has: a permit, the lock or a thread. */
  predicate HeldUp(p: Pool, i: nat, j: nat) {
    && i < |p.members| && j < |p.members| && i != j
    && match p.members[i].stage
       case AwaitsPermit => HoldsPermit(p.members[j].stage)
       case AwaitsLock(_) => HoldsLock(p.members[j].stage)
       case Queued(_, _) => ThreadsOf(p.members[j]) > 0
       case _ => false
  }

  /** The last step skips an entry of source i, whose task is held up by source j. */
  ghost predicate Shifted(c: Config, steps: seq<Step>, i: nat, j: nat) {
    && steps != [] && IsRun(c, steps) && i < |c.schedules| && steps[|steps| - 1] == Act(i, Deadline)
    && var before := After(c, steps[..|steps| - 1]);
       Busy(before.members[i].source) && HeldUp(before, i, j)
  }

  ghost predicate NobodyAwaitsPermit(c: Config) {
    forall steps :: IsRun(c, steps) ==> !SomeoneAwaitsPermit(After(c, steps))
  }

  ghost predicate NobodyAwaitsLock(c: Config) {
    forall steps :: IsRun(c, steps) ==> !SomeoneAwaitsLock(After(c, steps))
  }

  ghost predicate NothingIsQueued(c: Config) {
    forall steps :: IsRun(c, steps) ==> !SomethingQueued(After(c, steps))
  }

  ghost predicate NobodyIsHeldUp(c: Config) {
    forall steps, i: nat, j: nat :: IsRun(c, steps) ==> !HeldUp(After(c, steps), i, j)
  }

  ghost predicate NobodyIsShifted(c: Config) {
    forall steps, i: nat, j: nat :: !Shifted(c, steps, i, j)
  }

  function AllEntries(c: Config): nat {
    Entries(c.schedules, |c.schedules|)
  }

  /** Some source is due more than once. */
  predicate Repeats(c: Config) {
    exists v :: 0 <= v < |c.schedules| && |c.schedules[v]| >= 2
  }

  // ---- how many tasks there can be ----

  /** No more tasks are launched than there are entries, and a source with entries left has not used them all. */
  lemma {:induction false} LaunchedBelowEntries(c: Config, p: Pool, k: nat, n: nat)
    requires Sized(c, p) && n <= |c.schedules| && k < |c.schedules|
    requires forall i :: 0 <= i < n ==> LaunchedBy(p.members[i]) <= |c.schedules[i]|
    ensures Total(p.members, LaunchedBy, n) + (if k < n then |c.schedules[k]| - LaunchedBy(p.members[k]) else 0)
         <= Entries(c.schedules, n)
  {
    if n > 0 {
      LaunchedBelowEntries(c, p, k, n - 1);
    }
  }

  lemma LaunchedAtMost(c: Config, p: Pool, k: nat)
    requires SourcesFit(c, p) && k < |c.schedules|
    ensures TasksLaunched(p) + |c.schedules[k]| - p.members[k].source.pos <= AllEntries(c)
  {
    forall i | 0 <= i < |p.members|
      ensures LaunchedBy(p.members[i]) <= p.members[i].source.pos <= |c.schedules[i]|
    {
      assert Inv(c.schedules[i], p.members[i].source);
    }
    LaunchedBelowEntries(c, p, k, |c.schedules|);
  }

  lemma {:induction false} EntriesBound(schedules: seq<seq<Entry>>, v: nat, n: nat)
    requires n <= |schedules| && v < |schedules| && forall i :: 0 <= i < n ==> schedules[i] != []
    ensures n + (if v < n then |schedules[v]| - 1 else 0) <= Entries(schedules, n)
  {
    if n > 0 {
      EntriesBound(schedules, v, n - 1);
    }
  }

  // ---- the three waits ----

  /** No task ever waits for a permit exactly when there are at most as many query sources as workers. */
  lemma PermitWaitExactly(c: Config)
    requires Proper(c)
    ensures NobodyAwaitsPermit(c) <==> |c.schedules| <= Workers(c)
  {
    if |c.schedules| <= Workers(c) {
      forall steps | IsRun(c, steps)
        ensures !SomeoneAwaitsPermit(After(c, steps))
      {
        RunFits(c, steps);
      }
    } else {
      var steps, t := PermitRun(c);
      assert SomeoneAwaitsPermit(After(c, steps));
    }
  }

  /**
   No query ever waits for a thread exactly when the entries of all sources and
   the threads left over are at most as many as the workers, whatever the
   reconnect attempts are.
   */
  lemma ThreadWaitExactly(c: Config)
    requires Proper(c)
    ensures NothingIsQueued(c) <==> c.leftover + AllEntries(c) <= Workers(c)
  {
    if c.leftover + AllEntries(c) <= Workers(c) {
      forall steps | IsRun(c, steps)
        ensures !SomethingQueued(After(c, steps))
      {
        RunFits(c, steps);
        if |c.schedules| > 0 {
          LaunchedAtMost(c, After(c, steps), 0);
          assert Inv(c.schedules[0], After(c, steps).members[0].source);
        }
      }
    } else {
      var o := if |c.schedules| > 1 then 1 else 0;
      var steps, t := QueueRun(c, 0, o, 1, c.leftover);
      assert InQueue(After(c, steps).members[0]);
    }
  }

  /** No task ever waits for the identity lock exactly when nothing is repeated or only one query runs at a time. */
  lemma LockWaitExactly(c: Config)
    requires Proper(c)
    ensures NobodyAwaitsLock(c) <==> c.attempts == 0 || |c.schedules| <= 1 || Workers(c) <= 1
  {
    if c.attempts == 0 || |c.schedules| <= 1 || Workers(c) <= 1 {
      forall steps | IsRun(c, steps)
        ensures !SomeoneAwaitsLock(After(c, steps))
      {
        RunFits(c, steps);
      }
    } else {
      var steps, t := LockRun(c, 1, 0);
      assert SomeoneAwaitsLock(After(c, steps));
    }
  }

  // ---- the promise ----

  /** Whoever waits where nothing is free is held up by another source; for threads, or by an earlier query. */
  lemma {:induction false} WaitersAreHeldUp(c: Config, steps: seq<Step>, i: nat)
    requires Proper(c) && IsRun(c, steps) && i < |c.schedules|
    ensures var p := After(c, steps);
            && (p.members[i].stage.AwaitsPermit? && Permits(p) == Workers(c) ==> exists j :: HeldUp(p, i, j))
            && (p.members[i].stage.AwaitsLock? && Locks(p) > 0 ==> exists j :: HeldUp(p, i, j))
            && (p.members[i].stage.Queued? && Threads(p) == Workers(c) ==>
                  (exists j :: HeldUp(p, i, j)) || p.members[i].abandoned + p.leftover == Workers(c))
  {
    var p := After(c, steps);
    if p.members[i].stage.AwaitsPermit? && Permits(p) == Workers(c) {
      var j := TotalPositive(p.members, PermitsOf, |p.members|);
      assert HeldUp(p, i, j);
    }
    if p.members[i].stage.AwaitsLock? && Locks(p) > 0 {
      var j := TotalPositive(p.members, LocksOf, |p.members|);
      assert HeldUp(p, i, j);
    }
    if p.members[i].stage.Queued? && Threads(p) == Workers(c) {
      if j :| 0 <= j < |p.members| && j != i && ThreadsOf(p.members[j]) > 0 {
        assert HeldUp(p, i, j);
      } else {
        TotalOne(p.members, ThreadsOf, i, |p.members|);
      }
    }
  }

  lemma {:induction false} HeldUpNeeds(c: Config, steps: seq<Step>, i: nat, j: nat)
    requires Proper(c) && IsRun(c, steps) && HeldUp(After(c, steps), i, j)
    ensures |c.schedules| > 1
    ensures var left := |c.schedules[i]| - After(c, steps).members[i].source.pos;
            Workers(c) + left < c.leftover + AllEntries(c) || c.attempts > 0
  {
    RunFits(c, steps);
    var p := After(c, steps);
    assert Inv(c.schedules[i], p.members[i].source) && MemberFits(c, p.members[i]);
    if p.members[i].stage.AwaitsPermit? {
      assert SomeoneAwaitsPermit(p);
      EntriesBound(c.schedules, i, |c.schedules|);
    } else if p.members[i].stage.Queued? {
      assert InQueue(p.members[i]);
      LaunchedAtMost(c, p, i);
    } else {
      assert SomeoneAwaitsLock(p);
    }
  }

  /** A run in which source v is held up by source o with r - 1 entries to go. */
  lemma HoldUp(c: Config, v: nat, o: nat, r: nat) returns (steps: seq<Step>, t: real)
    requires Proper(c) && v < |c.schedules| && o < |c.schedules| && v != o && 1 <= r <= |c.schedules[v]|
    requires Workers(c) + r <= c.leftover + AllEntries(c) || c.attempts > 0
    ensures IsRun(c, steps) && AllAt(After(c, steps), t) && HeldUp(After(c, steps), v, o)
    ensures var s := After(c, steps).members[v].source; Busy(s) && s.pos + r - 1 <= |c.schedules[v]|
  {
    EntriesBound(c.schedules, v, |c.schedules|);
    if Workers(c) + r <= c.leftover + AllEntries(c) {
      steps, t := QueueRun(c, v, o, r, if c.leftover < Workers(c) then c.leftover else Workers(c) - 1);
    } else {
      steps, t := LockRun(c, v, o);
    }
  }

  /**
   In no run does a task wait for anything that another source holds, exactly when
   there is only one query source, or nothing is repeated after a disconnect and
   there is a worker for each entry of all sources beside those left over.
   */
  lemma NobodyIsHeldUpExactly(c: Config)
    requires Proper(c)
    ensures NobodyIsHeldUp(c) <==>
            |c.schedules| <= 1 || (c.attempts == 0 && c.leftover + AllEntries(c) <= Workers(c))
  {
    if |c.schedules| <= 1 || (c.attempts == 0 && c.leftover + AllEntries(c) <= Workers(c)) {
      forall steps, i: nat, j: nat | IsRun(c, steps)
        ensures !HeldUp(After(c, steps), i, j)
      {
        if HeldUp(After(c, steps), i, j) {
          RunFits(c, steps);
          assert Inv(c.schedules[i], After(c, steps).members[i].source);
          HeldUpNeeds(c, steps, i, j);
        }
      }
    } else {
      var steps, t := HoldUp(c, 0, 1, 1);
    }
  }

  lemma ShiftedNeeds(c: Config, steps: seq<Step>, i: nat, j: nat)
    requires Proper(c) && Shifted(c, steps, i, j)
    ensures |c.schedules| > 1 && |c.schedules[i]| >= 2
    ensures Workers(c) + 1 < c.leftover + AllEntries(c) || c.attempts > 0
  {
    var init := steps[..|steps| - 1];
    RunFits(c, init);
    assert Inv(c.schedules[i], After(c, init).members[i].source);
    HeldUpNeeds(c, init, i, j);
  }

  /** A source that is held up with an entry to go loses that entry if nothing else happens. */
  lemma SkipNext(c: Config, steps: seq<Step>, t: real, v: nat, o: nat) returns (more: seq<Step>)
    requires IsRun(c, steps) && AllAt(After(c, steps), t) && HeldUp(After(c, steps), v, o)
    requires var s := After(c, steps).members[v].source; Busy(s) && s.pos < |c.schedules[v]|
    ensures Shifted(c, more, v, o)
    ensures var p, q := After(c, steps), After(c, more);
            && q.members[v].stage == p.members[v].stage
            && q.members[v].source.skipped == p.members[v].source.skipped + [p.members[v].source.pos]
            && (forall i :: 0 <= i < |p.members| && i != v ==> Like(p.members[i], q.members[i]))
  {
    var late := ReachDeadline(c, steps, t, v);
    var p, q := After(c, steps), After(c, late);
    assert Like(p.members[v], q.members[v]) && Like(p.members[o], q.members[o]);
    OneMore(c, late, Act(v, Deadline));
    more := late + [Act(v, Deadline)];
    assert more[..|late|] == late;
  }

  /** What a shift leaves behind: the entry is recorded as skipped, and the task still waits for its own query. */
  lemma {:induction false} ShiftIsRecorded(c: Config, steps: seq<Step>, i: nat, j: nat)
    requires Shifted(c, steps, i, j)
    ensures var before, m := After(c, steps[..|steps| - 1]).members[i], After(c, steps).members[i];
            && before.source.pos < |c.schedules[i]|
            && m.source.skipped == before.source.skipped + [before.source.pos]
            && m.source.diagnostics
                 == before.source.diagnostics + [SkippedBusy(c.schedules[i][before.source.pos].sampleIndex)]
            && m.source.tasks == before.source.tasks && m.source.samples == before.source.samples
            && !m.stage.Runs?
  {
  }

  /**
   The documented promise: no run skips an entry of a source while another source
   holds up its task.  It holds exactly when there is only one query source, or
   no source is due twice, or nothing is repeated after a disconnect and at most
   one entry of all sources goes without a worker of its own.
   */
  lemma PromiseHoldsExactly(c: Config)
    requires Proper(c)
    ensures NobodyIsShifted(c) <==>
            |c.schedules| <= 1 || !Repeats(c) || (c.attempts == 0 && c.leftover + AllEntries(c) <= Workers(c) + 1)
  {
    if |c.schedules| <= 1 || !Repeats(c) || (c.attempts == 0 && c.leftover + AllEntries(c) <= Workers(c) + 1) {
      forall steps, i: nat, j: nat
        ensures !Shifted(c, steps, i, j)
      {
        if Shifted(c, steps, i, j) {
          ShiftedNeeds(c, steps, i, j);
        }
      }
    } else {
      var v :| 0 <= v < |c.schedules| && |c.schedules[v]| >= 2;
      var o := if v == 0 then 1 else 0;
      var steps, t := HoldUp(c, v, o, 2);
      var more := SkipNext(c, steps, t, v, o);
    }
  }

  // ---- inputs for which it fails ----

  const TWO_DEADLINES := [Entry(0, 0.0), Entry(1, 1.0)]

  function TwoSources(databaseWorkers: int, attempts: nat): (c: Config)
    ensures Proper(c) && |c.schedules| == 2
  {
    Config([TWO_DEADLINES, TWO_DEADLINES], databaseWorkers, attempts, 0, 0.0)
  }

  /** The second source is held up by the first when its second entry is due. */
  lemma LosesSecond(c: Config, waiting: seq<Step>, t: real) returns (steps: seq<Step>)
    requires |c.schedules| == 2 && c.schedules[1] == TWO_DEADLINES
    requires IsRun(c, waiting) && AllAt(After(c, waiting), t) && HeldUp(After(c, waiting), 1, 0)
    requires var s := After(c, waiting).members[1].source; Busy(s) && s.pos == 1 && s.skipped == []
    ensures Shifted(c, steps, 1, 0)
    ensures var p, q := After(c, waiting), After(c, steps);
            && q.members[0].stage == p.members[0].stage && q.members[0].abandoned == p.members[0].abandoned
            && q.members[1].stage == p.members[1].stage
            && q.members[1].source.skipped == [1] && SkippedBusy(1) in q.members[1].source.diagnostics
  {
    steps := SkipNext(c, waiting, t, 1, 0);
    ShiftIsRecorded(c, steps, 1, 0);
    var p, q := After(c, waiting), After(c, steps);
    assert Like(p.members[0], q.members[0]);
    var before := After(c, steps[..|steps| - 1]).members[1].source;
    assert before.skipped + [before.pos] == [] + [1];
    assert q.members[1].source.skipped[|before.skipped|] == before.pos;
    var diagnostics := q.members[1].source.diagnostics;
    assert diagnostics[|before.diagnostics|] == SkippedBusy(1);
  }

  /** One worker: the second source waits for the permit of the first and loses its next entry. */
  lemma SlowQueryShifts() returns (steps: seq<Step>)
    ensures var c := TwoSources(1, 0); Shifted(c, steps, 1, 0)
    ensures var p := After(TwoSources(1, 0), steps);
            && HoldsPermit(p.members[0].stage) && p.members[1].stage == AwaitsPermit
            && p.members[1].source.skipped == [1] && SkippedBusy(1) in p.members[1].source.diagnostics
  {
    var waiting, t := PermitRun(TwoSources(1, 0));
    steps := LosesSecond(TwoSources(1, 0), waiting, t);
  }

  /** Two workers and one reconnect attempt: the second source waits for the identity check of the first. */
  lemma SlowIdentityCheckShifts() returns (steps: seq<Step>)
    ensures var c := TwoSources(2, 1); Shifted(c, steps, 1, 0) && |c.schedules| <= Workers(c)
    ensures var p := After(TwoSources(2, 1), steps);
            && p.members[0].stage == Runs(FirstContext, 0) && p.members[1].stage == AwaitsLock(1)
            && p.members[1].source.skipped == [1] && SkippedBusy(1) in p.members[1].source.diagnostics
  {
    var waiting, t := LockRun(TwoSources(2, 1), 1, 0);
    steps := LosesSecond(TwoSources(2, 1), waiting, t);
  }

  lemma ThreadsOfTwo(p: Pool)
    requires |p.members| == 2
    ensures Threads(p) == p.leftover + ThreadsOf(p.members[0]) + ThreadsOf(p.members[1])
  {
    assert Total(p.members, ThreadsOf, 1) == ThreadsOf(p.members[0]);
  }

  /** Two workers and no reconnect: two queries of the first source timed out and keep both threads. */
  lemma StuckWorkersShift() returns (steps: seq<Step>)
    ensures var c := TwoSources(2, 0); Shifted(c, steps, 1, 0) && |c.schedules| <= Workers(c)
    ensures var p := After(TwoSources(2, 0), steps);
            && p.members[0].stage == NoTask && p.members[0].abandoned == 2
            && p.members[1].stage == Queued(OwnQuery, 0) && HoldsPermit(p.members[1].stage)
            && p.members[1].source.skipped == [1] && SkippedBusy(1) in p.members[1].source.diagnostics
  {
    var c := TwoSources(2, 0);
    assert Entries(c.schedules, 1) == 2 && Entries(c.schedules, 2) == 4;
    var waiting, t := QueueRun(c, 1, 0, 2, 0);
    ThreadsOfTwo(After(c, waiting));
    steps := LosesSecond(c, waiting, t);
  }
}
