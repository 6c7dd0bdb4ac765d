/**
 The query sources of one collection and what they share: the permits of the
 semaphore, the worker threads of the adapter and its identity lock.

 Every query source is a scheduled source of its own.  A task it launches asks
 for a permit and hands its query to the executor; after a disconnect it pauses,
 takes the identity lock for two context queries and repeats its query.  A task
 that ends may leave its worker thread busy, because a thread cannot be stopped.
 */
module QueryPool {
  import opened Prelude
  import opened Scheduler

  /** `leftover` worker threads are still busy with queries from before the window. */
  datatype Config = Config(
    schedules: seq<seq<Entry>>,
    databaseWorkers: int,
    attempts: nat,
    leftover: nat,
    clock: real)

  /** What a task has handed to the executor. */
  datatype Job = OwnQuery | FirstContext | SecondContext

  /** How far the running task of a source has come; `left` attempts to reconnect remain. */
  datatype Stage =
    | NoTask
    | Created                       // the task exists but has not reached the semaphore
    | AwaitsPermit                  // no permit was to be had
    | Queued(job: Job, left: nat)   // in the queue of the executor, no thread has taken it
    | Runs(job: Job, left: nat)     // on a worker thread
    | Pauses(left: nat)             // disconnected, before the next attempt
    | AwaitsLock(left: nat)         // another task checks the identity

  /** A source, the stage of its task and the work its ended tasks left with the executor. */
  datatype Member = Member(source: State, stage: Stage, abandoned: nat, orphans: nat)

  datatype Pool = Pool(members: seq<Member>, leftover: nat)

  datatype Step =
    | Tick(clock: real)                // time passes for every source
    | EndLeftover                      // a thread from before the window is done
    | Act(source: nat, event: Event)   // a deadline, an end, the last await or a cancellation
    | TimeOut(source: nat)             // the task ends with an error, its thread works on
    | Ask(source: nat)                 // async with sql_semaphore
    | Grant(source: nat)               // a permit that was given back wakes a waiting task
    | Begin(source: nat)               // a thread takes the task's query from the queue
    | Disconnect(source: nat)          // the query fails with a disconnect and may be repeated
    | Reverify(source: nat)            // async with self._identity_lock
    | GrantLock(source: nat)           // the lock was given back and wakes a waiting task
    | Proceed(source: nat)             // a context query is done, the next query follows
    | BeginOrphan(source: nat)         // a thread takes a query whose task was cancelled
    | EndAbandoned(source: nat)        // a thread whose task has ended is done

  /** The permits of the semaphore and the threads of the executor; the adapter refuses fewer than one. */
  function Workers(c: Config): (workers: nat)
    ensures workers >= 1 && workers >= c.databaseWorkers
  {
    if c.databaseWorkers < 1 then 1 else c.databaseWorkers
  }

  /** The schedules of the sources have entries, and no more threads are busy at the start than there are. */
  predicate Proper(c: Config) {
    && (forall i :: 0 <= i < |c.schedules| ==> c.schedules[i] != [])
    && c.leftover <= Workers(c)
  }

  function Start(c: Config): Pool {
    Pool(seq(|c.schedules|, _ => Member(Init(c.clock), NoTask, 0, 0)), c.leftover)
  }

  // ---- what is taken ----

  predicate HoldsPermit(s: Stage) {
    s.Queued? || s.Runs? || s.Pauses? || s.AwaitsLock?
  }

  predicate HoldsLock(s: Stage) {
    (s.Queued? || s.Runs?) && s.job != OwnQuery
  }

  function Total(members: seq<Member>, f: Member -> nat, n: nat): nat
    requires n <= |members|
  {
    if n == 0 then 0 else Total(members, f, n - 1) + f(members[n - 1])
  }

  function PermitsOf(m: Member): nat { if HoldsPermit(m.stage) then 1 else 0 }

  function LocksOf(m: Member): nat { if HoldsLock(m.stage) then 1 else 0 }

  function ThreadsOf(m: Member): nat { m.abandoned + if m.stage.Runs? then 1 else 0 }

  function LaunchedBy(m: Member): nat { |m.source.tasks| }

  function Permits(p: Pool): nat { Total(p.members, PermitsOf, |p.members|) }

  function Locks(p: Pool): nat { Total(p.members, LocksOf, |p.members|) }

  function Threads(p: Pool): nat { p.leftover + Total(p.members, ThreadsOf, |p.members|) }

  function TasksLaunched(p: Pool): nat { Total(p.members, LaunchedBy, |p.members|) }

  predicate SomeoneAwaitsPermit(p: Pool) {
    exists i :: 0 <= i < |p.members| && p.members[i].stage.AwaitsPermit?
  }

  predicate SomeoneAwaitsLock(p: Pool) {
    exists i :: 0 <= i < |p.members| && p.members[i].stage.AwaitsLock?
  }

  predicate InQueue(m: Member) {
    m.stage.Queued? || m.orphans > 0
  }

  predicate SomethingQueued(p: Pool) {
    exists i :: 0 <= i < |p.members| && InQueue(p.members[i])
  }

  // ---- the steps ----

  predicate CanTick(s: State, clock: real) {
    s.phase == Looping ==> s.clock <= clock
  }

  function Ticked(m: Member, clock: real): Member {
    if m.source.phase == Looping then m.(source := m.source.(clock := clock)) else m
  }

  /** A query ends well only on a thread; it fails there, or times out in the queue. */
  predicate CanAct(schedule: seq<Entry>, m: Member, e: Event) {
    && !e.Elapse? && Enabled(schedule, m.source, e)
    && (e == FinishOk ==> m.stage.Runs? && m.stage.job == OwnQuery)
    && (e == FinishError ==> m.stage.Runs? || m.stage.Queued?)
  }

  function Acted(schedule: seq<Entry>, m: Member, e: Event): Member
    requires CanAct(schedule, m, e)
  {
    var source := Apply(schedule, m.source, e);
    match e
    case Deadline => m.(source := source, stage := if Busy(m.source) then m.stage else Created)
    case Cancel =>
      Member(source, NoTask,
             m.abandoned + (if m.stage.Runs? then 1 else 0),
             m.orphans + (if m.stage.Queued? then 1 else 0))
    case Drain => m.(source := source)
    case _ => m.(source := source, stage := NoTask)
  }

  /** Whether a thread is free once the thread of member i itself is given back. */
  predicate ThreadFreeFor(c: Config, p: Pool, i: nat)
    requires i < |p.members|
  {
    Threads(p) - (if p.members[i].stage.Runs? then 1 else 0) < Workers(c)
  }

  /** Where a query of member i is after it was handed to the executor. */
  function Placed(c: Config, p: Pool, i: nat, job: Job, left: nat): Stage
    requires i < |p.members|
  {
    if ThreadFreeFor(c, p, i) && !SomethingQueued(p) then Runs(job, left) else Queued(job, left)
  }

  predicate Sized(c: Config, p: Pool) {
    |p.members| == |c.schedules|
  }

  predicate Allowed(c: Config, p: Pool, step: Step)
    requires Sized(c, p)
  {
    match step
    case Tick(clock) => forall i :: 0 <= i < |p.members| ==> CanTick(p.members[i].source, clock)
    case EndLeftover => p.leftover > 0
    case _ => step.source < |p.members| && AllowedFor(c, p, step)
  }

  predicate AllowedFor(c: Config, p: Pool, step: Step)
    requires Sized(c, p) && !step.Tick? && !step.EndLeftover? && step.source < |p.members|
  {
    var m := p.members[step.source];
    match step
    case Act(i, e) => CanAct(c.schedules[i], m, e)
    case TimeOut(i) => m.stage.Runs? && Enabled(c.schedules[i], m.source, FinishError)
    case Ask(_) => m.stage.Created?
    case Grant(_) => m.stage.AwaitsPermit? && Permits(p) < Workers(c)
    case Begin(_) => m.stage.Queued? && Threads(p) < Workers(c)
    case Disconnect(_) => m.stage.Runs? && m.stage.left > 0
    case Reverify(_) => m.stage.Pauses? && m.stage.left > 0
    case GrantLock(_) => m.stage.AwaitsLock? && m.stage.left > 0 && Locks(p) == 0
    case Proceed(_) => m.stage.Runs? && m.stage.job != OwnQuery
    case BeginOrphan(_) => m.orphans > 0 && Threads(p) < Workers(c)
    case EndAbandoned(_) => m.abandoned > 0
  }

  /** What a step makes of the member it belongs to. */
  function Changed(c: Config, p: Pool, step: Step): Member
    requires Sized(c, p) && !step.Tick? && !step.EndLeftover? && step.source < |p.members|
    requires AllowedFor(c, p, step)
  {
    var m := p.members[step.source];
    match step
    case Act(i, e) => Acted(c.schedules[i], m, e)
    case TimeOut(i) =>
      m.(source := Apply(c.schedules[i], m.source, FinishError), stage := NoTask, abandoned := m.abandoned + 1)
    case Ask(i) =>
      m.(stage := if Permits(p) < Workers(c) && !SomeoneAwaitsPermit(p)
                  then Placed(c, p, i, OwnQuery, c.attempts) else AwaitsPermit)
    case Grant(i) => m.(stage := Placed(c, p, i, OwnQuery, c.attempts))
    case Begin(_) => m.(stage := Runs(m.stage.job, m.stage.left))
    case Disconnect(_) => m.(stage := Pauses(m.stage.left))
    case Reverify(i) =>
      m.(stage := if Locks(p) == 0 && !SomeoneAwaitsLock(p)
                  then Placed(c, p, i, FirstContext, m.stage.left - 1) else AwaitsLock(m.stage.left))
    case GrantLock(i) => m.(stage := Placed(c, p, i, FirstContext, m.stage.left - 1))
    case Proceed(i) =>
      m.(stage := Placed(c, p, i, if m.stage.job == FirstContext then SecondContext else OwnQuery, m.stage.left))
    case BeginOrphan(_) => m.(orphans := m.orphans - 1, abandoned := m.abandoned + 1)
    case EndAbandoned(_) => m.(abandoned := m.abandoned - 1)
  }

  function Effect(c: Config, p: Pool, step: Step): (next: Pool)
    requires Sized(c, p) && Allowed(c, p, step)
    ensures Sized(c, next)
  {
    match step
    case Tick(clock) =>
      p.(members := seq(|p.members|, i requires 0 <= i < |p.members| => Ticked(p.members[i], clock)))
    case EndLeftover => p.(leftover := p.leftover - 1)
    case _ => p.(members := p.members[step.source := Changed(c, p, step)])
  }

  /** The steps are a run of the pool from its start. */
  ghost predicate IsRun(c: Config, steps: seq<Step>)
    decreases |steps|, 0
  {
    steps == [] ||
    (var n := |steps| - 1;
     IsRun(c, steps[..n]) && Allowed(c, After(c, steps[..n]), steps[n]))
  }

  ghost function After(c: Config, steps: seq<Step>): (p: Pool)
    requires IsRun(c, steps)
    ensures Sized(c, p)
    decreases |steps|, 1
  {
    if steps == [] then Start(c)
    else
      var n := |steps| - 1;
      Effect(c, After(c, steps[..n]), steps[n])
  }

  lemma {:induction false} OneMore(c: Config, steps: seq<Step>, step: Step)
    requires IsRun(c, steps) && Allowed(c, After(c, steps), step)
    ensures IsRun(c, steps + [step])
    ensures After(c, steps + [step]) == Effect(c, After(c, steps), step)
  {
    assert (steps + [step])[..|steps|] == steps;
  }

  // ---- totals ----

  lemma {:induction false} TotalUpdate(members: seq<Member>, f: Member -> nat, i: nat, m: Member, n: nat)
    requires i < |members| && n <= |members|
    ensures Total(members[i := m], f, n) == Total(members, f, n) + if i < n then f(m) - f(members[i]) else 0
  {
    if n > 0 {
      TotalUpdate(members, f, i, m, n - 1);
    }
  }

  lemma {:induction false} TotalSame(a: seq<Member>, b: seq<Member>, f: Member -> nat, n: nat)
    requires |a| == |b| && n <= |a| && forall i :: 0 <= i < n ==> f(a[i]) == f(b[i])
    ensures Total(a, f, n) == Total(b, f, n)
  {
    if n > 0 {
      TotalSame(a, b, f, n - 1);
    }
  }

  /** Where all members but k count for nothing, the total is that of k. */
  lemma {:induction false} TotalOne(members: seq<Member>, f: Member -> nat, k: nat, n: nat)
    requires n <= |members| && k < |members| && forall i :: 0 <= i < n && i != k ==> f(members[i]) == 0
    ensures Total(members, f, n) == if k < n then f(members[k]) else 0
  {
    if n > 0 {
      TotalOne(members, f, k, n - 1);
    }
  }

  lemma {:induction false} TotalAtLeast(members: seq<Member>, f: Member -> nat, i: nat, n: nat)
    requires i < n <= |members|
    ensures f(members[i]) <= Total(members, f, n)
  {
    if i < n - 1 {
      TotalAtLeast(members, f, i, n - 1);
    }
  }

  lemma {:induction false} TotalOfTwo(members: seq<Member>, f: Member -> nat, i: nat, j: nat, n: nat)
    requires i < j < n <= |members|
    ensures f(members[i]) + f(members[j]) <= Total(members, f, n)
  {
    if j < n - 1 {
      TotalOfTwo(members, f, i, j, n - 1);
    } else {
      TotalAtLeast(members, f, i, n - 1);
    }
  }

  lemma {:induction false} TotalPositive(members: seq<Member>, f: Member -> nat, n: nat) returns (i: nat)
    requires n <= |members| && Total(members, f, n) > 0
    ensures i < n && f(members[i]) > 0
  {
    if f(members[n - 1]) > 0 {
      i := n - 1;
    } else {
      i := TotalPositive(members, f, n - 1);
    }
  }

  // ---- the invariant ----

  /** The attempts left over at each stage. */
  predicate StageFits(c: Config, s: Stage) {
    match s
    case Queued(job, left) => left <= c.attempts && (job != OwnQuery ==> left < c.attempts)
    case Runs(job, left) => left <= c.attempts && (job != OwnQuery ==> left < c.attempts)
    case Pauses(left) => 1 <= left <= c.attempts
    case AwaitsLock(left) => 1 <= left <= c.attempts
    case _ => true
  }

  /** A stage exactly while a task runs, and at most one piece of work with the executor for each task launched. */
  predicate MemberFits(c: Config, m: Member) {
    && (m.stage == NoTask <==> !Busy(m.source))
    && m.abandoned + m.orphans + (if Busy(m.source) then 1 else 0) <= |m.source.tasks|
    && StageFits(c, m.stage)
  }

  predicate MembersFit(c: Config, p: Pool) {
    Sized(c, p) && forall i :: 0 <= i < |p.members| ==> MemberFits(c, p.members[i])
  }

  ghost predicate SourcesFit(c: Config, p: Pool) {
    Sized(c, p) && forall i :: 0 <= i < |p.members| ==> Inv(c.schedules[i], p.members[i].source)
  }

  /** Nothing shared is given out more often than it is there. */
  predicate Bounded(c: Config, p: Pool) {
    Permits(p) <= Workers(c) && Threads(p) <= Workers(c) && Locks(p) <= 1 && p.leftover <= c.leftover
  }

  /** What has become of the pool before anybody has to wait. */
  predicate WaitsFit(c: Config, p: Pool) {
    && (SomeoneAwaitsPermit(p) ==> Workers(c) < |c.schedules|)
    && (SomethingQueued(p) ==> Workers(c) < c.leftover + TasksLaunched(p))
    && (SomeoneAwaitsLock(p) ==> c.attempts > 0 && |c.schedules| >= 2 && Workers(c) >= 2)
  }

  predicate Counted(c: Config, p: Pool) {
    MembersFit(c, p) && Bounded(c, p) && WaitsFit(c, p)
  }

  ghost predicate PoolFits(c: Config, p: Pool) {
    SourcesFit(c, p) && Counted(c, p)
  }

  lemma StartSources(c: Config)
    ensures SourcesFit(c, Start(c))
  {
    forall i | 0 <= i < |c.schedules|
      ensures Inv(c.schedules[i], Init(c.clock))
    {
      InitInv(c.schedules[i], c.clock);
    }
  }

  lemma StartCounted(c: Config)
    requires Proper(c)
    ensures Counted(c, Start(c))
  {
    var p := Start(c);
    if p.members != [] {
      TotalOne(p.members, PermitsOf, 0, |p.members|);
      TotalOne(p.members, ThreadsOf, 0, |p.members|);
      TotalOne(p.members, LocksOf, 0, |p.members|);
    }
  }

  // ---- every step keeps it ----

  lemma TickTotals(p: Pool, next: Pool, clock: real)
    requires |next.members| == |p.members| && next.leftover == p.leftover
    requires forall i :: 0 <= i < |p.members| ==> next.members[i] == Ticked(p.members[i], clock)
    ensures Permits(next) == Permits(p) && Threads(next) == Threads(p)
    ensures Locks(next) == Locks(p) && TasksLaunched(next) == TasksLaunched(p)
  {
    TotalSame(next.members, p.members, PermitsOf, |p.members|);
    TotalSame(next.members, p.members, ThreadsOf, |p.members|);
    TotalSame(next.members, p.members, LocksOf, |p.members|);
    TotalSame(next.members, p.members, LaunchedBy, |p.members|);
  }

  lemma TickCounted(c: Config, p: Pool, clock: real)
    requires Counted(c, p) && Allowed(c, p, Tick(clock))
    ensures Counted(c, Effect(c, p, Tick(clock)))
  {
    var next := Effect(c, p, Tick(clock));
    TickTotals(p, next, clock);
    forall i | 0 <= i < |p.members|
      ensures MemberFits(c, next.members[i])
    {
      assert MemberFits(c, p.members[i]);
    }
    assert SomeoneAwaitsPermit(next) <==> SomeoneAwaitsPermit(p);
    assert SomeoneAwaitsLock(next) <==> SomeoneAwaitsLock(p);
    assert SomethingQueued(next) <==> SomethingQueued(p);
  }

  /** A step of one member. */
  predicate OwnStep(c: Config, p: Pool, step: Step) {
    Sized(c, p) && !step.Tick? && !step.EndLeftover? && Allowed(c, p, step)
  }

  lemma TickSources(c: Config, p: Pool, clock: real)
    requires SourcesFit(c, p) && Allowed(c, p, Tick(clock))
    ensures SourcesFit(c, Effect(c, p, Tick(clock)))
  {
    forall i | 0 <= i < |p.members|
      ensures Inv(c.schedules[i], Ticked(p.members[i], clock).source)
    {
      if p.members[i].source.phase == Looping {
        StepInv(c.schedules[i], p.members[i].source, Elapse(clock));
      }
    }
  }

  lemma ChangedSource(c: Config, p: Pool, step: Step)
    requires OwnStep(c, p, step) && Inv(c.schedules[step.source], p.members[step.source].source)
    ensures Inv(c.schedules[step.source], Changed(c, p, step).source)
  {
    match step
    case Act(i, e) => StepInv(c.schedules[i], p.members[i].source, e);
    case TimeOut(i) => StepInv(c.schedules[i], p.members[i].source, FinishError);
    case _ =>
  }

  lemma SourcesUpdated(c: Config, p: Pool, i: nat, m: Member)
    requires SourcesFit(c, p) && i < |p.members| && Inv(c.schedules[i], m.source)
    ensures SourcesFit(c, p.(members := p.members[i := m]))
  {
  }

  lemma StepSources(c: Config, p: Pool, step: Step)
    requires SourcesFit(c, p) && OwnStep(c, p, step)
    ensures SourcesFit(c, Effect(c, p, step))
  {
    ChangedSource(c, p, step);
    SourcesUpdated(c, p, step.source, Changed(c, p, step));
    assert Effect(c, p, step) == p.(members := p.members[step.source := Changed(c, p, step)]);
  }

  lemma ChangedFits(c: Config, p: Pool, step: Step)
    requires MembersFit(c, p) && OwnStep(c, p, step)
    ensures MemberFits(c, Changed(c, p, step))
    ensures LaunchedBy(p.members[step.source]) <= LaunchedBy(Changed(c, p, step))
  {
    assert MemberFits(c, p.members[step.source]);
  }

  /** The totals after a step of one member. */
  lemma StepTotals(c: Config, p: Pool, step: Step)
    requires OwnStep(c, p, step)
    ensures var m, n, next := p.members[step.source], Changed(c, p, step), Effect(c, p, step);
            && Permits(next) == Permits(p) + PermitsOf(n) - PermitsOf(m)
            && Threads(next) == Threads(p) + ThreadsOf(n) - ThreadsOf(m)
            && Locks(next) == Locks(p) + LocksOf(n) - LocksOf(m)
            && TasksLaunched(next) == TasksLaunched(p) + LaunchedBy(n) - LaunchedBy(m)
  {
    var n := Changed(c, p, step);
    TotalUpdate(p.members, PermitsOf, step.source, n, |p.members|);
    TotalUpdate(p.members, ThreadsOf, step.source, n, |p.members|);
    TotalUpdate(p.members, LocksOf, step.source, n, |p.members|);
    TotalUpdate(p.members, LaunchedBy, step.source, n, |p.members|);
  }

  lemma StepBounded(c: Config, p: Pool, step: Step)
    requires MembersFit(c, p) && Bounded(c, p) && OwnStep(c, p, step)
    ensures Bounded(c, Effect(c, p, step))
  {
    StepTotals(c, p, step);
    assert MemberFits(c, p.members[step.source]);
    TotalAtLeast(p.members, LocksOf, step.source, |p.members|);
  }

  /** Threads never outnumber the tasks launched, and a task without a thread leaves one to spare. */
  lemma {:induction false} ThreadsBelowTasks(members: seq<Member>, k: nat, n: nat)
    requires n <= |members| && k < |members|
    requires forall i :: 0 <= i < n ==> ThreadsOf(members[i]) <= LaunchedBy(members[i])
    ensures Total(members, ThreadsOf, n) + (if k < n then LaunchedBy(members[k]) - ThreadsOf(members[k]) else 0)
         <= Total(members, LaunchedBy, n)
  {
    if n > 0 {
      ThreadsBelowTasks(members, k, n - 1);
    }
  }

  /** A query is queued only when more tasks were launched, or threads left over, than there are threads. */
  lemma QueuedNeedsTasks(c: Config, p: Pool, i: nat)
    requires Counted(c, p) && i < |p.members|
    requires Busy(p.members[i].source) && !(ThreadFreeFor(c, p, i) && !SomethingQueued(p))
    ensures Workers(c) < c.leftover + TasksLaunched(p)
  {
    if !SomethingQueued(p) {
      forall k | 0 <= k < |p.members|
        ensures ThreadsOf(p.members[k]) <= LaunchedBy(p.members[k])
      {
        assert MemberFits(c, p.members[k]);
      }
      ThreadsBelowTasks(p.members, i, |p.members|);
      assert MemberFits(c, p.members[i]);
    }
  }

  lemma {:induction false} PermitsBelow(members: seq<Member>, i: nat, n: nat)
    requires n <= |members| && i < |members| && PermitsOf(members[i]) == 0
    ensures Total(members, PermitsOf, n) <= if i < n then n - 1 else n
  {
    if n > 0 {
      PermitsBelow(members, i, n - 1);
    }
  }

  lemma AskNeedsSources(c: Config, p: Pool, i: nat)
    requires Counted(c, p) && i < |p.members| && p.members[i].stage.Created?
    requires Permits(p) >= Workers(c) || SomeoneAwaitsPermit(p)
    ensures Workers(c) < |c.schedules|
  {
    PermitsBelow(p.members, i, |p.members|);
  }

  lemma TwoPermits(p: Pool, i: nat, j: nat)
    requires i < |p.members| && j < |p.members| && i != j
    requires HoldsPermit(p.members[i].stage) && HoldsPermit(p.members[j].stage)
    ensures Permits(p) >= 2
  {
    var first, second := if i < j then i else j, if i < j then j else i;
    TotalOfTwo(p.members, PermitsOf, first, second, |p.members|);
  }

  lemma LockNeedsTwo(c: Config, p: Pool, i: nat)
    requires Counted(c, p) && i < |p.members| && p.members[i].stage.Pauses?
    requires Locks(p) > 0 || SomeoneAwaitsLock(p)
    ensures c.attempts > 0 && |c.schedules| >= 2 && Workers(c) >= 2
  {
    assert MemberFits(c, p.members[i]);
    if Locks(p) > 0 {
      var j := TotalPositive(p.members, LocksOf, |p.members|);
      TwoPermits(p, i, j);
    }
  }

  lemma StepQueues(c: Config, p: Pool, step: Step)
    requires Counted(c, p) && OwnStep(c, p, step)
    requires InQueue(Changed(c, p, step)) && !InQueue(p.members[step.source])
    ensures Workers(c) < c.leftover + TasksLaunched(p)
  {
    var m := p.members[step.source];
    assert MemberFits(c, m);
    assert step.Ask? || step.Grant? || step.Reverify? || step.GrantLock? || step.Proceed?;
    QueuedNeedsTasks(c, p, step.source);
  }

  lemma StepAwaits(c: Config, p: Pool, step: Step)
    requires Counted(c, p) && OwnStep(c, p, step)
    ensures Changed(c, p, step).stage.AwaitsPermit? && !p.members[step.source].stage.AwaitsPermit? ==>
              Workers(c) < |c.schedules|
    ensures Changed(c, p, step).stage.AwaitsLock? && !p.members[step.source].stage.AwaitsLock? ==>
              c.attempts > 0 && |c.schedules| >= 2 && Workers(c) >= 2
  {
    if step.Ask? && (Permits(p) >= Workers(c) || SomeoneAwaitsPermit(p)) {
      AskNeedsSources(c, p, step.source);
    }
    if step.Reverify? && (Locks(p) > 0 || SomeoneAwaitsLock(p)) {
      LockNeedsTwo(c, p, step.source);
    }
  }

  lemma StepWaits(c: Config, p: Pool, step: Step)
    requires Counted(c, p) && OwnStep(c, p, step)
    ensures WaitsFit(c, Effect(c, p, step))
  {
    var i, next := step.source, Effect(c, p, step);
    StepTotals(c, p, step);
    ChangedFits(c, p, step);
    StepAwaits(c, p, step);
    if InQueue(next.members[i]) && !InQueue(p.members[i]) {
      StepQueues(c, p, step);
    }
    WaitsAfter(c, p, next, i);
  }

  /** When only member i changes, whoever waits waited before or is member i. */
  lemma WaitsAfter(c: Config, p: Pool, next: Pool, i: nat)
    requires WaitsFit(c, p) && i < |p.members| == |next.members| && next.members == p.members[i := next.members[i]]
    requires TasksLaunched(p) <= TasksLaunched(next)
    requires next.members[i].stage.AwaitsPermit? && !p.members[i].stage.AwaitsPermit? ==> Workers(c) < |c.schedules|
    requires next.members[i].stage.AwaitsLock? && !p.members[i].stage.AwaitsLock? ==>
               c.attempts > 0 && |c.schedules| >= 2 && Workers(c) >= 2
    requires InQueue(next.members[i]) && !InQueue(p.members[i]) ==> Workers(c) < c.leftover + TasksLaunched(p)
    ensures WaitsFit(c, next)
  {
    assert forall j :: 0 <= j < |p.members| && j != i ==> next.members[j] == p.members[j];
    if j :| 0 <= j < |p.members| && InQueue(next.members[j]) {
      assert j != i ==> SomethingQueued(p);
    }
  }

  lemma StepFits(c: Config, p: Pool, step: Step)
    requires PoolFits(c, p) && Allowed(c, p, step)
    ensures PoolFits(c, Effect(c, p, step))
  {
    if step.Tick? {
      TickSources(c, p, step.clock);
      TickCounted(c, p, step.clock);
    } else if !step.EndLeftover? {
      StepSources(c, p, step);
      ChangedFits(c, p, step);
      StepBounded(c, p, step);
      StepWaits(c, p, step);
    }
  }

  /**
   In every run: each source keeps the scheduling invariant, permits, threads and
   the lock are never overdrawn, and nobody waits before there is a reason.
   */
  lemma {:induction false} RunFits(c: Config, steps: seq<Step>)
    requires Proper(c) && IsRun(c, steps)
    ensures PoolFits(c, After(c, steps))
    decreases |steps|
  {
    if steps == [] {
      StartSources(c);
      StartCounted(c);
    } else {
      var n := |steps| - 1;
      RunFits(c, steps[..n]);
      StepFits(c, After(c, steps[..n]), steps[n]);
    }
  }

  /** In every run a source has at most one running task, so one stage for each source says all. */
  lemma {:induction false} OneTaskPerSource(c: Config, steps: seq<Step>, i: nat, t: nat)
    requires Proper(c) && IsRun(c, steps) && i < |c.schedules|
    requires var s := After(c, steps).members[i].source; t < |s.tasks| && s.tasks[t].status == Running
    ensures After(c, steps).members[i].source.active == Some(t)
    ensures After(c, steps).members[i].stage != NoTask
  {
    RunFits(c, steps);
    assert Inv(c.schedules[i], After(c, steps).members[i].source);
    assert MemberFits(c, After(c, steps).members[i]);
  }
}
