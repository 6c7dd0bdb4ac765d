/**
 Runs of the query pool that lead somebody into waiting: for a permit, for a
 worker thread or for the identity lock.
 */
module QueryPoolRuns {
  import opened Prelude
  import opened Scheduler
  import opened QueryPool

  /** The entries of the first n schedules. */
  function Entries(schedules: seq<seq<Entry>>, n: nat): nat
    requires n <= |schedules|
  {
    if n == 0 then 0 else Entries(schedules, n - 1) + |schedules[n - 1]|
  }

  // ---- single steps ----

  /** Every source is in its loop and reads the same clock. */
  predicate AllAt(p: Pool, t: real) {
    forall i :: 0 <= i < |p.members| ==> p.members[i].source.phase == Looping && p.members[i].source.clock == t
  }

  /** Only the clock differs. */
  predicate Like(a: Member, b: Member) {
    b == a.(source := a.source.(clock := b.source.clock))
  }

  lemma {:induction false} TickTo(c: Config, steps: seq<Step>, t: real, u: real)
    requires IsRun(c, steps) && AllAt(After(c, steps), t) && t <= u
    ensures IsRun(c, steps + [Tick(u)])
    ensures var p, q := After(c, steps), After(c, steps + [Tick(u)]);
            && AllAt(q, u) && q.leftover == p.leftover
            && (forall i :: 0 <= i < |p.members| ==> Like(p.members[i], q.members[i]))
            && Threads(q) == Threads(p) && Permits(q) == Permits(p)
  {
    OneMore(c, steps, Tick(u));
    TickTotals(After(c, steps), After(c, steps + [Tick(u)]), u);
  }

  /** The members that no step of member k touches. */
  predicate Beside(p: Pool, q: Pool, k: nat) {
    && |p.members| == |q.members| && p.leftover == q.leftover
    && forall i :: 0 <= i < |p.members| && i != k ==> Like(p.members[i], q.members[i])
  }

  lemma BesideTrans(p: Pool, q: Pool, r: Pool, k: nat)
    requires Beside(p, q, k) && Beside(q, r, k)
    ensures Beside(p, r, k)
  {
    forall i | 0 <= i < |p.members| && i != k
      ensures Like(p.members[i], r.members[i])
    {
      assert Like(p.members[i], q.members[i]) && Like(q.members[i], r.members[i]);
    }
  }

  /** The member has launched a task for its next entry, and the task has not run yet. */
  predicate JustLaunched(m: Member, n: Member) {
    && n.stage == Created && Busy(n.source) && n.source.tasks[n.source.active.value].pos == m.source.pos
    && n.source.pos == m.source.pos + 1 && n.source.skipped == m.source.skipped
    && n.source.diagnostics == m.source.diagnostics
    && n.abandoned == m.abandoned && n.orphans == m.orphans
  }

  /** Time passes up to the next deadline of source k, which launches. */
  lemma Launch(c: Config, steps: seq<Step>, t: real, k: nat) returns (more: seq<Step>, u: real)
    requires IsRun(c, steps) && AllAt(After(c, steps), t) && k < |c.schedules|
    requires var s := After(c, steps).members[k].source; !Busy(s) && s.pos < |c.schedules[k]|
    ensures IsRun(c, more) && AllAt(After(c, more), u)
    ensures Beside(After(c, steps), After(c, more), k)
    ensures JustLaunched(After(c, steps).members[k], After(c, more).members[k])
  {
    u := Max(t, c.schedules[k][After(c, steps).members[k].source.pos].offset);
    TickTo(c, steps, t, u);
    var ticked := steps + [Tick(u)];
    assert Like(After(c, steps).members[k], After(c, ticked).members[k]);
    OneMore(c, ticked, Act(k, Deadline));
    more := ticked + [Act(k, Deadline)];
  }

  lemma LaunchTotals(p: Pool, q: Pool, k: nat)
    requires k < |p.members| && Beside(p, q, k) && p.members[k].stage == NoTask
    requires JustLaunched(p.members[k], q.members[k])
    ensures Permits(q) == Permits(p) && Threads(q) == Threads(p) && Locks(q) == Locks(p)
    ensures SomeoneAwaitsPermit(q) ==> SomeoneAwaitsPermit(p)
    ensures SomethingQueued(q) ==> SomethingQueued(p)
    ensures SomeoneAwaitsLock(q) ==> SomeoneAwaitsLock(p)
  {
    forall i | 0 <= i < |p.members|
      ensures i == k || Like(p.members[i], q.members[i])
    {
    }
    TotalSame(p.members, q.members, PermitsOf, |p.members|);
    TotalSame(p.members, q.members, ThreadsOf, |p.members|);
    TotalSame(p.members, q.members, LocksOf, |p.members|);
  }

  /** A step that leaves the source of its member as it is. */
  lemma {:induction false} StageStep(c: Config, steps: seq<Step>, t: real, step: Step)
    requires IsRun(c, steps) && AllAt(After(c, steps), t) && OwnStep(c, After(c, steps), step)
    requires !step.Act? && !step.TimeOut?
    ensures IsRun(c, steps + [step]) && AllAt(After(c, steps + [step]), t)
    ensures Beside(After(c, steps), After(c, steps + [step]), step.source)
    ensures var n := After(c, steps + [step]).members[step.source];
            n == Changed(c, After(c, steps), step) && n.source == After(c, steps).members[step.source].source
  {
    OneMore(c, steps, step);
  }

  // ---- threads left over ----

  lemma {:induction false} EndLeftovers(c: Config, e: nat) returns (steps: seq<Step>)
    requires e <= c.leftover
    ensures IsRun(c, steps) && After(c, steps) == Start(c).(leftover := e)
    decreases c.leftover - e
  {
    if e == c.leftover {
      steps := [];
    } else {
      var before := EndLeftovers(c, e + 1);
      OneMore(c, before, EndLeftover);
      steps := before + [EndLeftover];
    }
  }

  // ---- every thread taken by tasks that timed out ----

  /** No task runs and nothing is queued. */
  predicate Quiet(p: Pool, t: real) {
    AllAt(p, t) && forall i :: 0 <= i < |p.members| ==>
      p.members[i].stage == NoTask && p.members[i].orphans == 0 && !Busy(p.members[i].source)
  }

  /** A launch while no other task runs: the permit is there, and the query runs if a thread is free. */
  lemma AskAlone(c: Config, steps: seq<Step>, t: real, k: nat) returns (more: seq<Step>, u: real)
    requires IsRun(c, steps) && Quiet(After(c, steps), t) && k < |c.schedules|
    requires After(c, steps).members[k].source.pos < |c.schedules[k]|
    ensures IsRun(c, more) && AllAt(After(c, more), u) && Beside(After(c, steps), After(c, more), k)
    ensures var p, m, n := After(c, steps), After(c, steps).members[k], After(c, more).members[k];
            && Busy(n.source) && n.source.tasks[n.source.active.value].pos == m.source.pos
            && n.source.pos == m.source.pos + 1 && n.source.skipped == m.source.skipped
            && n.abandoned == m.abandoned && n.orphans == 0
            && n.stage == (if Threads(p) < Workers(c) then Runs(OwnQuery, c.attempts) else Queued(OwnQuery, c.attempts))
            && Threads(After(c, more)) == Threads(p) + if Threads(p) < Workers(c) then 1 else 0
  {
    var p := After(c, steps);
    var launched, v := Launch(c, steps, t, k);
    u := v;
    var p1 := After(c, launched);
    LaunchTotals(p, p1, k);
    TotalOne(p1.members, PermitsOf, k, |p1.members|);
    StageStep(c, launched, u, Ask(k));
    more := launched + [Ask(k)];
    StepTotals(c, p1, Ask(k));
    BesideTrans(p, p1, After(c, more), k);
  }

  /** One launch whose query times out and keeps its thread. */
  lemma Abandon(c: Config, steps: seq<Step>, t: real, j: nat) returns (more: seq<Step>, u: real)
    requires IsRun(c, steps) && Quiet(After(c, steps), t) && j < |c.schedules|
    requires After(c, steps).members[j].source.pos < |c.schedules[j]| && Threads(After(c, steps)) < Workers(c)
    ensures IsRun(c, more) && Quiet(After(c, more), u) && Beside(After(c, steps), After(c, more), j)
    ensures var m, n := After(c, steps).members[j], After(c, more).members[j];
            && n.abandoned == m.abandoned + 1 && n.source.pos == m.source.pos + 1
            && n.source.skipped == m.source.skipped
    ensures Threads(After(c, more)) == Threads(After(c, steps)) + 1
  {
    var asked, v := AskAlone(c, steps, t, j);
    u := v;
    var p, q := After(c, steps), After(c, asked);
    OneMore(c, asked, TimeOut(j));
    more := asked + [TimeOut(j)];
    StepTotals(c, q, TimeOut(j));
    var r := After(c, more);
    forall i | 0 <= i < |p.members| && i != j
      ensures Like(p.members[i], r.members[i])
    {
      assert Like(p.members[i], q.members[i]);
    }
  }

  /**
   Some tasks have timed out and keep a thread each.  The sources beside v come
   first, o before all others, and v keeps its last r entries.
   */
  predicate Spent(c: Config, p: Pool, t: real, v: nat, o: nat, r: nat)
    requires Sized(c, p) && v < |c.schedules| && o < |c.schedules|
  {
    && Quiet(p, t)
    && (forall i :: 0 <= i < |p.members| ==>
          p.members[i].abandoned == p.members[i].source.pos <= |c.schedules[i]| && p.members[i].source.skipped == [])
    && p.members[v].source.pos + r <= |c.schedules[v]|
    && (p.members[v].source.pos > 0 ==> forall i :: 0 <= i < |p.members| && i != v ==>
          p.members[i].source.pos == |c.schedules[i]|)
    && (p.members[o].source.pos == 0 ==> forall i :: 0 <= i < |p.members| ==> p.members[i].source.pos == 0)
  }

  /** When every source but v has used up its entries, the threads tell how many v has used. */
  lemma {:induction false} AllButOne(c: Config, p: Pool, v: nat, n: nat)
    requires Sized(c, p) && n <= |c.schedules| && v < |c.schedules|
    requires forall i :: 0 <= i < n && i != v ==> ThreadsOf(p.members[i]) == |c.schedules[i]|
    ensures Total(p.members, ThreadsOf, n)
         == Entries(c.schedules, n) + if v < n then ThreadsOf(p.members[v]) - |c.schedules[v]| else 0
  {
    if n > 0 {
      AllButOne(c, p, v, n - 1);
    }
  }

  /** The source whose turn it is. */
  lemma NextToSpend(c: Config, p: Pool, t: real, v: nat, o: nat, r: nat) returns (j: nat)
    requires Proper(c) && Sized(c, p) && v < |c.schedules| && o < |c.schedules| && Spent(c, p, t, v, o, r)
    requires |c.schedules| > 1 ==> o != v
    requires Total(p.members, ThreadsOf, |p.members|) + r < Entries(c.schedules, |c.schedules|)
    ensures j < |c.schedules| && p.members[j].source.pos < |c.schedules[j]|
    ensures j == v ==> p.members[v].source.pos + r < |c.schedules[v]|
                       && forall i :: 0 <= i < |p.members| && i != v ==> p.members[i].source.pos == |c.schedules[i]|
    ensures p.members[o].source.pos == 0 ==> j == o
    ensures p.members[v].source.pos > 0 ==> j == v
  {
    if o != v && p.members[o].source.pos < |c.schedules[o]| {
      j := o;
    } else if i :| 0 <= i < |p.members| && i != v && p.members[i].source.pos < |c.schedules[i]| {
      j := i;
    } else {
      AllButOne(c, p, v, |p.members|);
      j := v;
    }
  }

  lemma SpentStep(c: Config, p: Pool, q: Pool, t: real, u: real, v: nat, o: nat, r: nat, j: nat)
    requires Sized(c, p) && v < |c.schedules| && o < |c.schedules| && j < |c.schedules|
    requires Spent(c, p, t, v, o, r) && Beside(p, q, j) && Quiet(q, u)
    requires var m, n := p.members[j], q.members[j];
             && n.abandoned == m.abandoned + 1 && n.source.pos == m.source.pos + 1 <= |c.schedules[j]|
             && n.source.skipped == m.source.skipped
    requires j == v ==> p.members[v].source.pos + r < |c.schedules[v]|
                        && forall i :: 0 <= i < |p.members| && i != v ==> p.members[i].source.pos == |c.schedules[i]|
    requires p.members[o].source.pos == 0 ==> j == o
    requires p.members[v].source.pos > 0 ==> j == v
    ensures Spent(c, q, u, v, o, r)
  {
    forall i | 0 <= i < |p.members| && i != j
      ensures q.members[i].source.pos == p.members[i].source.pos
      ensures q.members[i].abandoned == p.members[i].abandoned
      ensures q.members[i].source.skipped == p.members[i].source.skipped
    {
      assert Like(p.members[i], q.members[i]);
    }
  }

  /** Some m tasks time out one after the other, and nothing else happens. */
  lemma {:induction false} Spend(c: Config, v: nat, o: nat, r: nat, e: nat, m: nat)
    returns (steps: seq<Step>, t: real)
    requires Proper(c) && v < |c.schedules| && o < |c.schedules| && (|c.schedules| > 1 ==> o != v)
    requires e <= c.leftover && e + m <= Workers(c)
    requires r <= |c.schedules[v]| && m + r <= Entries(c.schedules, |c.schedules|)
    ensures IsRun(c, steps) && After(c, steps).leftover == e && Spent(c, After(c, steps), t, v, o, r)
    ensures Total(After(c, steps).members, ThreadsOf, |c.schedules|) == m
  {
    if m == 0 {
      steps := EndLeftovers(c, e);
      t := c.clock;
      TotalOne(After(c, steps).members, ThreadsOf, 0, |c.schedules|);
    } else {
      var before, s := Spend(c, v, o, r, e, m - 1);
      var p := After(c, before);
      var j := NextToSpend(c, p, s, v, o, r);
      steps, t := Abandon(c, before, s, j);
      SpentStep(c, p, After(c, steps), s, t, v, o, r, j);
    }
  }

  /** All threads are taken and the query of source v waits in the queue, behind a thread source o left busy. */
  lemma QueueRun(c: Config, v: nat, o: nat, r: nat, e: nat) returns (steps: seq<Step>, t: real)
    requires Proper(c) && v < |c.schedules| && o < |c.schedules| && (|c.schedules| > 1 ==> o != v)
    requires e <= c.leftover && 1 <= r <= |c.schedules[v]|
    requires Workers(c) - e + r <= Entries(c.schedules, |c.schedules|)
    ensures IsRun(c, steps) && AllAt(After(c, steps), t)
    ensures var p := After(c, steps);
            && p.members[v].stage == Queued(OwnQuery, c.attempts) && Busy(p.members[v].source)
            && 1 <= p.members[v].source.pos <= |c.schedules[v]| - r + 1 && p.members[v].source.skipped == []
            && p.members[v].abandoned == p.members[v].source.pos - 1
            && (o != v && e < Workers(c) ==> p.members[o].abandoned > 0)
            && p.leftover == e && Threads(p) == Workers(c)
            && forall i :: 0 <= i < |p.members| && i != v ==> p.members[i].stage == NoTask
  {
    var before, s := Spend(c, v, o, r, e, Workers(c) - e);
    var p := After(c, before);
    steps, t := AskAlone(c, before, s, v);
    forall i | 0 <= i < |p.members| && i != v
      ensures Like(p.members[i], After(c, steps).members[i])
    {
    }
    if o != v && e < Workers(c) {
      var j := TotalPositive(p.members, ThreadsOf, |p.members|);
    }
  }

  // ---- every permit taken ----

  lemma {:induction false} PermitsOfFirst(members: seq<Member>, k: nat, n: nat)
    requires n <= |members|
    requires forall i :: 0 <= i < n ==> (HoldsPermit(members[i].stage) <==> i < k)
    ensures Total(members, PermitsOf, n) == if n < k then n else k
  {
    if n > 0 {
      PermitsOfFirst(members, k, n - 1);
    }
  }

  /** The first k sources hold a permit each, the others have not begun. */
  predicate FirstHold(c: Config, p: Pool, t: real, k: nat)
    requires Sized(c, p)
  {
    && AllAt(p, t)
    && (forall i :: 0 <= i < |p.members| && i < k ==> HoldsPermit(p.members[i].stage))
    && (forall i :: k <= i < |p.members| ==>
          p.members[i].stage == NoTask && !Busy(p.members[i].source)
          && p.members[i].source.pos == 0 && p.members[i].source.skipped == [])
  }

  /** One source more launches and asks for a permit. */
  lemma AskNext(c: Config, steps: seq<Step>, t: real, k: nat) returns (more: seq<Step>, u: real)
    requires Proper(c) && k < |c.schedules| && k <= Workers(c)
    requires IsRun(c, steps) && FirstHold(c, After(c, steps), t, k)
    ensures IsRun(c, more) && AllAt(After(c, more), u) && Beside(After(c, steps), After(c, more), k)
    ensures var n := After(c, more).members[k];
            && Busy(n.source) && n.source.pos == 1 && n.source.skipped == []
            && (if k < Workers(c) then HoldsPermit(n.stage) else n.stage == AwaitsPermit)
  {
    var p := After(c, steps);
    var launched, v := Launch(c, steps, t, k);
    u := v;
    var p1 := After(c, launched);
    forall i | 0 <= i < |p.members|
      ensures p1.members[i].stage == if i == k then Created else p.members[i].stage
    {
      assert i != k ==> Like(p.members[i], p1.members[i]);
    }
    PermitsOfFirst(p1.members, k, |p1.members|);
    StageStep(c, launched, u, Ask(k));
    more := launched + [Ask(k)];
    BesideTrans(p, p1, After(c, more), k);
  }

  lemma {:induction false} HoldFirst(c: Config, k: nat) returns (steps: seq<Step>, t: real)
    requires Proper(c) && k <= |c.schedules| && k <= Workers(c)
    ensures IsRun(c, steps) && FirstHold(c, After(c, steps), t, k)
  {
    if k == 0 {
      steps, t := [], c.clock;
    } else {
      var before, s := HoldFirst(c, k - 1);
      steps, t := AskNext(c, before, s, k - 1);
      forall i | 0 <= i < |c.schedules| && i != k - 1
        ensures Like(After(c, before).members[i], After(c, steps).members[i])
      {
      }
    }
  }

  /** With fewer permits than sources there is a run in which one task waits for a permit. */
  lemma PermitRun(c: Config) returns (steps: seq<Step>, t: real)
    requires Proper(c) && Workers(c) < |c.schedules|
    ensures IsRun(c, steps) && AllAt(After(c, steps), t)
    ensures var p, v := After(c, steps), Workers(c);
            && p.members[v].stage == AwaitsPermit && Busy(p.members[v].source)
            && p.members[v].source.pos == 1 && p.members[v].source.skipped == []
            && forall i :: 0 <= i < v ==> HoldsPermit(p.members[i].stage)
  {
    var before, s := HoldFirst(c, Workers(c));
    steps, t := AskNext(c, before, s, Workers(c));
    forall i | 0 <= i < Workers(c)
      ensures Like(After(c, before).members[i], After(c, steps).members[i])
    {
    }
  }

  // ---- the identity lock taken ----

  /** Nobody but source o has begun. */
  predicate OnlyRuns(p: Pool, t: real, o: nat) {
    && AllAt(p, t) && p.leftover == 0
    && forall i :: 0 <= i < |p.members| && i != o ==>
         p.members[i].stage == NoTask && !Busy(p.members[i].source) && p.members[i].abandoned == 0
         && p.members[i].orphans == 0 && p.members[i].source.pos == 0 && p.members[i].source.skipped == []
  }

  lemma OnlyRunsBeside(p: Pool, q: Pool, t: real, u: real, o: nat)
    requires OnlyRuns(p, t, o) && Beside(p, q, o) && AllAt(q, u)
    ensures OnlyRuns(q, u, o)
  {
    forall i | 0 <= i < |p.members| && i != o
      ensures Like(p.members[i], q.members[i])
    {
    }
  }

  /** A source launches, its query disconnects, and it asks for the identity lock. */
  lemma ReachLock(c: Config, steps: seq<Step>, t: real, k: nat) returns (more: seq<Step>, u: real)
    requires c.attempts > 0 && k < |c.schedules| && IsRun(c, steps) && AllAt(After(c, steps), t)
    requires var p := After(c, steps);
             && !Busy(p.members[k].source) && p.members[k].source.pos < |c.schedules[k]|
             && p.members[k].stage == NoTask && p.members[k].orphans == 0
             && Permits(p) < Workers(c) && !SomeoneAwaitsPermit(p)
             && Threads(p) < Workers(c) && !SomethingQueued(p) && !SomeoneAwaitsLock(p)
    ensures IsRun(c, more) && AllAt(After(c, more), u) && Beside(After(c, steps), After(c, more), k)
    ensures var p, q := After(c, steps), After(c, more);
            && Busy(q.members[k].source) && q.members[k].source.pos == p.members[k].source.pos + 1
            && q.members[k].source.skipped == p.members[k].source.skipped
            && q.members[k].abandoned == p.members[k].abandoned && q.members[k].orphans == 0
            && q.members[k].stage ==
                 if Locks(p) == 0 then Runs(FirstContext, c.attempts - 1) else AwaitsLock(c.attempts)
  {
    var p := After(c, steps);
    var s1, v := Launch(c, steps, t, k);
    u := v;
    var p1 := After(c, s1);
    LaunchTotals(p, p1, k);
    StageStep(c, s1, u, Ask(k));
    var s2 := s1 + [Ask(k)];
    var p2 := After(c, s2);
    StepTotals(c, p1, Ask(k));
    StageStep(c, s2, u, Disconnect(k));
    var s3 := s2 + [Disconnect(k)];
    var p3 := After(c, s3);
    StepTotals(c, p2, Disconnect(k));
    QuietBeside(p1, p2, k);
    QuietBeside(p2, p3, k);
    StageStep(c, s3, u, Reverify(k));
    more := s3 + [Reverify(k)];
    BesideTrans(p, p1, p2, k);
    BesideTrans(p, p2, p3, k);
    BesideTrans(p, p3, After(c, more), k);
  }

  /** While member k neither waits nor queues, nobody waits who did not wait before. */
  lemma QuietBeside(p: Pool, q: Pool, k: nat)
    requires k < |p.members| && Beside(p, q, k) && !InQueue(q.members[k])
    requires !q.members[k].stage.AwaitsLock?
    ensures SomethingQueued(q) ==> SomethingQueued(p)
    ensures SomeoneAwaitsLock(q) ==> SomeoneAwaitsLock(p)
  {
    forall i | 0 <= i < |p.members|
      ensures i == k || Like(p.members[i], q.members[i])
    {
    }
  }

  /** Two sources disconnect; the second waits while the first checks the identity. */
  lemma LockRun(c: Config, v: nat, o: nat) returns (steps: seq<Step>, t: real)
    requires Proper(c) && v < |c.schedules| && o < |c.schedules| && v != o
    requires c.attempts > 0 && Workers(c) >= 2
    ensures IsRun(c, steps) && AllAt(After(c, steps), t)
    ensures var p := After(c, steps);
            && p.members[o].stage == Runs(FirstContext, c.attempts - 1)
            && p.members[v].stage == AwaitsLock(c.attempts) && Busy(p.members[v].source)
            && p.members[v].source.pos == 1 && p.members[v].source.skipped == []
  {
    var s0 := EndLeftovers(c, 0);
    var p0 := After(c, s0);
    OnlyTotals(p0, c.clock, o);
    var s1, t1 := ReachLock(c, s0, c.clock, o);
    var p1 := After(c, s1);
    OnlyRunsBeside(p0, p1, c.clock, t1, o);
    OnlyTotals(p1, t1, o);
    steps, t := ReachLock(c, s1, t1, v);
    assert Like(p1.members[o], After(c, steps).members[o]);
  }

  /** Where only source o has begun, the totals are its own. */
  lemma OnlyTotals(p: Pool, t: real, o: nat)
    requires o < |p.members| && OnlyRuns(p, t, o)
    ensures Permits(p) == PermitsOf(p.members[o])
    ensures Threads(p) == ThreadsOf(p.members[o])
    ensures Locks(p) == LocksOf(p.members[o])
  {
    TotalOne(p.members, PermitsOf, o, |p.members|);
    TotalOne(p.members, ThreadsOf, o, |p.members|);
    TotalOne(p.members, LocksOf, o, |p.members|);
  }

  // ---- the next deadline of a task that waits ----

  /** Time passes up to the next deadline of source k, whose task still runs. */
  lemma ReachDeadline(c: Config, steps: seq<Step>, t: real, k: nat) returns (more: seq<Step>)
    requires IsRun(c, steps) && AllAt(After(c, steps), t) && k < |c.schedules|
    requires var s := After(c, steps).members[k].source; Busy(s) && s.pos < |c.schedules[k]|
    ensures IsRun(c, more) && Allowed(c, After(c, more), Act(k, Deadline))
    ensures var p, q := After(c, steps), After(c, more);
            && q.leftover == p.leftover
            && forall i :: 0 <= i < |p.members| ==> Like(p.members[i], q.members[i])
  {
    var u := Max(t, c.schedules[k][After(c, steps).members[k].source.pos].offset);
    TickTo(c, steps, t, u);
    more := steps + [Tick(u)];
    assert Like(After(c, steps).members[k], After(c, more).members[k]);
  }
}
