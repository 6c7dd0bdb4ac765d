/**
 Registration of clients against the closing of the adapter.

 Any number of executions, their worker threads and one or more closers run
 concurrently; each event below is one step that the others cannot split.
 */
module AdapterClose {

  /** Where one execution stands; each execution makes one client and is named after it. */
  datatype Progress =
    | Idle
    | Admitted     // passed the unlocked test of the closed flag
    | Connected    // created its client
    | Registered   // entered its client under the lock
    | Removed      // its worker removed the client under the lock
    | Refused      // raised because the adapter is closed

  datatype Closing =
    | NotClosing
    | FlagSet                          // closed, but the clients are not read yet
    | Cancelling(snapshot: set<nat>)   // the list of clients to cancel

  datatype State = State(
    closed: bool, clients: set<nat>, progress: map<nat, Progress>, closing: Closing, cancelled: set<nat>)

  datatype Event =
    | Admit(c: nat)      // if self._closed: raise
    | Connect(c: nat)    // client = self._client()
    | Register(c: nat)   // with the lock: test the flag again, then enter the client
    | Finish(c: nat)     // the worker's finally block
    | CloseFlag          // close() sets the flag, or returns at once if it is set
    | Snapshot           // close() copies the clients under the lock
    | Cancel(c: nat)     // close() cancels one client of its copy

  const START := State(false, {}, map[], NotClosing, {})

  function ProgressOf(s: State, c: nat): Progress {
    if c in s.progress then s.progress[c] else Idle
  }

  predicate Enabled(s: State, e: Event) {
    match e
    case Admit(c) => ProgressOf(s, c) == Idle
    case Connect(c) => ProgressOf(s, c) == Admitted
    case Register(c) => ProgressOf(s, c) == Connected
    case Finish(c) => ProgressOf(s, c) == Registered
    case CloseFlag => true
    case Snapshot => s.closing == FlagSet
    case Cancel(c) => s.closing.Cancelling? && c in s.closing.snapshot && c !in s.cancelled
  }

  function Apply(s: State, e: Event): State
    requires Enabled(s, e)
  {
    match e
    case Admit(c) => s.(progress := s.progress[c := if s.closed then Refused else Admitted])
    case Connect(c) => s.(progress := s.progress[c := Connected])
    case Register(c) =>
      if s.closed then s.(progress := s.progress[c := Refused])
      else s.(progress := s.progress[c := Registered], clients := s.clients + {c})
    case Finish(c) => s.(progress := s.progress[c := Removed], clients := s.clients - {c})
    case CloseFlag => if s.closed then s else s.(closed := true, closing := FlagSet)
    case Snapshot => s.(closing := Cancelling(s.clients))
    case Cancel(c) => s.(cancelled := s.cancelled + {c})
  }

  ghost predicate ValidRun(s: State, events: seq<Event>)
    decreases |events|
  {
    events == [] || (Enabled(s, events[0]) && ValidRun(Apply(s, events[0]), events[1..]))
  }

  ghost function Exec(s: State, events: seq<Event>): State
    requires ValidRun(s, events)
    decreases |events|
  {
    if events == [] then s else Exec(Apply(s, events[0]), events[1..])
  }

  /** The clients that were ever registered. */
  predicate WasRegistered(s: State, c: nat) {
    ProgressOf(s, c) == Registered || ProgressOf(s, c) == Removed
  }

  ghost predicate Inv(s: State) {
    && (s.closed <==> s.closing != NotClosing)
    && (!s.closing.Cancelling? ==> s.cancelled == {})
    && (forall c: nat :: c in s.clients <==> ProgressOf(s, c) == Registered)
    && (s.closing.Cancelling? ==>
          (forall c: nat :: ProgressOf(s, c) == Registered ==> c in s.closing.snapshot)
          && (forall c: nat :: c in s.closing.snapshot ==> WasRegistered(s, c))
          && s.cancelled <= s.closing.snapshot)
  }

  lemma StepInv(s: State, e: Event)
    requires Inv(s) && Enabled(s, e)
    ensures Inv(Apply(s, e))
  {
    var next := Apply(s, e);
    if e.Admit? || e.Connect? || e.Register? || e.Finish? {
      forall c: nat
        ensures ProgressOf(next, c) == if c == e.c then next.progress[e.c] else ProgressOf(s, c)
      {
      }
    }
  }

  lemma {:induction false} RunInv(s: State, events: seq<Event>)
    requires Inv(s) && ValidRun(s, events)
    ensures Inv(Exec(s, events))
    decreases |events|
  {
    if events != [] {
      StepInv(s, events[0]);
      RunInv(Apply(s, events[0]), events[1..]);
    }
  }

  /**
   In every interleaving, once close has its list, each client ever registered
   was removed by its worker or is in that list.
   */
  lemma {:induction false} EveryClientIsCovered(events: seq<Event>, c: nat)
    requires ValidRun(START, events) && Exec(START, events).closing.Cancelling?
    requires WasRegistered(Exec(START, events), c)
    ensures ProgressOf(Exec(START, events), c) == Removed || c in Exec(START, events).closing.snapshot
  {
    assert Inv(START);
    RunInv(START, events);
  }

  /** After the closed flag is set nothing is registered, whatever runs on. */
  lemma {:induction false} NoneAfterClose(s: State, events: seq<Event>, c: nat)
    requires Inv(s) && s.closed && ValidRun(s, events) && !WasRegistered(s, c)
    ensures Exec(s, events).closed && !WasRegistered(Exec(s, events), c)
    decreases |events|
  {
    if events != [] {
      StepInv(s, events[0]);
      NoneAfterClose(Apply(s, events[0]), events[1..], c);
    }
  }

  /** The list close works on is taken once and never changes. */
  lemma {:induction false} SnapshotIsFinal(s: State, events: seq<Event>)
    requires Inv(s) && s.closing.Cancelling? && ValidRun(s, events)
    ensures Exec(s, events).closing == s.closing
    decreases |events|
  {
    if events != [] {
      StepInv(s, events[0]);
      SnapshotIsFinal(Apply(s, events[0]), events[1..]);
    }
  }

  /** When close has gone through its list, no registered client is left uncancelled. */
  lemma {:induction false} ClosedMeansCancelled(events: seq<Event>)
    requires ValidRun(START, events)
    requires Exec(START, events).closing.Cancelling?
    requires Exec(START, events).closing.snapshot <= Exec(START, events).cancelled
    ensures forall c: nat :: ProgressOf(Exec(START, events), c) == Registered ==> c in Exec(START, events).cancelled
  {
    assert Inv(START);
    RunInv(START, events);
  }

  /** A client is recorded as cancelled exactly when close has cancelled it. */
  lemma {:induction false} CancelledExactly(s: State, events: seq<Event>, c: nat)
    requires ValidRun(s, events)
    ensures c in Exec(s, events).cancelled <==> c in s.cancelled || Cancel(c) in events
    decreases |events|
  {
    if events != [] {
      CancelledExactly(Apply(s, events[0]), events[1..], c);
      assert events == [events[0]] + events[1..];
    }
  }

  /** Close can always go through the rest of its list. */
  lemma {:induction false} CloseGoesThrough(s: State) returns (events: seq<Event>)
    requires Inv(s) && s.closing.Cancelling?
    ensures ValidRun(s, events) && s.closing.snapshot <= Exec(s, events).cancelled
    decreases s.closing.snapshot - s.cancelled
  {
    events := [];
    if c :| c in s.closing.snapshot && c !in s.cancelled {
      StepInv(s, Cancel(c));
      var rest := CloseGoesThrough(Apply(s, Cancel(c)));
      events := [Cancel(c)] + rest;
      assert events[1..] == rest;
    }
  }

  /** Without the second test under the lock a client could slip in after the list is taken. */
  function ApplyUnchecked(s: State, c: nat): State
    requires Enabled(s, Register(c))
  {
    s.(progress := s.progress[c := Registered], clients := s.clients + {c})
  }

  lemma DoubleCheckNeeded()
    ensures exists events: seq<Event>, c: nat ::
              ValidRun(START, events) && Enabled(Exec(START, events), Register(c))
              && Exec(START, events).closing.Cancelling?
              && !Inv(ApplyUnchecked(Exec(START, events), c))
  {
    var s1 := Apply(START, Admit(0));
    var s2 := Apply(s1, Connect(0));
    var s3 := Apply(s2, CloseFlag);
    var s4 := Apply(s3, Snapshot);
    var events := [Admit(0), Connect(0), CloseFlag, Snapshot];
    assert ValidRun(s4, []);
    assert events[1..] == [Connect(0), CloseFlag, Snapshot];
    assert events[1..][1..] == [CloseFlag, Snapshot];
    assert events[1..][1..][1..] == [Snapshot];
    assert events[1..][1..][1..][1..] == [];
    assert ValidRun(s3, [Snapshot]) && Exec(s3, [Snapshot]) == s4;
    assert ValidRun(s2, [CloseFlag, Snapshot]) && Exec(s2, [CloseFlag, Snapshot]) == s4;
    assert ValidRun(s1, [Connect(0), CloseFlag, Snapshot]) && Exec(s1, [Connect(0), CloseFlag, Snapshot]) == s4;
    assert ValidRun(START, events) && Exec(START, events) == s4;
    var slipped := ApplyUnchecked(s4, 0);
    assert ProgressOf(slipped, 0) == Registered && 0 !in slipped.closing.snapshot;
  }

  // ---- the fields and their lock sections ----

  /** The fields; `state` is what the executions, their workers and the closers are about to do with them. */
  class Registry {
    var closed: bool
    var clients: set<nat>
    ghost var state: State

    ghost predicate Valid()
      reads this
    {
      Inv(state) && state.closed == closed && state.clients == clients
    }

    constructor ()
      ensures Valid() && state == START
    {
      closed, clients := false, {};
      state := START;
    }

    /** The first test of _execute_raw: false where it raises. */
    method Admits(c: nat) returns (admitted: bool)
      requires Valid() && Enabled(state, Admit(c))
      modifies this`state
      ensures Valid() && state == Apply(old(state), Admit(c))
      ensures admitted <==> ProgressOf(state, c) == Admitted
    {
      StepInv(state, Admit(c));
      admitted := !closed;
      state := Apply(state, Admit(c));
    }

    /** The locked section of _execute_raw: false where it disconnects and raises. */
    method RegisterClient(c: nat) returns (registered: bool)
      requires Valid() && Enabled(state, Register(c))
      modifies this
      ensures Valid() && state == Apply(old(state), Register(c))
      ensures registered <==> ProgressOf(state, c) == Registered
      ensures registered <==> !old(closed)
    {
      StepInv(state, Register(c));
      registered := !closed;
      if registered {
        clients := clients + {c};
      }
      state := Apply(state, Register(c));
    }

    /** The locked section at the end of the worker. */
    method RemoveClient(c: nat)
      requires Valid() && Enabled(state, Finish(c))
      modifies this
      ensures Valid() && state == Apply(old(state), Finish(c))
    {
      StepInv(state, Finish(c));
      clients := clients - {c};
      state := Apply(state, Finish(c));
    }

    /** The start of close: set the flag, unless an earlier call did. */
    method MarkClosed() returns (first: bool)
      requires Valid()
      modifies this
      ensures Valid() && state == Apply(old(state), CloseFlag)
      ensures first <==> !old(closed)
    {
      StepInv(state, CloseFlag);
      first := !closed;
      closed := true;
      state := Apply(state, CloseFlag);
    }

    /** The locked section of close: copy the clients to cancel. */
    method TakeSnapshot() returns (snapshot: set<nat>)
      requires Valid() && Enabled(state, Snapshot)
      modifies this`state
      ensures Valid() && state == Apply(old(state), Snapshot)
      ensures state.closing == Cancelling(snapshot)
    {
      StepInv(state, Snapshot);
      snapshot := clients;
      state := Apply(state, Snapshot);
    }

    /** One step, whoever takes it. */
    method Take(e: Event)
      requires Valid() && Enabled(state, e)
      modifies this
      ensures Valid() && state == Apply(old(state), e)
    {
      match e
      case Admit(c) => var _ := Admits(c);
      case Register(c) => var _ := RegisterClient(c);
      case Finish(c) => RemoveClient(c);
      case CloseFlag => var _ := MarkClosed();
      case Snapshot => var _ := TakeSnapshot();
      case _ =>
        StepInv(state, e);
        state := Apply(state, e);
    }

    /** Any interleaving: the fields stay those of the state machine. */
    method TakeAll(events: seq<Event>)
      requires Valid() && ValidRun(state, events)
      modifies this
      ensures Valid() && state == Exec(old(state), events)
    {
      for k := 0 to |events|
        invariant Valid() && ValidRun(state, events[k..])
        invariant Exec(state, events[k..]) == Exec(old(state), events)
      {
        assert events[k..][1..] == events[k + 1..];
        Take(events[k]);
      }
    }
  }

  /**
   After any interleaving from a new registry: once close has its list, every
   client the registry holds is in it, and from then on none comes in.
   */
  method RegistryRun(events: seq<Event>) returns (registry: Registry)
    requires ValidRun(START, events)
    ensures fresh(registry) && registry.Valid() && registry.state == Exec(START, events)
    ensures registry.state.closing.Cancelling? ==> registry.clients <= registry.state.closing.snapshot
    ensures registry.closed <==> registry.state.closing != NotClosing
  {
    registry := new Registry();
    registry.TakeAll(events);
    forall c: nat | c in registry.clients && registry.state.closing.Cancelling?
      ensures c in registry.state.closing.snapshot
    {
      assert ProgressOf(registry.state, c) == Registered;
    }
  }
}
