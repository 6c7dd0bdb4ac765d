/**
 Query execution with a pinned server identity and bounded reconnects.

 Every connection the adapter opens is an input: which server answers it and
 where it fails.  Other tasks of the same adapter may pin the identity at any
 await; that is an input as well.
 */
module AdapterRetry {
  import opened Prelude

  datatype Identity = Identity(database: string, version: string, hostname: string)

  datatype FailureKind =
    | QueryTimeout | TransportDisconnect | PermissionDenied | UnsupportedCapability
    | ReadLimit | ResultLimit | QueryCanceled | Unclassified

  /** An exception: its failure_kind, and whether it is ClickHouseIdentityChangedError. */
  datatype Failure = Failure(kind: FailureKind, identityChanged: bool)

  /** One connection: the server behind it, where it fails, and how a changed identity would classify. */
  datatype Connection = Connection(
    server: Identity, identityFails: Option<Failure>, queryFails: Option<Failure>, changedKind: FailureKind,
    pinnedBefore: Option<Identity>, pinnedAfter: Option<Identity>)

  datatype Rows = Rows(server: Identity)

  /** What client.execute was asked to do, and on which server. */
  datatype Sent =
    | IdentityQuery(server: Identity)
    | ContextQuery(server: Identity)
    | UserQuery(sql: string, server: Identity)

  /** The two connections of one runtime-context read, and the failures of its own checks. */
  datatype ContextRead = ContextRead(
    first: Connection, second: Connection, noRows: Option<Failure>, checkFails: Option<Failure>)

  /** One reconnect attempt: the identity check, then the query again. */
  datatype Attempt = Attempt(context: ContextRead, query: Connection)

  /** What a caller can ask of the adapter. */
  datatype Operation =
    | Detect(read: ContextRead)
    | Verify(read: ContextRead, changedKind: FailureKind)
    | Execute(sql: string, first: Connection, attempts: seq<Attempt>)

  /** What one turn of _execute_with_reconnect did. */
  datatype Turn = Turn(verified: bool, sent: bool, failure: Option<Failure>)

  /** The identity is written at most once. */
  predicate PinStep(before: Option<Identity>, after: Option<Identity>) {
    before.Some? ==> after == before
  }

  ghost predicate EachKeepsPin(states: seq<Option<Identity>>) {
    forall k :: 0 <= k < |states| - 1 ==> PinStep(states[k], states[k + 1])
  }

  function QueryCount(log: seq<Sent>, sql: string): nat {
    if log == [] then 0
    else
      QueryCount(log[..|log| - 1], sql)
      + if log[|log| - 1].UserQuery? && log[|log| - 1].sql == sql then 1 else 0
  }

  lemma {:induction false} QueryCountAppend(a: seq<Sent>, b: seq<Sent>, sql: string)
    ensures QueryCount(a + b, sql) == QueryCount(a, sql) + QueryCount(b, sql)
  {
    if b == [] {
      assert a + b == a;
    } else {
      QueryCountAppend(a, b[..|b| - 1], sql);
      assert (a + b)[..|a + b| - 1] == a + b[..|b| - 1];
    }
  }

  /** How often the turns sent the query. */
  function SentTurns(turns: seq<Turn>): nat {
    if turns == [] then 0 else SentTurns(turns[..|turns| - 1]) + if turns[|turns| - 1].sent then 1 else 0
  }

  /** The failure that lets the loop go on to another attempt. */
  predicate Retryable(turn: Turn, first: bool) {
    turn.failure.Some? && turn.failure.value.kind == TransportDisconnect
    && (first || !turn.failure.value.identityChanged)
  }

  /** Every turn after the first follows a disconnect and sends the query only after its identity check. */
  ghost predicate TurnsFollowProtocol(turns: seq<Turn>) {
    && (forall k :: 0 <= k < |turns| - 1 ==> Retryable(turns[k], k == 0))
    && (forall k :: 0 < k < |turns| && turns[k].sent ==> turns[k].verified)
  }

  /** One more query was sent, right after the identity query if there was one. */
  predicate CheckedThenSent(before: seq<Sent>, after: seq<Sent>, query: Sent, server: Identity) {
    after == before + [query] || after == before + [IdentityQuery(server), query]
  }

  // ---- the outcome as a function of the connections ----

  /** The identity that is pinned after another task may have pinned `other`. */
  function PinnedBy(identity: Option<Identity>, other: Option<Identity>): Option<Identity> {
    if identity.None? then other else identity
  }

  /** The worker sends the query: nothing is pinned yet, or its identity check succeeds. */
  predicate Admits(pinned: Option<Identity>, c: Connection) {
    pinned.None? || (c.identityFails.None? && c.server == pinned.value)
  }

  function IdentityAfter(identity: Option<Identity>, c: Connection): Option<Identity> {
    PinnedBy(PinnedBy(identity, c.pinnedBefore), c.pinnedAfter)
  }

  function ExecResult(identity: Option<Identity>, c: Connection): Result<Rows, Failure> {
    if Admits(PinnedBy(identity, c.pinnedBefore), c) then
      if c.queryFails.Some? then Err(c.queryFails.value) else Ok(Rows(c.server))
    else if c.identityFails.Some? then Err(c.identityFails.value)
    else Err(Failure(c.changedKind, true))
  }

  function ReadResult(identity: Option<Identity>, read: ContextRead): Result<Identity, Failure> {
    var first := ExecResult(identity, read.first);
    var second := ExecResult(IdentityAfter(identity, read.first), read.second);
    if first.Err? then Err(first.error)
    else if read.noRows.Some? then Err(read.noRows.value)
    else if second.Err? then Err(second.error)
    else if read.checkFails.Some? then Err(read.checkFails.value)
    else Ok(first.value.server)
  }

  /** What is pinned when a context read ends; it ends early when its first half fails. */
  function IdentityAfterRead(identity: Option<Identity>, read: ContextRead): Option<Identity> {
    var between := IdentityAfter(identity, read.first);
    if ExecResult(identity, read.first).Err? || read.noRows.Some? then between else IdentityAfter(between, read.second)
  }

  /** The failure of an identity check, and what is pinned after it. */
  function CheckFailure(identity: Option<Identity>, read: ContextRead, changedKind: FailureKind): Option<Failure> {
    var actual, pinned := ReadResult(identity, read), IdentityAfterRead(identity, read);
    if actual.Err? then Some(actual.error)
    else if pinned.Some? && pinned.value != actual.value then Some(Failure(changedKind, true))
    else None
  }

  function IdentityAfterCheck(identity: Option<Identity>, read: ContextRead): Option<Identity> {
    var actual, pinned := ReadResult(identity, read), IdentityAfterRead(identity, read);
    if actual.Ok? && pinned.None? then Some(actual.value) else pinned
  }

  function AttemptResult(identity: Option<Identity>, a: Attempt): Result<Rows, Failure> {
    var failure := CheckFailure(identity, a.context, a.query.changedKind);
    if failure.Some? then Err(failure.value) else ExecResult(IdentityAfterCheck(identity, a.context), a.query)
  }

  function IdentityAfterAttempt(identity: Option<Identity>, a: Attempt): Option<Identity> {
    var pinned := IdentityAfterCheck(identity, a.context);
    if CheckFailure(identity, a.context, a.query.changedKind).Some? then pinned else IdentityAfter(pinned, a.query)
  }

  /** The failure lets the loop go on. */
  predicate GoesOn(r: Result<Rows, Failure>) {
    r.Err? && r.error.kind == TransportDisconnect && !r.error.identityChanged
  }

  /** The outcome of the loop from attempt k on. */
  function RetryResult(identity: Option<Identity>, attempts: seq<Attempt>, k: nat): Result<Rows, Failure>
    requires k < |attempts|
    decreases |attempts| - k
  {
    var r := AttemptResult(identity, attempts[k]);
    if GoesOn(r) && k + 1 < |attempts| then RetryResult(IdentityAfterAttempt(identity, attempts[k]), attempts, k + 1)
    else r
  }

  /** The outcome of _execute_with_reconnect. */
  function Outcome(identity: Option<Identity>, first: Connection, attempts: seq<Attempt>): Result<Rows, Failure> {
    var r := ExecResult(identity, first);
    if r.Err? && r.error.kind == TransportDisconnect && attempts != [] then
      RetryResult(IdentityAfter(identity, first), attempts, 0)
    else r
  }

  class Adapter {
    const reconnectAttempts: nat
    var identity: Option<Identity>
    ghost var log: seq<Sent>

    constructor (reconnectAttempts: nat)
      ensures this.reconnectAttempts == reconnectAttempts && identity == None && log == []
    {
      this.reconnectAttempts, identity, log := reconnectAttempts, None, [];
    }

    /** Another task pins the identity while this one awaits. */
    method Interfere(other: Option<Identity>)
      modifies this`identity
      ensures PinStep(old(identity), identity)
      ensures identity == if old(identity).None? then other else old(identity)
    {
      if identity.None? {
        identity := other;
      }
    }

    /** _execute_raw: the worker checks the identity it finds pinned, then sends the query. */
    method ExecuteRaw(query: Identity -> Sent, c: Connection) returns (result: Result<Rows, Failure>, sent: bool)
      modifies this
      ensures PinStep(old(identity), identity)
      ensures sent ==> CheckedThenSent(old(log), log, query(c.server), c.server)
      ensures !sent ==> log == old(log) || log == old(log) + [IdentityQuery(c.server)]
      ensures result == ExecResult(old(identity), c) && identity == IdentityAfter(old(identity), c)
      ensures sent <==> Admits(PinnedBy(old(identity), c.pinnedBefore), c)
      ensures result.Ok? ==> sent && result.value.server == c.server
      ensures sent && old(identity).Some? ==>
                c.server == old(identity).value && log == old(log) + [IdentityQuery(c.server), query(c.server)]
    {
      Interfere(c.pinnedBefore);
      var expected := identity;
      sent := false;
      if expected.Some? {
        log := log + [IdentityQuery(c.server)];
        if c.identityFails.Some? {
          Interfere(c.pinnedAfter);
          return Err(c.identityFails.value), false;
        }
        if c.server != expected.value {
          Interfere(c.pinnedAfter);
          return Err(Failure(c.changedKind, true)), false;
        }
      }
      log := log + [query(c.server)];
      sent := true;
      if c.queryFails.Some? {
        result := Err(c.queryFails.value);
      } else {
        result := Ok(Rows(c.server));
      }
      Interfere(c.pinnedAfter);
    }

    /** _read_runtime_context: two queries, the first of which tells the identity. */
    method ReadRuntimeContext(read: ContextRead) returns (result: Result<Identity, Failure>)
      modifies this
      ensures PinStep(old(identity), identity)
      ensures forall sql :: QueryCount(log, sql) == QueryCount(old(log), sql)
      ensures result == ReadResult(old(identity), read) && identity == IdentityAfterRead(old(identity), read)
      ensures result.Ok? ==> result.value == read.first.server
      ensures result.Ok? && old(identity).Some? ==> read.first.server == old(identity).value
    {
      var first, sent := ExecuteRaw(s => ContextQuery(s), read.first);
      ContextQueriesDoNotCount(old(log), log);
      if first.Err? {
        return Err(first.error);
      }
      if read.noRows.Some? {
        return Err(read.noRows.value);
      }
      ghost var middle := log;
      var second, sentAgain := ExecuteRaw(s => ContextQuery(s), read.second);
      ContextQueriesDoNotCount(middle, log);
      if second.Err? {
        return Err(second.error);
      }
      if read.checkFails.Some? {
        return Err(read.checkFails.value);
      }
      result := Ok(first.value.server);
    }

    /** detect_runtime_context: pin the identity, or compare with the pinned one. */
    method DetectRuntimeContext(read: ContextRead) returns (result: Result<Identity, Failure>)
      modifies this
      ensures PinStep(old(identity), identity)
      ensures result.Ok? ==> identity == Some(result.value)
      ensures result.Ok? ==> result.value == read.first.server
      ensures result.Ok? <==> CheckFailure(old(identity), read, Unclassified).None?
      ensures identity == IdentityAfterCheck(old(identity), read)
      ensures forall sql :: QueryCount(log, sql) == QueryCount(old(log), sql)
    {
      result := ReadRuntimeContext(read);
      if result.Err? {
        return;
      }
      if identity.None? {
        identity := Some(result.value);
      } else if identity.value != result.value {
        result := Err(Failure(Unclassified, true));
      }
    }

    /** _verify_reconnect_identity */
    method VerifyReconnectIdentity(read: ContextRead, changedKind: FailureKind) returns (failure: Option<Failure>)
      modifies this
      ensures PinStep(old(identity), identity)
      ensures forall sql :: QueryCount(log, sql) == QueryCount(old(log), sql)
      ensures failure == CheckFailure(old(identity), read, changedKind)
      ensures identity == IdentityAfterCheck(old(identity), read)
      ensures failure.None? ==> identity == Some(read.first.server)
    {
      var actual := ReadRuntimeContext(read);
      if actual.Err? {
        return Some(actual.error);
      }
      if identity.None? {
        identity := Some(actual.value);
        return None;
      }
      failure := if identity.value == actual.value then None else Some(Failure(changedKind, true));
    }

    /** The first execution of _execute_with_reconnect. */
    method FirstTurn(sql: string, c: Connection) returns (turn: Turn, result: Result<Rows, Failure>)
      modifies this
      ensures PinStep(old(identity), identity)
      ensures QueryCount(log, sql) == QueryCount(old(log), sql) + if turn.sent then 1 else 0
      ensures turn.failure.None? <==> result.Ok?
      ensures result.Err? ==> turn.failure == Some(result.error)
      ensures result == ExecResult(old(identity), c) && identity == IdentityAfter(old(identity), c)
      ensures result.Ok? ==> turn.sent && (old(identity).Some? ==> result.value.server == old(identity).value)
    {
      var sent;
      result, sent := ExecuteRaw(s => UserQuery(sql, s), c);
      UserQueryCounts(old(log), log, sql, c.server, sent);
      turn := Turn(false, sent, if result.Ok? then None else Some(result.error));
    }

    /** One attempt of the loop: the identity check, then the query. */
    method AttemptTurn(sql: string, attempt: Attempt) returns (turn: Turn, result: Result<Rows, Failure>)
      modifies this
      ensures PinStep(old(identity), identity)
      ensures QueryCount(log, sql) == QueryCount(old(log), sql) + if turn.sent then 1 else 0
      ensures turn.failure.None? <==> result.Ok?
      ensures result.Err? ==> turn.failure == Some(result.error)
      ensures result == AttemptResult(old(identity), attempt)
      ensures identity == IdentityAfterAttempt(old(identity), attempt)
      ensures turn.sent ==> turn.verified && identity.Some?
      ensures turn.verified ==> identity == Some(attempt.context.first.server)
      ensures result.Ok? ==> turn.sent && identity == Some(result.value.server)
    {
      var failure := VerifyReconnectIdentity(attempt.context, attempt.query.changedKind);
      if failure.Some? {
        return Turn(false, false, failure), Err(failure.value);
      }
      ghost var middle := log;
      var sent;
      result, sent := ExecuteRaw(s => UserQuery(sql, s), attempt.query);
      UserQueryCounts(middle, log, sql, attempt.query.server, sent);
      turn := Turn(true, sent, if result.Ok? then None else Some(result.error));
    }

    /**
     _execute_with_reconnect: at most one execution and `reconnectAttempts`
     repetitions, each after a disconnect and a successful identity check.
     */
    method ExecuteWithReconnect(sql: string, first: Connection, attempts: seq<Attempt>)
      returns (result: Result<Rows, Failure>, turns: seq<Turn>)
      requires |attempts| == reconnectAttempts
      modifies this
      ensures result == Outcome(old(identity), first, attempts)
      ensures PinStep(old(identity), identity)
      ensures 1 <= |turns| <= 1 + reconnectAttempts && TurnsFollowProtocol(turns)
      ensures QueryCount(log, sql) - QueryCount(old(log), sql) == SentTurns(turns) <= 1 + reconnectAttempts
      ensures result.Ok? <==> turns[|turns| - 1].failure.None?
      ensures result.Err? ==> turns[|turns| - 1].failure == Some(result.error)
      ensures result.Err? && Retryable(turns[|turns| - 1], |turns| == 1) ==> |turns| == 1 + reconnectAttempts
      ensures result.Ok? && (old(identity).Some? || |turns| > 1) ==> identity == Some(result.value.server)
    {
      var turn;
      turn, result := FirstTurn(sql, first);
      turns := [turn];
      if result.Ok? || !Retryable(turn, true) || reconnectAttempts == 0 {
        return;
      }
      for k := 0 to reconnectAttempts
        invariant PinStep(old(identity), identity)
        invariant |turns| == 1 + k && TurnsFollowProtocol(turns)
        invariant QueryCount(log, sql) - QueryCount(old(log), sql) == SentTurns(turns) <= |turns|
        invariant Retryable(turns[|turns| - 1], |turns| == 1)
        invariant result.Err? && turns[|turns| - 1].failure == Some(result.error)
        invariant k == reconnectAttempts ==> result == Outcome(old(identity), first, attempts)
        invariant k < reconnectAttempts ==>
                    RetryResult(identity, attempts, k) == Outcome(old(identity), first, attempts)
      {
        turn, result := AttemptTurn(sql, attempts[k]);
        SentStep(turns, turn);
        ProtocolStep(turns, turn);
        turns := turns + [turn];
        if result.Ok? || !Retryable(turn, false) {
          return;
        }
      }
    }

    /** One operation of the adapter, whatever its connections answer. */
    method Perform(op: Operation)
      requires op.Execute? ==> |op.attempts| == reconnectAttempts
      modifies this
      ensures PinStep(old(identity), identity)
    {
      match op
      case Detect(read) => var context := DetectRuntimeContext(read);
      case Verify(read, changedKind) => var failure := VerifyReconnectIdentity(read, changedKind);
      case Execute(sql, first, attempts) => var result, turns := ExecuteWithReconnect(sql, first, attempts);
    }

    /** Any series of operations: the identities that were pinned before and after each of them. */
    method PerformAll(ops: seq<Operation>) returns (states: seq<Option<Identity>>)
      requires forall k :: 0 <= k < |ops| && ops[k].Execute? ==> |ops[k].attempts| == reconnectAttempts
      modifies this
      ensures |states| == |ops| + 1 && states[0] == old(identity) && states[|ops|] == identity
      ensures forall i, j :: 0 <= i <= j < |states| && states[i].Some? ==> states[j] == states[i]
    {
      states := [identity];
      for k := 0 to |ops|
        invariant |states| == k + 1 && states[0] == old(identity) && states[k] == identity
        invariant EachKeepsPin(states)
      {
        Perform(ops[k]);
        states := states + [identity];
      }
      forall i, j | 0 <= i <= j < |states| && states[i].Some?
        ensures states[j] == states[i]
      {
        PinnedForever(states, i, j);
      }
    }
  }

  lemma ProtocolStep(turns: seq<Turn>, turn: Turn)
    requires TurnsFollowProtocol(turns) && turns != [] && Retryable(turns[|turns| - 1], |turns| == 1)
    requires turn.sent ==> turn.verified
    ensures TurnsFollowProtocol(turns + [turn])
  {
  }

  lemma {:induction false} SentStep(turns: seq<Turn>, turn: Turn)
    ensures SentTurns(turns + [turn]) == SentTurns(turns) + if turn.sent then 1 else 0
  {
    assert (turns + [turn])[..|turns|] == turns;
  }

  lemma {:induction false} ContextQueriesDoNotCount(before: seq<Sent>, after: seq<Sent>)
    requires before <= after && forall i :: |before| <= i < |after| ==> !after[i].UserQuery?
    ensures forall sql :: QueryCount(after, sql) == QueryCount(before, sql)
  {
    var added := after[|before|..];
    assert after == before + added;
    forall sql
      ensures QueryCount(after, sql) == QueryCount(before, sql)
    {
      QueryCountAppend(before, added, sql);
      NoUserQueries(added, sql);
    }
  }

  lemma {:induction false} NoUserQueries(log: seq<Sent>, sql: string)
    requires forall i :: 0 <= i < |log| ==> !log[i].UserQuery?
    ensures QueryCount(log, sql) == 0
  {
    if log != [] {
      NoUserQueries(log[..|log| - 1], sql);
    }
  }

  lemma {:induction false} OneMoreSent(log: seq<Sent>, query: Sent, sql: string)
    ensures QueryCount(log + [query], sql)
         == QueryCount(log, sql) + if query.UserQuery? && query.sql == sql then 1 else 0
  {
    assert (log + [query])[..|log|] == log;
  }

  lemma {:induction false} UserQueryCounts(
      before: seq<Sent>, after: seq<Sent>, sql: string, server: Identity, sent: bool)
    requires sent ==> CheckedThenSent(before, after, UserQuery(sql, server), server)
    requires !sent ==> after == before || after == before + [IdentityQuery(server)]
    ensures QueryCount(after, sql) == QueryCount(before, sql) + if sent then 1 else 0
  {
    OneMoreSent(before, IdentityQuery(server), sql);
    if sent {
      OneMoreSent(before, UserQuery(sql, server), sql);
      OneMoreSent(before + [IdentityQuery(server)], UserQuery(sql, server), sql);
      assert before + [IdentityQuery(server), UserQuery(sql, server)]
          == before + [IdentityQuery(server)] + [UserQuery(sql, server)];
    }
  }

  /** Over any series of operations the identity is written at most once. */
  lemma {:induction false} PinnedForever(states: seq<Option<Identity>>, i: nat, j: nat)
    requires EachKeepsPin(states)
    requires i <= j < |states| && states[i].Some?
    ensures states[j] == states[i]
  {
    if i < j {
      PinnedForever(states, i, j - 1);
    }
  }

  // ---- what the loop achieves ----

  predicate Sound(c: Connection, server: Identity) {
    c.server == server && c.identityFails.None? && c.queryFails.None?
  }

  /** Every connection of the attempt reaches this server and works. */
  predicate Healthy(a: Attempt, server: Identity) {
    && Sound(a.context.first, server) && Sound(a.context.second, server) && Sound(a.query, server)
    && a.context.noRows.None? && a.context.checkFails.None?
  }

  lemma PinnedStays(server: Identity, a: Attempt)
    ensures IdentityAfterAttempt(Some(server), a) == Some(server)
  {
  }

  lemma {:induction false} RetrySucceeds(server: Identity, attempts: seq<Attempt>, k: nat, j: nat)
    requires k <= j < |attempts| && Healthy(attempts[j], server)
    requires forall i :: k <= i < j ==> GoesOn(AttemptResult(Some(server), attempts[i]))
    ensures RetryResult(Some(server), attempts, k) == Ok(Rows(server))
    decreases j - k
  {
    if k < j {
      PinnedStays(server, attempts[k]);
      RetrySucceeds(server, attempts, k + 1, j);
    }
  }

  /**
   With a pinned server, disconnects are survived: the first healthy attempt
   among the allowed ones brings the rows, if only disconnects came before it.
   */
  lemma ReconnectSucceeds(server: Identity, first: Connection, attempts: seq<Attempt>, j: nat)
    requires j < |attempts| && Healthy(attempts[j], server)
    requires ExecResult(Some(server), first).Err?
    requires ExecResult(Some(server), first).error.kind == TransportDisconnect
    requires forall i :: 0 <= i < j ==> GoesOn(AttemptResult(Some(server), attempts[i]))
    ensures Outcome(Some(server), first, attempts) == Ok(Rows(server))
  {
    RetrySucceeds(server, attempts, 0, j);
  }

  /** An attempt that finds another server ends the loop, whatever the attempts behind it would bring. */
  lemma {:induction false} ChangedServerStops(server: Identity, attempts: seq<Attempt>, k: nat, j: nat)
    requires k <= j < |attempts|
    requires attempts[j].context.first.server != server && attempts[j].context.first.identityFails.None?
    requires forall i :: k <= i < j ==> GoesOn(AttemptResult(Some(server), attempts[i]))
    ensures RetryResult(Some(server), attempts, k) == Err(Failure(attempts[j].context.first.changedKind, true))
    decreases j - k
  {
    if k < j {
      PinnedStays(server, attempts[k]);
      ChangedServerStops(server, attempts, k + 1, j);
    }
  }

  /** Rows never come from a server other than the pinned one. */
  lemma {:induction false} RowsFromPinned(server: Identity, attempts: seq<Attempt>, k: nat)
    requires k < |attempts| && RetryResult(Some(server), attempts, k).Ok?
    ensures RetryResult(Some(server), attempts, k) == Ok(Rows(server))
    decreases |attempts| - k
  {
    var r := AttemptResult(Some(server), attempts[k]);
    if GoesOn(r) && k + 1 < |attempts| {
      PinnedStays(server, attempts[k]);
      RowsFromPinned(server, attempts, k + 1);
    }
  }

  // ---- a healthy server ----

  /** A working connection to the pinned server, or to any when none is pinned, answers at once. */
  lemma HealthyAnswers(identity: Option<Identity>, first: Connection, attempts: seq<Attempt>)
    requires Sound(first, first.server)
    requires identity.None? || identity.value == first.server
    requires identity.None? ==> first.pinnedBefore.None? || first.pinnedBefore.value == first.server
    ensures Outcome(identity, first, attempts) == Ok(Rows(first.server))
  {
  }

  /** Rows come only from a connection whose query works and whose server is the pinned one, if any is pinned. */
  lemma RowsNeedHealth(identity: Option<Identity>, c: Connection)
    ensures ExecResult(identity, c).Ok? ==>
              c.queryFails.None? && ExecResult(identity, c).value.server == c.server
              && (identity.Some? ==> identity.value == c.server && c.identityFails.None?)
  {
  }

  /** Only a disconnect is repeated: any other failure of the first query is the outcome. */
  lemma OtherFailuresStop(identity: Option<Identity>, first: Connection, attempts: seq<Attempt>)
    requires ExecResult(identity, first).Err? && ExecResult(identity, first).error.kind != TransportDisconnect
    ensures Outcome(identity, first, attempts) == Err(ExecResult(identity, first).error)
  {
  }

  /** Without attempts left a disconnect is the outcome as well. */
  lemma NoAttemptNoRepeat(identity: Option<Identity>, first: Connection)
    ensures Outcome(identity, first, []) == ExecResult(identity, first)
  {
  }

  /** A context read succeeds only if both queries do and all of its checks hold. */
  lemma ContextNeedsEverything(identity: Option<Identity>, read: ContextRead)
    ensures ReadResult(identity, read).Ok? <==>
              && ExecResult(identity, read.first).Ok? && read.noRows.None?
              && ExecResult(IdentityAfter(identity, read.first), read.second).Ok? && read.checkFails.None?
    ensures ReadResult(identity, read).Ok? ==> ReadResult(identity, read).value == read.first.server
  {
  }

  /** What follows an attempt: a disconnect goes on to the next one, anything else is the outcome. */
  lemma AttemptDecides(identity: Option<Identity>, attempts: seq<Attempt>, k: nat)
    requires k < |attempts|
    ensures var r := AttemptResult(identity, attempts[k]);
            var goesOn := r.Err? && r.error.kind == TransportDisconnect && !r.error.identityChanged
                          && k + 1 < |attempts|;
            RetryResult(identity, attempts, k) ==
              if goesOn then RetryResult(IdentityAfterAttempt(identity, attempts[k]), attempts, k + 1) else r
  {
  }

  /** An identity check that reads another identity than the pinned one raises the error that is never repeated. */
  lemma MismatchIsFinal(identity: Option<Identity>, read: ContextRead, changedKind: FailureKind)
    requires ReadResult(identity, read).Ok?
    ensures var pinned := IdentityAfterRead(identity, read);
            CheckFailure(identity, read, changedKind) ==
              if pinned.Some? && pinned.value != read.first.server then Some(Failure(changedKind, true)) else None
    ensures identity.Some? ==> IdentityAfterRead(identity, read) == identity
  {
  }
}
