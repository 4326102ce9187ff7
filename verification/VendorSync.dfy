/**
 The vendor-sync poller: the dispatcher of runOnce, the goroutines it starts and
 the status row of each connection (cmd/vendor-sync/main.go,
 internal/db/vendor_connections.sql.go), as a state machine over their steps.
 */
module VendorSync {
  import opened Options

  type Instant = int

  datatype Status = Pending | Active | Error | InvalidCredentials | Revoked

  datatype Connection = Connection(
    provider: string,
    credential: nat,
    status: Status,
    lastSyncedAt: Option<Instant>,
    lastError: Option<string>,
    externalRef: Option<string>)

  // ---------- the sync of one connection ----------

  datatype Failure = Failure(message: string, invalidCredentials: bool)

  /** How far one discovered device got; the stages are tried in this order and the first failure skips the rest. */
  datatype Attempt = Attempt(
    externalRef: string,
    register: Option<Failure>,
    issueToken: Option<Failure>,
    fetchReading: Option<Failure>,
    submit: Option<Failure>)
  {
    function FirstFailure(): Option<Failure> {
      if register.Some? then register
      else if issueToken.Some? then issueToken
      else if fetchReading.Some? then fetchReading
      else submit
    }
  }

  /** The one Mark call a sync ends with. */
  datatype Outcome = Synced(externalRef: string) | Errored(message: string) | WrongCredentials(message: string)

  function MarkFailure(f: Failure): Outcome {
    if f.invalidCredentials then WrongCredentials(f.message) else Errored(f.message)
  }

  predicate LastFailureIs(attempts: seq<Attempt>, f: Failure) {
    attempts != [] && attempts[|attempts| - 1].FirstFailure() == Some(f)
  }

  predicate SomeSynced(attempts: seq<Attempt>) {
    exists i :: 0 <= i < |attempts| && attempts[i].FirstFailure().None?
  }

  /**
   A sync that got one device through is synced under the first device's reference.  Any
   other is marked with one failure: of binding, of discovery, or the last device's; a
   failure the vendor puts down to the credentials is marked as such, and no other.
   */
  method SyncConnection(bind: Option<Failure>, discovered: Result<seq<Attempt>, Failure>) returns (outcome: Outcome)
    ensures bind.Some? ==>
              outcome == if bind.value.invalidCredentials then WrongCredentials(bind.value.message) else Errored(bind.value.message)
    ensures bind.None? && discovered.Err? ==>
              outcome == if discovered.error.invalidCredentials then WrongCredentials(discovered.error.message)
                         else Errored(discovered.error.message)
    ensures bind.None? && discovered == Ok([]) ==> outcome == Errored("no inverters found on this vendor account")
    ensures bind.None? && discovered.Ok? && discovered.value != [] ==>
              var attempts, last := discovered.value, discovered.value[|discovered.value| - 1];
              if exists i :: 0 <= i < |attempts| && attempts[i].register.None? && attempts[i].issueToken.None?
                             && attempts[i].fetchReading.None? && attempts[i].submit.None?
              then outcome == Synced(attempts[0].externalRef)
              else
                var failed := if last.register.Some? then last.register
                              else if last.issueToken.Some? then last.issueToken
                              else if last.fetchReading.Some? then last.fetchReading
                              else last.submit;
                failed.Some? && outcome == if failed.value.invalidCredentials then WrongCredentials(failed.value.message)
                                           else Errored(failed.value.message)
  {
    if bind.Some? {
      return MarkFailure(bind.value);
    }
    if discovered.Err? {
      return MarkFailure(discovered.error);
    }
    var attempts := discovered.value;
    if |attempts| == 0 {
      return Errored("no inverters found on this vendor account");
    }
    var firstRef := attempts[0].externalRef;
    var syncedAny := false;
    var lastErr: Option<Failure> := None;
    for i := 0 to |attempts|
      invariant syncedAny <==> SomeSynced(attempts[..i])
      invariant !syncedAny && i > 0 ==> lastErr.Some? && LastFailureIs(attempts[..i], lastErr.value)
    {
      assert forall j :: 0 <= j < i ==> attempts[..i + 1][j] == attempts[..i][j];
      assert attempts[..i + 1][i] == attempts[i];
      var failure := attempts[i].FirstFailure();
      if failure.Some? {
        lastErr := failure;
        continue;
      }
      syncedAny := true;
    }
    assert attempts[..|attempts|] == attempts;
    if syncedAny {
      return Synced(firstRef);
    }
    return MarkFailure(lastErr.value);
  }

  // ---------- the poller ----------

  const MAX_CONCURRENT: nat := 8

  /** What the dispatcher holds of a connection: its row as it was when the cycle listed it. */
  datatype Listed = Listed(id: int, provider: string, lastSyncedAt: Option<Instant>)

  /** The goroutine has not marked yet; has marked; has left the semaphore but not the wait group. */
  datatype Stage = Syncing | Marked | Released

  datatype Worker = Worker(id: int, stage: Stage)

  /** `held` is the connection the dispatcher has counted in and waits to start, blocked on the semaphore. */
  datatype Phase = Idle | Dispatching(queue: seq<Listed>, held: Option<Listed>) | Waiting

  /** What the dispatcher decided about a listed connection, and when. */
  datatype Decision = Decision(listed: Listed, at: Instant, dispatched: bool)

  /**
   `sem` and `wg` are the semaphore's and the wait group's counters.  `listing`,
   `decisions` and `marks` record the current cycle, or while idle the last one.
   */
  datatype System = System(
    rows: map<int, Connection>,
    clock: Instant,
    phase: Phase,
    workers: map<nat, Worker>,
    sem: nat,
    wg: nat,
    listing: seq<Listed>,
    decisions: seq<Decision>,
    marks: multiset<int>)

  datatype Action =
    | Tick(now: Instant)
    | List(undecryptable: set<int>)
    | Skip
    | Decide
    | Start(worker: nat)
    | EndDispatch
    | EndCycle
    | RefreshToken(worker: nat, credential: nat)
    | Mark(worker: nat, outcome: Outcome, applied: bool)
    | Release(worker: nat)
    | Done(worker: nat)
    | Create(id: int, connection: Connection)
    | Revoke(id: int)

  /** The providers the binary knows, with their poll intervals. */
  type Providers = map<string, Instant>

  predicate Pollable(s: Status) {
    s in {Pending, Active, Error}
  }

  predicate Due(c: Listed, ps: Providers, now: Instant)
    requires c.provider in ps
  {
    c.lastSyncedAt.None? || now - c.lastSyncedAt.value >= ps[c.provider]
  }

  predicate ShouldDispatch(c: Listed, ps: Providers, now: Instant) {
    c.provider in ps && Due(c, ps, now)
  }

  /** The pollable rows that decrypt, by id, as they are now. */
  ghost predicate IsListing(rows: map<int, Connection>, undecryptable: set<int>, listing: seq<Listed>) {
    && (forall i, j :: 0 <= i < j < |listing| ==> listing[i].id < listing[j].id)
    && (forall i :: 0 <= i < |listing| ==>
          var c := listing[i];
          && c.id in rows && c.id !in undecryptable && Pollable(rows[c.id].status)
          && c.provider == rows[c.id].provider && c.lastSyncedAt == rows[c.id].lastSyncedAt)
    && (forall id :: id in rows && id !in undecryptable && Pollable(rows[id].status) ==>
          exists i :: 0 <= i < |listing| && listing[i].id == id)
  }

  function Marking(c: Connection, outcome: Outcome, now: Instant): Connection {
    match outcome
    case Synced(ref) => c.(status := Active, lastSyncedAt := Some(now), lastError := None, externalRef := Some(ref))
    case Errored(msg) => c.(status := Error, lastError := Some(msg))
    case WrongCredentials(msg) => c.(status := InvalidCredentials, lastError := Some(msg))
  }

  ghost predicate Step(ps: Providers, s: System, a: Action, s': System) {
    match a
    case Tick(now) => now >= s.clock && s' == s.(clock := now)
    case List(undecryptable) =>
      && s.phase.Idle?
      && IsListing(s.rows, undecryptable, s'.listing)
      && s' == s.(phase := Dispatching(s'.listing, None), listing := s'.listing, decisions := [], marks := multiset{})
    case Skip =>
      && s.phase.Dispatching? && s.phase.held.None? && s.phase.queue != []
      && var c := s.phase.queue[0];
         && !ShouldDispatch(c, ps, s.clock)
         && s' == s.(phase := Dispatching(s.phase.queue[1..], None), decisions := s.decisions + [Decision(c, s.clock, false)])
    case Decide =>
      && s.phase.Dispatching? && s.phase.held.None? && s.phase.queue != []
      && var c := s.phase.queue[0];
         && ShouldDispatch(c, ps, s.clock)
         && s' == s.(phase := Dispatching(s.phase.queue[1..], Some(c)), decisions := s.decisions + [Decision(c, s.clock, true)],
                     wg := s.wg + 1)
    case Start(w) =>
      && s.phase.Dispatching? && s.phase.held.Some? && s.sem < MAX_CONCURRENT && w !in s.workers
      && s' == s.(phase := Dispatching(s.phase.queue, None),
                  workers := s.workers[w := Worker(s.phase.held.value.id, Syncing)], sem := s.sem + 1)
    case EndDispatch => s.phase == Dispatching([], None) && s' == s.(phase := Waiting)
    case EndCycle => s.phase.Waiting? && s.wg == 0 && s' == s.(phase := Idle)
    case RefreshToken(w, credential) =>
      && w in s.workers && s.workers[w].stage.Syncing?
      && var id := s.workers[w].id;
         s' == s.(rows := if id in s.rows then s.rows[id := s.rows[id].(credential := credential)] else s.rows)
    case Mark(w, outcome, applied) =>
      && w in s.workers && s.workers[w].stage.Syncing?
      && var id := s.workers[w].id;
         s' == s.(rows := if applied && id in s.rows then s.rows[id := Marking(s.rows[id], outcome, s.clock)] else s.rows,
                  workers := s.workers[w := s.workers[w].(stage := Marked)],
                  marks := s.marks + multiset{id})
    case Release(w) =>
      && w in s.workers && s.workers[w].stage.Marked? && s.sem > 0
      && s' == s.(workers := s.workers[w := s.workers[w].(stage := Released)], sem := s.sem - 1)
    case Done(w) =>
      && w in s.workers && s.workers[w].stage.Released? && s.wg > 0
      && s' == s.(workers := s.workers - {w}, wg := s.wg - 1)
    case Create(id, c) =>
      && id !in s.rows && c.status.Pending? && c.lastSyncedAt.None?
      && (forall j :: j in s.rows ==> j < id)
      && s' == s.(rows := s.rows[id := c])
    case Revoke(id) =>
      && s' == s.(rows := if id in s.rows then s.rows[id := s.rows[id].(status := Revoked)] else s.rows)
  }

  predicate Init(s: System) {
    && s.phase.Idle? && s.workers == map[] && s.sem == 0 && s.wg == 0
    && s.listing == [] && s.decisions == [] && s.marks == multiset{}
  }

  ghost predicate IsRun(ps: Providers, states: seq<System>, actions: seq<Action>) {
    && |states| == |actions| + 1 && Init(states[0])
    && forall i :: 0 <= i < |actions| ==> Step(ps, states[i], actions[i], states[i + 1])
  }
}
