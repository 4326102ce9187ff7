/**
 What becomes of a connection's row over a run of the poller: successful syncs are a
 poll interval apart on every run; revoked and rejected connections stay so, and are
 left alone, on the runs in which every revocation finds its connection out of play.
 */
module VendorStatus {
  import opened Options
  import opened VendorSync
  import opened VendorRevocation
  import opened VendorSyncTheorems

  /** A revocation lands only where it is permanent: when the connection is out of play. */
  ghost predicate Guarded(ps: Providers, s: System, a: Action) {
    a.Revoke? ==> OutOfPlay(ps, s, a.id)
  }

  ghost predicate IsGuardedRun(ps: Providers, states: seq<System>, actions: seq<Action>) {
    && IsRun(ps, states, actions)
    && forall i :: 0 <= i < |actions| ==> Guarded(ps, states[i], actions[i])
  }

  // ---------- what the dispatcher holds of a row is still so ----------

  ghost predicate RowMatches(ps: Providers, rows: map<int, Connection>, c: Listed, guarded: bool) {
    && c.id in rows && rows[c.id].provider == c.provider && rows[c.id].lastSyncedAt == c.lastSyncedAt
    && (guarded && c.provider in ps ==> Pollable(rows[c.id].status))
  }

  ghost predicate ReadyRow(ps: Providers, rows: map<int, Connection>, id: int, now: Instant, guarded: bool) {
    && id in rows && ShouldDispatch(ListedRow(id, rows[id]), ps, now)
    && (guarded ==> Pollable(rows[id].status))
  }

  ghost predicate QueueMatches(ps: Providers, s: System, guarded: bool) {
    forall c :: c in Queue(s) ==> RowMatches(ps, s.rows, c, guarded)
  }

  ghost predicate SyncsAreReady(ps: Providers, s: System, guarded: bool) {
    && (Held(s).Some? ==> ReadyRow(ps, s.rows, Held(s).value.id, s.clock, guarded))
    && (forall w :: w in s.workers && s.workers[w].stage.Syncing? ==> ReadyRow(ps, s.rows, s.workers[w].id, s.clock, guarded))
  }

  ghost predicate SnapshotsHold(ps: Providers, s: System, guarded: bool) {
    QueueMatches(ps, s, guarded) && SyncsAreReady(ps, s, guarded)
  }

  lemma QueueIsFresh(ps: Providers, s: System, c: Listed)
    requires DecidesInOrder(ps, s) && c in Queue(s)
    ensures c.id !in DispatchedIds(s.decisions)
    ensures exists j :: 0 <= j < |s.listing| && s.listing[j].id == c.id
  {
    HeadIsFresh(ps, s);
    var i :| 0 <= i < |Queue(s)| && Queue(s)[i] == c;
    assert Queue(s)[i] == s.listing[|s.decisions| + i] && Queue(s)[0] == s.listing[|s.decisions|];
  }

  /** The row of `id` matters neither to the queue nor to a sync. */
  ghost predicate Untracked(s: System, id: int) {
    && (forall c :: c in Queue(s) ==> c.id != id)
    && (Held(s).Some? ==> Held(s).value.id != id)
    && (forall w :: w in s.workers && s.workers[w].stage.Syncing? ==> s.workers[w].id != id)
  }

  /** After its Mark, a connection is no longer tracked in this cycle. */
  lemma MarkedIsUntracked(ps: Providers, s: System, w: nat, s': System)
    requires Inv(ps, s) && w in s.workers && s'.phase == s.phase
    requires s'.workers == s.workers[w := s.workers[w].(stage := Marked)]
    ensures Untracked(s', s.workers[w].id)
  {
    forall c | c in Queue(s) ensures c.id != s.workers[w].id {
      QueueIsFresh(ps, s, c);
    }
  }

  lemma UntrackedRowMayChange(ps: Providers, s: System, s': System, id: int, guarded: bool)
    requires SnapshotsHold(ps, s, guarded) && Untracked(s', id)
    requires s'.phase == s.phase && s'.clock == s.clock
    requires forall w :: w in s'.workers && s'.workers[w].stage.Syncing? ==> w in s.workers && s'.workers[w] == s.workers[w]
    requires forall j :: j in s.rows && j != id ==> j in s'.rows && s'.rows[j] == s.rows[j]
    ensures SnapshotsHold(ps, s', guarded)
  {
    assert Queue(s') == Queue(s);
  }

  /** A row may also change where nothing the dispatcher holds of it does. */
  predicate SameForTheDispatcher(c: Connection, d: Connection, guarded: bool) {
    && c.provider == d.provider && c.lastSyncedAt == d.lastSyncedAt
    && (guarded ==> c.status == d.status)
  }

  lemma InessentialChange(ps: Providers, s: System, s': System, guarded: bool)
    requires SnapshotsHold(ps, s, guarded) && s.clock <= s'.clock
    requires Queue(s') == Queue(s) && Held(s') == Held(s)
    requires forall w :: w in s'.workers && s'.workers[w].stage.Syncing? ==> w in s.workers && s'.workers[w] == s.workers[w]
    requires forall j :: j in s.rows ==> j in s'.rows && SameForTheDispatcher(s.rows[j], s'.rows[j], guarded)
    ensures SnapshotsHold(ps, s', guarded)
  {
  }

  /** Of the rows the dispatcher relies on, a guarded revocation changes none's status. */
  lemma RevokingKeepsSnapshots(ps: Providers, s: System, s': System, id: int, guarded: bool)
    requires SnapshotsHold(ps, s, guarded) && (guarded ==> OutOfPlay(ps, s, id))
    requires s' == s.(rows := if id in s.rows then s.rows[id := s.rows[id].(status := Revoked)] else s.rows)
    ensures SnapshotsHold(ps, s', guarded)
  {
    assert Queue(s') == Queue(s) && Held(s') == Held(s);
  }

  lemma ListingTakesSnapshots(ps: Providers, s: System, a: Action, s': System, guarded: bool)
    requires Inv(ps, s) && Step(ps, s, a, s') && a.List?
    ensures SnapshotsHold(ps, s', guarded)
  {
    ListFindsNoWorkers(ps, s, a, s');
    assert s'.rows == s.rows;
  }

  lemma DispatcherKeepsSnapshots(ps: Providers, s: System, a: Action, s': System, guarded: bool)
    requires SnapshotsHold(ps, s, guarded) && Step(ps, s, a, s') && (a.Skip? || a.Decide? || a.Start?)
    ensures SnapshotsHold(ps, s', guarded)
  {
    hide IsListing;
    if !a.Start? {
      assert s.phase.queue[0] in Queue(s);
      assert forall c :: c in s.phase.queue[1..] ==> c in s.phase.queue;
    }
  }

  lemma SnapshotsStep(ps: Providers, s: System, a: Action, s': System, guarded: bool)
    requires Inv(ps, s) && SnapshotsHold(ps, s, guarded) && Step(ps, s, a, s') && (guarded ==> Guarded(ps, s, a))
    ensures SnapshotsHold(ps, s', guarded)
  {
    hide Inv, SnapshotsHold, IsListing, ShouldDispatch, Untracked, OutOfPlay;
    match a
    case List(_) => ListingTakesSnapshots(ps, s, a, s', guarded);
    case Skip => DispatcherKeepsSnapshots(ps, s, a, s', guarded);
    case Decide => DispatcherKeepsSnapshots(ps, s, a, s', guarded);
    case Start(_) => DispatcherKeepsSnapshots(ps, s, a, s', guarded);
    case Mark(w, _, _) =>
      MarkedIsUntracked(ps, s, w, s');
      UntrackedRowMayChange(ps, s, s', s.workers[w].id, guarded);
    case Revoke(id) =>
      RevokingKeepsSnapshots(ps, s, s', id, guarded);
    case _ => InessentialChange(ps, s, s', guarded);
  }

  lemma {:induction false} RunKeepsSnapshots(ps: Providers, states: seq<System>, actions: seq<Action>, n: nat, guarded: bool)
    requires IsRun(ps, states, actions) && n < |states|
    requires guarded ==> IsGuardedRun(ps, states, actions)
    ensures Inv(ps, states[n]) && SnapshotsHold(ps, states[n], guarded)
    decreases n
  {
    hide Inv, Step, Guarded;
    RunKeepsInv(ps, states, actions, n);
    if n > 0 {
      hide SnapshotsHold;
      RunKeepsSnapshots(ps, states, actions, n - 1, guarded);
      SnapshotsStep(ps, states[n - 1], actions[n - 1], states[n], guarded);
    }
  }

  // ---------- theorems ----------

  /** A sync that succeeds now: its goroutine writes status active and the time into the row. */
  predicate Succeeds(s: System, a: Action, id: int) {
    a.Mark? && a.applied && a.outcome.Synced? && a.worker in s.workers && s.workers[a.worker] == Worker(id, Syncing) && id in s.rows
  }

  /** What is kept of a row from some point on: its provider, and a last success no older than then. */
  ghost predicate SyncedSince(s: System, id: int, provider: string, since: Instant) {
    && id in s.rows && s.rows[id].provider == provider
    && s.rows[id].lastSyncedAt.Some? && since <= s.rows[id].lastSyncedAt.value && since <= s.clock
  }

  lemma StepKeepsSyncedSince(ps: Providers, s: System, a: Action, s': System, id: int, provider: string, since: Instant)
    requires Step(ps, s, a, s') && SyncedSince(s, id, provider, since)
    ensures SyncedSince(s', id, provider, since)
  {
    hide IsListing, ShouldDispatch;
  }

  lemma {:induction false} RunKeepsSyncedSince(ps: Providers, states: seq<System>, actions: seq<Action>, m: nat, n: nat,
                                               id: int, provider: string, since: Instant)
    requires IsRun(ps, states, actions) && m <= n < |states| && SyncedSince(states[m], id, provider, since)
    ensures SyncedSince(states[n], id, provider, since)
    decreases n
  {
    hide SyncedSince, Step;
    if m < n {
      RunKeepsSyncedSince(ps, states, actions, m, n - 1, id, provider, since);
      StepKeepsSyncedSince(ps, states[n - 1], actions[n - 1], states[n], id, provider, since);
    }
  }

  lemma SuccessIsRecorded(ps: Providers, s: System, a: Action, s': System, id: int)
    requires Step(ps, s, a, s') && Succeeds(s, a, id)
    ensures SyncedSince(s', id, s.rows[id].provider, s.clock)
  {
  }

  /** Two successful syncs of one connection are at least its provider's poll interval apart, on every run. */
  lemma SuccessesAreSpaced(ps: Providers, states: seq<System>, actions: seq<Action>, m: nat, n: nat, id: int)
    requires IsRun(ps, states, actions) && m < n < |actions|
    requires Succeeds(states[m], actions[m], id) && Succeeds(states[n], actions[n], id)
    ensures states[m].rows[id].provider in ps
    ensures states[n].clock - states[m].clock >= ps[states[m].rows[id].provider]
  {
    var provider, since := states[m].rows[id].provider, states[m].clock;
    assert Step(ps, states[m], actions[m], states[m + 1]);
    SuccessIsRecorded(ps, states[m], actions[m], states[m + 1], id);
    RunKeepsSyncedSince(ps, states, actions, m + 1, n, id, provider, since);
    RunKeepsSnapshots(ps, states, actions, n, false);
    hide Step, Inv;
    assert ReadyRow(ps, states[n].rows, id, states[n].clock, false);
  }

  predicate GivenUp(status: Status) {
    status.Revoked? || status.InvalidCredentials?
  }

  lemma SyncedIsPollable(ps: Providers, s: System, w: nat)
    requires SnapshotsHold(ps, s, true) && w in s.workers && s.workers[w].stage.Syncing?
    ensures s.workers[w].id in s.rows && !GivenUp(s.rows[s.workers[w].id].status)
  {
    assert ReadyRow(ps, s.rows, s.workers[w].id, s.clock, true);
  }

  /** The row had the status `was`, and keeps it or has become revoked. */
  ghost predicate StaysGivenUp(s: System, id: int, was: Status) {
    id in s.rows && GivenUp(s.rows[id].status) && (s.rows[id].status == was || s.rows[id].status == Revoked)
  }

  lemma GuardedStepKeepsGivenUp(ps: Providers, s: System, a: Action, s': System, id: int, was: Status)
    requires SnapshotsHold(ps, s, true) && Step(ps, s, a, s') && StaysGivenUp(s, id, was)
    ensures StaysGivenUp(s', id, was)
  {
    hide SnapshotsHold;
    if a == Revoke(id) {
      assert s'.rows[id].status == Revoked;
    } else if id !in s'.rows || s'.rows[id] != s.rows[id] {
      RowChange(ps, s, a, s', id);
      SyncedIsPollable(ps, s, a.worker);
    }
  }

  lemma GuardedStepAt(ps: Providers, states: seq<System>, actions: seq<Action>, n: nat)
    requires IsGuardedRun(ps, states, actions) && n < |actions|
    ensures |states| == |actions| + 1 && SnapshotsHold(ps, states[n], true) && Step(ps, states[n], actions[n], states[n + 1])
  {
    hide SnapshotsHold, Step, Inv;
    RunKeepsSnapshots(ps, states, actions, n, true);
  }

  lemma {:induction false} RunKeepsGivenUp(ps: Providers, states: seq<System>, actions: seq<Action>, m: nat, n: nat, id: int, was: Status)
    requires IsGuardedRun(ps, states, actions) && m <= n < |states| && StaysGivenUp(states[m], id, was)
    ensures StaysGivenUp(states[n], id, was)
    decreases n
  {
    hide *;
    if m < n {
      assert |states| == |actions| + 1 by {
        GuardedRunIsARun(ps, states, actions);
      }
      RunKeepsGivenUp(ps, states, actions, m, n - 1, id, was);
      GuardedStepAt(ps, states, actions, n - 1);
      GuardedStepKeepsGivenUp(ps, states[n - 1], actions[n - 1], states[n], id, was);
    }
  }

  lemma GuardedRunIsARun(ps: Providers, states: seq<System>, actions: seq<Action>)
    requires IsGuardedRun(ps, states, actions)
    ensures IsRun(ps, states, actions) && |states| == |actions| + 1
  {
  }

  /** Revoked is permanent, and rejected credentials can only become revoked, on the guarded runs. */
  lemma GivenUpIsPermanent(ps: Providers, states: seq<System>, actions: seq<Action>, m: nat, n: nat, id: int)
    requires IsGuardedRun(ps, states, actions) && m <= n < |states|
    requires id in states[m].rows && GivenUp(states[m].rows[id].status)
    ensures id in states[n].rows
    ensures states[n].rows[id].status == states[m].rows[id].status || states[n].rows[id].status == Revoked
  {
    hide IsGuardedRun;
    RunKeepsGivenUp(ps, states, actions, m, n, id, states[m].rows[id].status);
  }

  lemma GivenUpIsOutOfPlay(ps: Providers, s: System, id: int)
    requires SnapshotsHold(ps, s, true) && id in s.rows && GivenUp(s.rows[id].status)
    ensures OutOfPlay(ps, s, id)
  {
    forall c | c in Queue(s) && c.provider in ps ensures c.id != id {
      assert RowMatches(ps, s.rows, c, true);
    }
    hide ShouldDispatch, QueueMatches;
  }

  /** Nor is such a connection decided for, counted in, started or synced again. */
  lemma GivenUpIsNeverDispatched(ps: Providers, states: seq<System>, actions: seq<Action>, m: nat, n: nat, id: int)
    requires IsGuardedRun(ps, states, actions) && m <= n < |states|
    requires id in states[m].rows && GivenUp(states[m].rows[id].status)
    ensures OutOfPlay(ps, states[n], id)
  {
    hide Inv, SnapshotsHold, OutOfPlay, Step, Guarded;
    GivenUpIsPermanent(ps, states, actions, m, n, id);
    RunKeepsSnapshots(ps, states, actions, n, true);
    GivenUpIsOutOfPlay(ps, states[n], id);
  }

  // ---------- the guard is not vacuous ----------

  /** A connection does get in play: a fresh one is listed, counted in and started. */
  lemma SyncGetsInFlight() returns (ps: Providers, states: seq<System>, actions: seq<Action>)
    ensures IsRun(ps, states, actions)
    ensures var s := states[|actions|]; s.workers == map[0 := Worker(1, Syncing)] && 1 in s.rows
  {
    var c := Connection("deye", 0, Pending, None, None, None);
    var l := Listed(1, "deye", None);
    ps := map["deye" := 300];
    var s0 := System(map[1 := c], 0, Idle, map[], 0, 0, [], [], multiset{});
    var s1 := s0.(phase := Dispatching([l], None), listing := [l]);
    var s2 := s1.(phase := Dispatching([], Some(l)), decisions := [Decision(l, 0, true)], wg := 1);
    var s3 := s2.(phase := Dispatching([], None), workers := map[0 := Worker(1, Syncing)], sem := 1);
    states := [s0, s1, s2, s3];
    actions := [List({}), Decide, Start(0)];
    assert s1.listing[0].id == 1;
    assert s1.phase.queue[1..] == [];
    assert Step(ps, s0, actions[0], s1);
    hide IsListing;
    assert Step(ps, s1, actions[1], s2);
    assert Step(ps, s2, actions[2], s3);
  }
}
