/**
 What every run of the vendor-sync poller keeps: the concurrency bound, one sync in
 flight per connection, no overlap of cycles, one Mark per due connection and cycle,
 isolation between connections, and what happens to revoked and rejected ones.
 */
module VendorSyncTheorems {
  import opened Options
  import opened VendorSync

  // ---------- the invariant ----------

  /** The workers that hold a slot of the semaphore. */
  function Holding(workers: map<nat, Worker>): set<nat> {
    set w | w in workers && !workers[w].stage.Released?
  }

  ghost predicate CountersAgree(s: System) {
    && s.sem == |Holding(s.workers)| && s.sem <= MAX_CONCURRENT
    && s.wg == |s.workers| + (if Held(s).Some? then 1 else 0)
    && (s.phase.Idle? ==> s.wg == 0)
  }

  function Held(s: System): Option<Listed> {
    if s.phase.Dispatching? then s.phase.held else None
  }

  function Queue(s: System): seq<Listed> {
    if s.phase.Dispatching? then s.phase.queue else []
  }

  ghost predicate IdsIncrease(listing: seq<Listed>) {
    forall i, j :: 0 <= i < j < |listing| ==> listing[i].id < listing[j].id
  }

  /** The dispatcher works through the listing in order and decides each connection by the due rule. */
  ghost predicate DecidesInOrder(ps: Providers, s: System) {
    && IdsIncrease(s.listing)
    && |s.decisions| <= |s.listing| && Queue(s) == s.listing[|s.decisions|..]
    && (forall i :: 0 <= i < |s.decisions| ==> DecidedRight(ps, s, i))
    && (Held(s).Some? ==>
          && s.decisions != [] && Held(s).value == s.decisions[|s.decisions| - 1].listed
          && s.decisions[|s.decisions| - 1].dispatched)
  }

  ghost predicate DecidedRight(ps: Providers, s: System, i: nat)
    requires i < |s.decisions| <= |s.listing|
  {
    var d := s.decisions[i];
    d.listed == s.listing[i] && d.at <= s.clock && d.dispatched == ShouldDispatch(d.listed, ps, d.at)
  }

  function DispatchedIds(decisions: seq<Decision>): set<int> {
    set i | 0 <= i < |decisions| && decisions[i].dispatched :: decisions[i].listed.id
  }

  /** Connections counted in but not marked yet. */
  function Unmarked(s: System): set<int> {
    (set w | w in s.workers && s.workers[w].stage.Syncing? :: s.workers[w].id) + (if Held(s).Some? then {Held(s).value.id} else {})
  }

  ghost predicate OneWorkerEach(s: System) {
    && (forall v, w :: v in s.workers && w in s.workers && v != w ==> s.workers[v].id != s.workers[w].id)
    && (forall w :: w in s.workers ==> s.workers[w].id in DispatchedIds(s.decisions))
    && (Held(s).Some? ==> forall w :: w in s.workers ==> s.workers[w].id != Held(s).value.id)
  }

  ghost predicate MarksAreExact(s: System) {
    s.marks == multiset(DispatchedIds(s.decisions) - Unmarked(s))
  }

  ghost predicate CycleKept(s: System) {
    OneWorkerEach(s) && MarksAreExact(s)
  }

  ghost predicate Inv(ps: Providers, s: System) {
    CountersAgree(s) && DecidesInOrder(ps, s) && CycleKept(s)
  }

  // ---------- every step keeps it ----------

  /** The actions that only move the clock or change rows. */
  predicate OutsideTheCycle(a: Action) {
    a.Tick? || a.RefreshToken? || a.Create? || a.Revoke?
  }

  lemma OutsideChangesOnlyRowsAndClock(ps: Providers, s: System, a: Action, s': System)
    requires Step(ps, s, a, s')
    ensures s.clock <= s'.clock
    ensures OutsideTheCycle(a) ==> s' == s.(rows := s'.rows, clock := s'.clock)
  {
  }

  // How the workers' steps change the number of slots held.

  lemma StartingTakesASlot(workers: map<nat, Worker>, w: nat, id: int)
    requires w !in workers
    ensures |Holding(workers[w := Worker(id, Syncing)])| == |Holding(workers)| + 1
    ensures |workers[w := Worker(id, Syncing)]| == |workers| + 1
  {
    var started := workers[w := Worker(id, Syncing)];
    assert Holding(started) == Holding(workers) + {w};
    assert started.Keys == workers.Keys + {w};
  }

  lemma MarkingKeepsTheSlot(workers: map<nat, Worker>, w: nat)
    requires w in workers && workers[w].stage.Syncing?
    ensures |Holding(workers[w := workers[w].(stage := Marked)])| == |Holding(workers)|
    ensures |workers[w := workers[w].(stage := Marked)]| == |workers|
  {
    var marked := workers[w := workers[w].(stage := Marked)];
    assert Holding(marked) == Holding(workers);
    assert marked.Keys == workers.Keys;
  }

  lemma ReleasingFreesASlot(workers: map<nat, Worker>, w: nat)
    requires w in workers && workers[w].stage.Marked?
    ensures |Holding(workers[w := workers[w].(stage := Released)])| == |Holding(workers)| - 1
    ensures |workers[w := workers[w].(stage := Released)]| == |workers|
  {
    var released := workers[w := workers[w].(stage := Released)];
    assert Holding(workers) == Holding(released) + {w};
    assert released.Keys == workers.Keys;
  }

  lemma LeavingFreesNoSlot(workers: map<nat, Worker>, w: nat)
    requires w in workers && workers[w].stage.Released?
    ensures Holding(workers - {w}) == Holding(workers)
    ensures |workers - {w}| == |workers| - 1
  {
    assert workers.Keys == (workers - {w}).Keys + {w};
  }

  lemma WorkerStepCounts(ps: Providers, s: System, a: Action, s': System)
    requires CountersAgree(s) && Step(ps, s, a, s') && (a.Start? || a.Mark? || a.Release? || a.Done?)
    ensures CountersAgree(s')
  {
    hide Holding, IsListing, ShouldDispatch, Marking;
    match a
    case Start(w) => StartingTakesASlot(s.workers, w, s.phase.held.value.id);
    case Mark(w, _, _) => MarkingKeepsTheSlot(s.workers, w);
    case Release(w) => ReleasingFreesASlot(s.workers, w);
    case Done(w) => LeavingFreesNoSlot(s.workers, w);
  }

  lemma CountersStep(ps: Providers, s: System, a: Action, s': System)
    requires CountersAgree(s) && Step(ps, s, a, s')
    ensures CountersAgree(s')
  {
    if OutsideTheCycle(a) {
      OutsideChangesOnlyRowsAndClock(ps, s, a, s');
      hide Step;
      assert CountersAgree(s');
    } else if a.Start? || a.Mark? || a.Release? || a.Done? {
      hide Step, CountersAgree;
      WorkerStepCounts(ps, s, a, s');
    } else {
      assert s'.workers == s.workers && s'.sem == s.sem;
    }
  }

  /** A decision stays right as the clock moves on. */
  lemma DecisionsStayRight(ps: Providers, s: System, s': System)
    requires DecidesInOrder(ps, s) && s'.listing == s.listing && s.clock <= s'.clock
    requires s.decisions <= s'.decisions && |s'.decisions| <= |s'.listing|
    ensures forall i :: 0 <= i < |s.decisions| ==> DecidedRight(ps, s', i)
  {
    hide ShouldDispatch;
    forall i | 0 <= i < |s.decisions| ensures DecidedRight(ps, s', i) {
      assert DecidedRight(ps, s, i);
    }
  }

  lemma DecisionExtends(ps: Providers, s: System, d: Decision, s': System)
    requires DecidesInOrder(ps, s) && Queue(s) != [] && Queue(s') == Queue(s)[1..] && s'.listing == s.listing && s'.clock == s.clock
    requires d.listed == Queue(s)[0] && d.at == s.clock && d.dispatched == ShouldDispatch(d.listed, ps, d.at)
    requires s'.decisions == s.decisions + [d] && Held(s') == (if d.dispatched then Some(d.listed) else None)
    ensures DecidesInOrder(ps, s')
  {
    hide ShouldDispatch;
    DecisionsStayRight(ps, s, s');
    assert Queue(s)[0] == s.listing[|s.decisions|];
    assert DecidedRight(ps, s', |s.decisions|);
  }

  lemma DecidesStep(ps: Providers, s: System, a: Action, s': System)
    requires DecidesInOrder(ps, s) && Step(ps, s, a, s')
    ensures DecidesInOrder(ps, s')
  {
    if a.Skip? || a.Decide? {
      hide DecidesInOrder;
      DecisionExtends(ps, s, Decision(s.phase.queue[0], s.clock, a.Decide?), s');
    } else if !a.List? {
      assert s'.listing == s.listing && s.clock <= s'.clock && s'.decisions == s.decisions && Queue(s') == Queue(s);
      assert Held(s').None? || Held(s') == Held(s);
      hide Step, ShouldDispatch, DecidedRight;
      DecisionsStayRight(ps, s, s');
    }
  }

  /** What has been dispatched in this cycle comes before the head of the queue. */
  lemma HeadIsFresh(ps: Providers, s: System)
    requires DecidesInOrder(ps, s) && Queue(s) != []
    ensures forall id :: id in DispatchedIds(s.decisions) ==> id < Queue(s)[0].id
  {
    forall id | id in DispatchedIds(s.decisions) ensures id < Queue(s)[0].id {
      var i :| 0 <= i < |s.decisions| && s.decisions[i].dispatched && s.decisions[i].listed.id == id;
      assert DecidedRight(ps, s, i);
      assert Queue(s)[0] == s.listing[|s.decisions|];
    }
  }

  lemma DispatchedIdsGrow(decisions: seq<Decision>, d: Decision)
    ensures DispatchedIds(decisions + [d]) == DispatchedIds(decisions) + (if d.dispatched then {d.listed.id} else {})
  {
    var longer := decisions + [d];
    forall id | id in DispatchedIds(decisions) ensures id in DispatchedIds(longer) {
      var i :| 0 <= i < |decisions| && decisions[i].dispatched && decisions[i].listed.id == id;
      assert longer[i] == decisions[i];
    }
    if d.dispatched {
      assert longer[|decisions|] == d;
    }
    forall id | id in DispatchedIds(longer) ensures id in DispatchedIds(decisions) || (d.dispatched && id == d.listed.id) {
      var i :| 0 <= i < |longer| && longer[i].dispatched && longer[i].listed.id == id;
      if i < |decisions| {
        assert longer[i] == decisions[i];
      }
    }
  }

  lemma HeldIsDispatched(ps: Providers, s: System)
    requires DecidesInOrder(ps, s) && Held(s).Some?
    ensures Held(s).value.id in DispatchedIds(s.decisions)
  {
    assert s.decisions[|s.decisions| - 1].dispatched;
  }

  /** Nothing of the previous cycle is left when the next one lists. */
  lemma ListFindsNoWorkers(ps: Providers, s: System, a: Action, s': System)
    requires CountersAgree(s) && Step(ps, s, a, s') && a.List?
    ensures s.workers == map[] && s'.workers == map[] && s'.decisions == [] && s'.marks == multiset{} && Held(s').None?
  {
    assert s.wg == 0;
  }

  lemma StartKeepsUnmarked(s: System, w: nat, s': System)
    requires Held(s).Some? && Held(s').None? && w !in s.workers
    requires s'.workers == s.workers[w := Worker(Held(s).value.id, Syncing)]
    ensures Unmarked(s') == Unmarked(s)
  {
    forall id | id in Unmarked(s) ensures id in Unmarked(s') {
      if id == Held(s).value.id {
        assert s'.workers[w].id == id;
      } else {
        var v :| v in s.workers && s.workers[v].stage.Syncing? && s.workers[v].id == id;
        assert s'.workers[v] == s.workers[v];
      }
    }
  }

  lemma MarkSettlesItsOwn(s: System, w: nat, s': System)
    requires OneWorkerEach(s) && w in s.workers && s.workers[w].stage.Syncing? && s'.phase == s.phase
    requires s'.workers == s.workers[w := s.workers[w].(stage := Marked)]
    ensures Unmarked(s') == Unmarked(s) - {s.workers[w].id} && s.workers[w].id in Unmarked(s)
  {
    forall id | id in Unmarked(s) && id != s.workers[w].id ensures id in Unmarked(s') {
      if !(Held(s).Some? && id == Held(s).value.id) {
        var v :| v in s.workers && s.workers[v].stage.Syncing? && s.workers[v].id == id;
        assert s'.workers[v] == s.workers[v];
      }
    }
  }

  /** A worker that has marked already may change stage or leave. */
  lemma SettledKeepUnmarked(s: System, s': System, w: nat)
    requires w in s.workers && !s.workers[w].stage.Syncing? && s'.phase == s.phase
    requires s'.workers == s.workers[w := s.workers[w].(stage := Released)] || s'.workers == s.workers - {w}
    ensures Unmarked(s') == Unmarked(s)
  {
    forall id | id in Unmarked(s) ensures id in Unmarked(s') {
      if !(Held(s).Some? && id == Held(s).value.id) {
        var v :| v in s.workers && s.workers[v].stage.Syncing? && s.workers[v].id == id;
        assert v in s'.workers && s'.workers[v] == s.workers[v];
      }
    }
  }

  lemma KeptWhenUnchanged(s: System, s': System)
    requires CycleKept(s) && s'.workers == s.workers && s'.marks == s.marks && s'.decisions == s.decisions && Held(s') == Held(s)
    ensures CycleKept(s')
  {
    assert Unmarked(s') == Unmarked(s);
  }

  lemma OneWorkerAfterDecision(s: System, d: Decision, s': System)
    requires OneWorkerEach(s) && s'.workers == s.workers && s'.decisions == s.decisions + [d]
    requires Held(s).None? && Held(s') == (if d.dispatched then Some(d.listed) else None)
    requires d.listed.id !in DispatchedIds(s.decisions)
    ensures OneWorkerEach(s')
  {
    DispatchedIdsGrow(s.decisions, d);
    hide DispatchedIds;
  }

  lemma UnmarkedAfterDecision(s: System, d: Decision, s': System)
    requires s'.workers == s.workers && Held(s).None? && Held(s') == (if d.dispatched then Some(d.listed) else None)
    ensures Unmarked(s') == Unmarked(s) + (if d.dispatched then {d.listed.id} else {})
  {
  }

  lemma MarksAfterDecision(s: System, d: Decision, s': System)
    requires MarksAreExact(s) && s'.workers == s.workers && s'.marks == s.marks && s'.decisions == s.decisions + [d]
    requires Held(s).None? && Held(s') == (if d.dispatched then Some(d.listed) else None)
    requires d.listed.id !in DispatchedIds(s.decisions)
    ensures MarksAreExact(s')
  {
    hide DispatchedIds, Unmarked;
    DispatchedIdsGrow(s.decisions, d);
    UnmarkedAfterDecision(s, d, s');
    var before, after := DispatchedIds(s.decisions) - Unmarked(s), DispatchedIds(s'.decisions) - Unmarked(s');
    assert before == after;
  }

  lemma KeptByDecision(s: System, d: Decision, s': System)
    requires CycleKept(s) && s'.workers == s.workers && s'.marks == s.marks && s'.decisions == s.decisions + [d]
    requires Held(s).None? && Held(s') == (if d.dispatched then Some(d.listed) else None)
    requires d.listed.id !in DispatchedIds(s.decisions)
    ensures CycleKept(s')
  {
    hide OneWorkerEach, MarksAreExact, DispatchedIds;
    OneWorkerAfterDecision(s, d, s');
    MarksAfterDecision(s, d, s');
  }

  lemma OneWorkerAfterStart(s: System, w: nat, s': System)
    requires OneWorkerEach(s) && s'.decisions == s.decisions && Held(s).Some? && Held(s').None?
    requires Held(s).value.id in DispatchedIds(s.decisions) && w !in s.workers
    requires s'.workers == s.workers[w := Worker(Held(s).value.id, Syncing)]
    ensures OneWorkerEach(s')
  {
    hide DispatchedIds;
  }

  lemma KeptByStart(s: System, w: nat, s': System)
    requires CycleKept(s) && s'.marks == s.marks && s'.decisions == s.decisions
    requires Held(s).Some? && Held(s').None? && Held(s).value.id in DispatchedIds(s.decisions) && w !in s.workers
    requires s'.workers == s.workers[w := Worker(Held(s).value.id, Syncing)]
    ensures CycleKept(s')
  {
    hide DispatchedIds, Unmarked, OneWorkerEach;
    StartKeepsUnmarked(s, w, s');
    OneWorkerAfterStart(s, w, s');
  }

  lemma OneWorkerAfterRestage(s: System, w: nat, stage: Stage, s': System)
    requires OneWorkerEach(s) && w in s.workers && s'.phase == s.phase && s'.decisions == s.decisions
    requires s'.workers == s.workers[w := s.workers[w].(stage := stage)] || s'.workers == s.workers - {w}
    ensures OneWorkerEach(s')
  {
    hide DispatchedIds;
  }

  lemma MarksAfterMark(dispatched: set<int>, unmarked: set<int>, unmarked': set<int>, id: int)
    requires id in dispatched && id in unmarked && unmarked' == unmarked - {id}
    ensures multiset(dispatched - unmarked') == multiset(dispatched - unmarked) + multiset{id}
  {
    assert dispatched - unmarked' == (dispatched - unmarked) + {id};
  }

  lemma KeptByMark(s: System, w: nat, s': System)
    requires CycleKept(s) && w in s.workers && s.workers[w].stage.Syncing? && s'.phase == s.phase && s'.decisions == s.decisions
    requires s'.workers == s.workers[w := s.workers[w].(stage := Marked)] && s'.marks == s.marks + multiset{s.workers[w].id}
    ensures CycleKept(s')
  {
    hide Unmarked, DispatchedIds;
    var id := s.workers[w].id;
    assert id in DispatchedIds(s.decisions);
    hide OneWorkerEach;
    OneWorkerAfterRestage(s, w, Marked, s');
    MarkSettlesItsOwn(s, w, s');
    MarksAfterMark(DispatchedIds(s.decisions), Unmarked(s), Unmarked(s'), id);
  }

  lemma KeptByLeaving(s: System, w: nat, s': System)
    requires CycleKept(s) && s'.phase == s.phase && s'.decisions == s.decisions && s'.marks == s.marks
    requires w in s.workers && !s.workers[w].stage.Syncing?
    requires s'.workers == s.workers[w := s.workers[w].(stage := Released)] || s'.workers == s.workers - {w}
    ensures CycleKept(s')
  {
    OneWorkerAfterRestage(s, w, Released, s');
    SettledKeepUnmarked(s, s', w);
    hide Unmarked, DispatchedIds, OneWorkerEach;
  }

  lemma KeptByList(s': System)
    requires s'.workers == map[] && s'.decisions == [] && s'.marks == multiset{} && Held(s').None?
    ensures CycleKept(s')
  {
    assert DispatchedIds(s'.decisions) - Unmarked(s') == {};
  }

  lemma CycleStep(ps: Providers, s: System, a: Action, s': System)
    requires CountersAgree(s) && DecidesInOrder(ps, s) && CycleKept(s) && Step(ps, s, a, s')
    ensures CycleKept(s')
  {
    hide CycleKept, CountersAgree, DecidesInOrder, ShouldDispatch, IsListing, DispatchedIds;
    match a
    case List(_) =>
      ListFindsNoWorkers(ps, s, a, s');
      KeptByList(s');
    case Skip =>
      HeadIsFresh(ps, s);
      KeptByDecision(s, Decision(s.phase.queue[0], s.clock, false), s');
    case Decide =>
      HeadIsFresh(ps, s);
      KeptByDecision(s, Decision(s.phase.queue[0], s.clock, true), s');
    case Start(w) =>
      HeldIsDispatched(ps, s);
      KeptByStart(s, w, s');
    case Mark(w, _, _) => KeptByMark(s, w, s');
    case Release(w) => KeptByLeaving(s, w, s');
    case Done(w) => KeptByLeaving(s, w, s');
    case _ => KeptWhenUnchanged(s, s');
  }

  lemma StepKeepsInv(ps: Providers, s: System, a: Action, s': System)
    requires Inv(ps, s) && Step(ps, s, a, s')
    ensures Inv(ps, s')
  {
    CountersStep(ps, s, a, s');
    DecidesStep(ps, s, a, s');
    CycleStep(ps, s, a, s');
    hide CountersAgree, DecidesInOrder, CycleKept, Step;
  }

  lemma InitHasInv(ps: Providers, s: System)
    requires Init(s)
    ensures Inv(ps, s)
  {
    assert Holding(s.workers) == {};
    assert DispatchedIds(s.decisions) - Unmarked(s) == {};
  }

  lemma {:induction false} RunKeepsInv(ps: Providers, states: seq<System>, actions: seq<Action>, n: nat)
    requires IsRun(ps, states, actions) && n < |states|
    ensures Inv(ps, states[n])
    decreases n
  {
    hide Inv, Step, Init;
    if n == 0 {
      InitHasInv(ps, states[0]);
    } else {
      RunKeepsInv(ps, states, actions, n - 1);
      StepKeepsInv(ps, states[n - 1], actions[n - 1], states[n]);
    }
  }

  // ---------- concurrency ----------

  function SyncingNow(workers: map<nat, Worker>): set<nat> {
    set w | w in workers && workers[w].stage.Syncing?
  }

  lemma SubsetIsSmaller(a: set<nat>, b: set<nat>)
    requires a <= b
    ensures |a| <= |b|
  {
    assert b == a + (b - a);
  }

  /** At most eight syncs run at once, and no connection has two in flight or one in flight and one waiting to start. */
  lemma AtMostEightSyncs(ps: Providers, states: seq<System>, actions: seq<Action>, n: nat)
    requires IsRun(ps, states, actions) && n < |states|
    ensures |SyncingNow(states[n].workers)| <= 8
    ensures forall v, w :: v in states[n].workers && w in states[n].workers && v != w ==> states[n].workers[v].id != states[n].workers[w].id
    ensures Held(states[n]).Some? ==> forall w :: w in states[n].workers ==> states[n].workers[w].id != Held(states[n]).value.id
  {
    RunKeepsInv(ps, states, actions, n);
    var s := states[n];
    SubsetIsSmaller(SyncingNow(s.workers), Holding(s.workers));
  }

  /** No cycle starts before every goroutine of the previous one is done. */
  lemma CyclesDoNotOverlap(ps: Providers, states: seq<System>, actions: seq<Action>, n: nat)
    requires IsRun(ps, states, actions) && n < |actions| && actions[n].List?
    ensures states[n].workers == map[] && states[n].sem == 0
  {
    RunKeepsInv(ps, states, actions, n);
    assert Step(ps, states[n], actions[n], states[n + 1]);
    ListFindsNoWorkers(ps, states[n], actions[n], states[n + 1]);
    assert Holding(states[n].workers) == {};
  }

  lemma RowChange(ps: Providers, s: System, a: Action, s': System, id: int)
    requires Step(ps, s, a, s') && id in s.rows && (id !in s'.rows || s'.rows[id] != s.rows[id]) && a != Revoke(id)
    ensures id in s'.rows && (a.Mark? || a.RefreshToken?)
    ensures a.worker in s.workers && s.workers[a.worker] == Worker(id, Syncing)
  {
    hide IsListing, ShouldDispatch;
  }

  /** A row changes only when it is revoked, or by the one goroutine syncing that very connection. */
  lemma OnlyItsOwnSyncChangesARow(ps: Providers, states: seq<System>, actions: seq<Action>, n: nat, id: int)
    requires IsRun(ps, states, actions) && n < |actions|
    requires id in states[n].rows && (id !in states[n + 1].rows || states[n + 1].rows[id] != states[n].rows[id])
    requires actions[n] != Revoke(id)
    ensures id in states[n + 1].rows
    ensures exists w :: OnlySyncOf(states[n], w, id) && SyncAction(actions[n], w)
  {
    RunKeepsInv(ps, states, actions, n);
    assert Step(ps, states[n], actions[n], states[n + 1]);
    assert OneWorkerEach(states[n]);
    hide Inv, Step;
    RowChange(ps, states[n], actions[n], states[n + 1], id);
    assert OnlySyncOf(states[n], actions[n].worker, id) && SyncAction(actions[n], actions[n].worker);
  }

  ghost predicate OnlySyncOf(s: System, w: nat, id: int) {
    && w in s.workers && s.workers[w] == Worker(id, Syncing)
    && forall v :: v in s.workers && s.workers[v].id == id ==> v == w
  }

  predicate SyncAction(a: Action, w: nat) {
    (a.Mark? || a.RefreshToken?) && a.worker == w
  }

  // ---------- one Mark per due connection ----------

  lemma AllMarkedAtTheEnd(ps: Providers, s: System)
    requires Inv(ps, s) && s.phase.Waiting? && s.wg == 0
    ensures |s.decisions| == |s.listing| && s.marks == multiset(DispatchedIds(s.decisions))
  {
    assert s.workers == map[];
    assert DispatchedIds(s.decisions) - Unmarked(s) == DispatchedIds(s.decisions);
  }

  /** Between a listing and the next, the listing stays and decisions are taken after it. */
  ghost predicate SameCycle(listed: System, s: System) {
    && s.listing == listed.listing && listed.clock <= s.clock
    && forall i :: 0 <= i < |s.decisions| ==> listed.clock <= s.decisions[i].at
  }

  lemma StepKeepsSameCycle(ps: Providers, listed: System, s: System, a: Action, s': System)
    requires SameCycle(listed, s) && Step(ps, s, a, s') && !a.List?
    ensures SameCycle(listed, s')
  {
  }

  lemma ListStartsTheCycle(ps: Providers, s: System, a: Action, s': System)
    requires Step(ps, s, a, s') && a.List?
    ensures SameCycle(s', s')
  {
  }

  lemma {:induction false} ListingStays(ps: Providers, states: seq<System>, actions: seq<Action>, m: nat, n: nat)
    requires IsRun(ps, states, actions) && m < n <= |actions| && actions[m].List?
    requires forall k :: m < k < n ==> !actions[k].List?
    ensures SameCycle(states[m + 1], states[n])
    decreases n
  {
    hide Step, SameCycle, Init;
    if n == m + 1 {
      ListStartsTheCycle(ps, states[m], actions[m], states[n]);
    } else {
      ListingStays(ps, states, actions, m, n - 1);
      StepKeepsSameCycle(ps, states[m + 1], states[n - 1], actions[n - 1], states[n]);
    }
  }

  lemma DispatchedIff(ps: Providers, s: System, i: nat)
    requires DecidesInOrder(ps, s) && i < |s.decisions|
    ensures s.listing[i].id in DispatchedIds(s.decisions) <==> s.decisions[i].dispatched
  {
    hide ShouldDispatch;
    assert DecidedRight(ps, s, i);
    var id := s.listing[i].id;
    if id in DispatchedIds(s.decisions) {
      var j :| 0 <= j < |s.decisions| && s.decisions[j].dispatched && s.decisions[j].listed.id == id;
      assert DecidedRight(ps, s, j);
    }
  }

  lemma MarkedIffDispatched(ps: Providers, s: System, i: nat)
    requires Inv(ps, s) && s.phase.Waiting? && s.wg == 0 && i < |s.listing|
    ensures i < |s.decisions| && DecidedRight(ps, s, i)
    ensures s.marks[s.listing[i].id] == if s.decisions[i].dispatched then 1 else 0
  {
    AllMarkedAtTheEnd(ps, s);
    DispatchedIff(ps, s, i);
    hide CountersAgree, CycleKept, DispatchedIds, ShouldDispatch;
    assert DecidedRight(ps, s, i);
  }

  lemma DispatchedIsListed(ps: Providers, s: System, id: int)
    requires DecidesInOrder(ps, s) && id in DispatchedIds(s.decisions)
    ensures exists i :: 0 <= i < |s.listing| && s.listing[i].id == id
  {
    var j :| 0 <= j < |s.decisions| && s.decisions[j].dispatched && s.decisions[j].listed.id == id;
    assert DecidedRight(ps, s, j);
  }

  lemma UnlistedIsNotMarked(ps: Providers, s: System, id: int)
    requires Inv(ps, s) && forall i :: 0 <= i < |s.listing| ==> s.listing[i].id != id
    ensures s.marks[id] == 0
  {
    if id in DispatchedIds(s.decisions) {
      DispatchedIsListed(ps, s, id);
    }
  }

  /** A row the poll query returns and that decrypts. */
  predicate Listable(rows: map<int, Connection>, undecryptable: set<int>, id: int) {
    id in rows && id !in undecryptable && Pollable(rows[id].status)
  }

  function ListedRow(id: int, c: Connection): Listed {
    Listed(id, c.provider, c.lastSyncedAt)
  }

  /** A listable row gets at most one Mark in the cycle: one if it is to be dispatched from the start on, none if not even at the end. */
  lemma MarkedAsDecided(ps: Providers, states: seq<System>, actions: seq<Action>, m: nat, n: nat, id: int)
    requires IsRun(ps, states, actions) && m < n < |actions| && actions[m].List? && actions[n].EndCycle?
    requires forall k :: m < k < n ==> !actions[k].List?
    ensures states[n].marks[id] <= 1
    ensures !Listable(states[m].rows, actions[m].undecryptable, id) ==> states[n].marks[id] == 0
    ensures Listable(states[m].rows, actions[m].undecryptable, id) ==>
              var c := ListedRow(id, states[m].rows[id]);
              && (ShouldDispatch(c, ps, states[m].clock) ==> states[n].marks[id] == 1)
              && (!ShouldDispatch(c, ps, states[n].clock) ==> states[n].marks[id] == 0)
  {
    RunKeepsInv(ps, states, actions, n);
    ListingStays(ps, states, actions, m, n);
    var start, end := states[m], states[n];
    assert Step(ps, start, actions[m], states[m + 1]) && Step(ps, end, actions[n], states[n + 1]);
    var listing := states[m + 1].listing;
    if Listable(start.rows, actions[m].undecryptable, id) {
      var i :| 0 <= i < |listing| && listing[i].id == id;
      MarkedIffDispatched(ps, end, i);
    } else {
      UnlistedIsNotMarked(ps, end, id);
    }
  }

  /**
   Over a whole cycle, from its List to its EndCycle: a connection that decrypts, of a known
   provider and neither revoked nor rejected, gets exactly one Mark call if it is due when
   the cycle starts; one of an unknown provider, not due even at the end, or not listed gets
   none; nobody gets two.
   */
  lemma EveryDueConnectionIsMarkedOnce(ps: Providers, states: seq<System>, actions: seq<Action>, m: nat, n: nat, id: int)
    requires IsRun(ps, states, actions) && m < n < |actions| && actions[m].List? && actions[n].EndCycle?
    requires forall k :: m < k < n ==> !actions[k].List?
    ensures states[n].marks[id] <= 1
    ensures var rows := states[m].rows;
            if id !in rows || id in actions[m].undecryptable || rows[id].status.InvalidCredentials? || rows[id].status.Revoked?
            then states[n].marks[id] == 0
            else
              var c := rows[id];
              && (c.provider in ps && (c.lastSyncedAt.None? || states[m].clock - c.lastSyncedAt.value >= ps[c.provider])
                  ==> states[n].marks[id] == 1)
              && (c.provider !in ps || (c.lastSyncedAt.Some? && states[n].clock - c.lastSyncedAt.value < ps[c.provider])
                  ==> states[n].marks[id] == 0)
  {
    MarkedAsDecided(ps, states, actions, m, n, id);
    hide IsRun;
  }
}
