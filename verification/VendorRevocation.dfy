/**
 When a revocation sticks.  The status updates of vendor connections do not look at
 the current status, so a sync that is still to come can overwrite a revocation.
 */
module VendorRevocation {
  import opened Options
  import opened VendorSync
  import opened VendorSyncTheorems

  /** No sync of the connection is running, about to start, or still to be decided for a known provider. */
  ghost predicate OutOfPlay(ps: Providers, s: System, id: int) {
    && (forall c :: c in Queue(s) && c.provider in ps ==> c.id != id)
    && (Held(s).Some? ==> Held(s).value.id != id)
    && (forall w :: w in s.workers && s.workers[w].stage.Syncing? ==> s.workers[w].id != id)
  }

  /** A continuation of whatever ended in its first state. */
  ghost predicate IsPath(ps: Providers, states: seq<System>, actions: seq<Action>) {
    && |states| == |actions| + 1
    && forall i :: 0 <= i < |actions| ==> Step(ps, states[i], actions[i], states[i + 1])
  }

  predicate HasStatus(s: System, id: int, status: Status) {
    id in s.rows && s.rows[id].status == status
  }

  ghost predicate RevokedForGood(ps: Providers, s: System, id: int) {
    forall states, actions :: IsPath(ps, states, actions) && states[0] == s ==> HasStatus(states[|actions|], id, Revoked)
  }

  // ---------- out of play, a revocation sticks ----------

  lemma StepKeepsRevoked(ps: Providers, s: System, a: Action, s': System, id: int)
    requires Step(ps, s, a, s') && HasStatus(s, id, Revoked) && OutOfPlay(ps, s, id)
    ensures HasStatus(s', id, Revoked)
  {
    hide IsListing, ShouldDispatch;
    if a != Revoke(id) && (id !in s'.rows || s'.rows[id] != s.rows[id]) {
      RowChange(ps, s, a, s', id);
    }
  }

  lemma DispatcherKeepsOutOfPlay(ps: Providers, s: System, a: Action, s': System, id: int)
    requires Step(ps, s, a, s') && HasStatus(s, id, Revoked) && OutOfPlay(ps, s, id)
    requires a.List? || a.Skip? || a.Decide? || a.Start?
    ensures OutOfPlay(ps, s', id)
  {
    if a.Skip? || a.Decide? {
      hide IsListing;
      assert forall c :: c in s.phase.queue[1..] ==> c in s.phase.queue;
    }
  }

  lemma StepKeepsOutOfPlay(ps: Providers, s: System, a: Action, s': System, id: int)
    requires Step(ps, s, a, s') && HasStatus(s, id, Revoked) && OutOfPlay(ps, s, id)
    ensures OutOfPlay(ps, s', id)
  {
    if a.List? || a.Skip? || a.Decide? || a.Start? {
      hide Step;
      DispatcherKeepsOutOfPlay(ps, s, a, s', id);
    } else {
      assert Queue(s') == Queue(s) && Held(s') == Held(s);
      hide Queue, Held, IsListing, ShouldDispatch;
    }
  }

  lemma {:induction false} PathKeepsRevoked(ps: Providers, states: seq<System>, actions: seq<Action>, n: nat, id: int)
    requires IsPath(ps, states, actions) && n < |states| && HasStatus(states[0], id, Revoked) && OutOfPlay(ps, states[0], id)
    ensures HasStatus(states[n], id, Revoked) && OutOfPlay(ps, states[n], id)
    decreases n
  {
    hide Step, OutOfPlay, HasStatus;
    if n > 0 {
      PathKeepsRevoked(ps, states, actions, n - 1, id);
      StepKeepsRevoked(ps, states[n - 1], actions[n - 1], states[n], id);
      StepKeepsOutOfPlay(ps, states[n - 1], actions[n - 1], states[n], id);
    }
  }

  // ---------- in play, some continuation undoes it ----------

  lemma Prepend(ps: Providers, s: System, a: Action, states: seq<System>, actions: seq<Action>)
    requires IsPath(ps, states, actions) && Step(ps, s, a, states[0])
    ensures IsPath(ps, [s] + states, [a] + actions)
    ensures ([s] + states)[|[a] + actions|] == states[|actions|]
  {
    hide Step;
  }

  lemma {:induction false} FreshWorker(taken: set<nat>) returns (w: nat)
    ensures forall v :: v in taken ==> v < w
    decreases taken
  {
    if taken == {} {
      w := 0;
    } else {
      var v :| v in taken;
      var u := FreshWorker(taken - {v});
      w := if u <= v then v + 1 else u;
      assert forall x :: x in taken ==> x == v || x in taken - {v};
    }
  }

  /** How far the dispatcher is from starting everything it may. */
  function Busy(s: System): nat {
    |SyncingNow(s.workers)| + |Holding(s.workers)|
  }

  ghost predicate HeadIsDue(ps: Providers, s: System) {
    Queue(s) != [] && ShouldDispatch(Queue(s)[0], ps, s.clock)
  }

  /** One step closer to a sync of the connection. */
  ghost predicate Closer(ps: Providers, s: System, s': System) {
    || |Queue(s')| < |Queue(s)|
    || (|Queue(s')| == |Queue(s)| && Held(s').None? && Held(s).Some?)
    || (|Queue(s')| == |Queue(s)| && Held(s').Some? == Held(s).Some? && Busy(s') < Busy(s))
    || (|Queue(s')| == |Queue(s)| && Held(s').Some? == Held(s).Some? && Busy(s') == Busy(s) && HeadIsDue(ps, s') && !HeadIsDue(ps, s))
  }

  ghost predicate Advance(ps: Providers, s: System, a: Action, s': System, id: int) {
    Step(ps, s, a, s') && id in s'.rows && !OutOfPlay(ps, s', id) && Closer(ps, s, s')
  }

  /** A free slot lets the held connection start. */
  lemma StartTheHeld(ps: Providers, s: System, id: int) returns (a: Action, s': System)
    requires id in s.rows && !OutOfPlay(ps, s, id) && Held(s).Some? && s.sem < MAX_CONCURRENT
    requires forall w :: w in s.workers && s.workers[w].stage.Syncing? ==> s.workers[w].id != id
    ensures Advance(ps, s, a, s', id)
  {
    var w := FreshWorker(s.workers.Keys);
    assert w !in s.workers.Keys;
    a := Start(w);
    s' := s.(phase := Dispatching(s.phase.queue, None),
             workers := s.workers[w := Worker(s.phase.held.value.id, Syncing)], sem := s.sem + 1);
    assert w in s'.workers && s'.workers[w].stage.Syncing?;
  }

  lemma MarkingEndsASync(workers: map<nat, Worker>, w: nat)
    requires w in workers && workers[w].stage.Syncing?
    ensures |SyncingNow(workers[w := workers[w].(stage := Marked)])| == |SyncingNow(workers)| - 1
  {
    assert SyncingNow(workers) == SyncingNow(workers[w := workers[w].(stage := Marked)]) + {w};
  }

  lemma ReleasingEndsNoSync(workers: map<nat, Worker>, w: nat)
    requires w in workers && workers[w].stage.Marked?
    ensures SyncingNow(workers[w := workers[w].(stage := Released)]) == SyncingNow(workers)
  {
  }

  /** With all slots taken, some other goroutine can mark, or release its slot. */
  lemma FreeASlot(ps: Providers, s: System, id: int) returns (a: Action, s': System)
    requires CountersAgree(s) && id in s.rows && !OutOfPlay(ps, s, id) && Held(s).Some? && s.sem == MAX_CONCURRENT
    requires forall w :: w in s.workers && s.workers[w].stage.Syncing? ==> s.workers[w].id != id
    ensures Advance(ps, s, a, s', id)
  {
    assert Holding(s.workers) != {};
    var w :| w in Holding(s.workers);
    if s.workers[w].stage.Syncing? {
      a := Mark(w, Errored(""), false);
      s' := s.(workers := s.workers[w := s.workers[w].(stage := Marked)], marks := s.marks + multiset{s.workers[w].id});
      MarkingEndsASync(s.workers, w);
      MarkingKeepsTheSlot(s.workers, w);
    } else {
      a := Release(w);
      s' := s.(workers := s.workers[w := s.workers[w].(stage := Released)], sem := s.sem - 1);
      ReleasingEndsNoSync(s.workers, w);
      ReleasingFreesASlot(s.workers, w);
    }
    hide SyncingNow, Holding, CountersAgree;
    assert Queue(s') == Queue(s) && Held(s') == Held(s);
  }

  /** The head of the queue is decided; waiting makes it due if it is the connection. */
  lemma DecideTheHead(ps: Providers, s: System, id: int) returns (a: Action, s': System)
    requires id in s.rows && !OutOfPlay(ps, s, id) && Held(s).None?
    requires forall w :: w in s.workers && s.workers[w].stage.Syncing? ==> s.workers[w].id != id
    ensures Advance(ps, s, a, s', id)
  {
    var c :| c in Queue(s) && c.provider in ps && c.id == id;
    var head, rest := s.phase.queue[0], s.phase.queue[1..];
    assert s.phase.queue == [head] + rest;
    if ShouldDispatch(head, ps, s.clock) {
      a := Decide;
      s' := s.(phase := Dispatching(rest, Some(head)), decisions := s.decisions + [Decision(head, s.clock, true)], wg := s.wg + 1);
      assert c == head || c in Queue(s');
    } else if head.id == id && head.provider in ps {
      var due := head.lastSyncedAt.value + ps[head.provider];
      a := Tick(if due < s.clock then s.clock else due);
      s' := s.(clock := if due < s.clock then s.clock else due);
      assert Queue(s') == Queue(s) && Held(s') == Held(s);
      assert HeadIsDue(ps, s');
    } else {
      a := Skip;
      s' := s.(phase := Dispatching(rest, None), decisions := s.decisions + [Decision(head, s.clock, false)]);
      assert c in Queue(s');
    }
  }

  lemma NextMove(ps: Providers, s: System, id: int) returns (a: Action, s': System)
    requires CountersAgree(s) && id in s.rows && !OutOfPlay(ps, s, id)
    requires forall w :: w in s.workers && s.workers[w].stage.Syncing? ==> s.workers[w].id != id
    ensures Advance(ps, s, a, s', id) && CountersAgree(s')
  {
    assert s.sem <= MAX_CONCURRENT;
    if Held(s).None? {
      a, s' := DecideTheHead(ps, s, id);
    } else if s.sem < MAX_CONCURRENT {
      a, s' := StartTheHeld(ps, s, id);
    } else {
      a, s' := FreeASlot(ps, s, id);
    }
    hide Step, CountersAgree;
    CountersStep(ps, s, a, s');
  }

  lemma TheSyncLands(ps: Providers, s: System, id: int, w: nat) returns (a: Action, s': System)
    requires id in s.rows && w in s.workers && s.workers[w] == Worker(id, Syncing)
    ensures Step(ps, s, a, s') && HasStatus(s', id, Active)
  {
    a := Mark(w, Synced(""), true);
    s' := s.(rows := s.rows[id := Marking(s.rows[id], Synced(""), s.clock)],
             workers := s.workers[w := s.workers[w].(stage := Marked)],
             marks := s.marks + multiset{id});
  }

  /** From a connection in play, some continuation syncs it and writes status active. */
  lemma {:induction false} InPlayRevives(ps: Providers, s: System, id: int) returns (states: seq<System>, actions: seq<Action>)
    requires CountersAgree(s) && id in s.rows && !OutOfPlay(ps, s, id)
    ensures IsPath(ps, states, actions) && states[0] == s && HasStatus(states[|actions|], id, Active)
    decreases |Queue(s)|, Held(s).Some?, Busy(s), !HeadIsDue(ps, s)
  {
    if w :| w in s.workers && s.workers[w] == Worker(id, Syncing) {
      var a, s' := TheSyncLands(ps, s, id, w);
      hide Step;
      states, actions := [s, s'], [a];
    } else {
      var a, s' := NextMove(ps, s, id);
      hide Step, OutOfPlay, CountersAgree, Busy, HeadIsDue, HasStatus;
      var more, later := InPlayRevives(ps, s', id);
      Prepend(ps, s, a, more, later);
      states, actions := [s] + more, [a] + later;
    }
  }

  // ---------- exactly ----------

  function Revoking(s: System, id: int): System
    requires id in s.rows
  {
    s.(rows := s.rows[id := s.rows[id].(status := Revoked)])
  }

  /**
   At any point of any run, a revocation of a connection is permanent in every
   continuation if and only if the connection is neither syncing, nor held for a slot,
   nor queued with a known provider.
   */
  lemma RevocationIsPermanentExactly(ps: Providers, states: seq<System>, actions: seq<Action>, n: nat, id: int)
    requires IsRun(ps, states, actions) && n < |states| && id in states[n].rows
    ensures Step(ps, states[n], Revoke(id), Revoking(states[n], id))
    ensures RevokedForGood(ps, Revoking(states[n], id), id) <==> OutOfPlay(ps, states[n], id)
  {
    RunKeepsInv(ps, states, actions, n);
    var s := Revoking(states[n], id);
    assert CountersAgree(s) && (OutOfPlay(ps, s, id) <==> OutOfPlay(ps, states[n], id)) by {
      assert Queue(s) == Queue(states[n]) && Held(s) == Held(states[n]);
    }
    assert Step(ps, states[n], Revoke(id), s) && HasStatus(s, id, Revoked);
    hide Step, OutOfPlay, CountersAgree, Inv, IsRun, IsPath;
    RevokedForGoodExactly(ps, s, id);
  }

  lemma RevokedForGoodExactly(ps: Providers, s: System, id: int)
    requires CountersAgree(s) && HasStatus(s, id, Revoked)
    ensures RevokedForGood(ps, s, id) <==> OutOfPlay(ps, s, id)
  {
    hide Step, OutOfPlay, CountersAgree;
    if OutOfPlay(ps, s, id) {
      forall path, moves | IsPath(ps, path, moves) && path[0] == s ensures HasStatus(path[|moves|], id, Revoked) {
        PathKeepsRevoked(ps, path, moves, |moves|, id);
      }
    } else {
      var path, moves := InPlayRevives(ps, s, id);
      assert IsPath(ps, path, moves) && path[0] == s;
    }
  }
}
