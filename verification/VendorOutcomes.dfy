/**
 What the end of a sync means for its connection: the row it leaves, and whether the next
 cycles list it again (cmd/vendor-sync/main.go, internal/db/vendor_connections.sql.go).
 */
module VendorOutcomes {
  import opened Options
  import opened VendorSync
  import opened VendorSyncTheorems

  /** The row a Mark leaves: active and synced now, in error, or rejected; only what the call names changes. */
  lemma MarkedRow(ps: Providers, s: System, w: nat, outcome: Outcome, s': System)
    requires Step(ps, s, Mark(w, outcome, true), s') && s.workers[w].id in s.rows
    ensures var id := s.workers[w].id;
            var c := s.rows[id];
            && s'.rows.Keys == s.rows.Keys && (forall j :: j in s.rows && j != id ==> s'.rows[j] == s.rows[j])
            && s'.rows[id] == match outcome
                              case Synced(ref) => Connection(c.provider, c.credential, Active, Some(s.clock), None, Some(ref))
                              case Errored(message) =>
                                Connection(c.provider, c.credential, Error, c.lastSyncedAt, Some(message), c.externalRef)
                              case WrongCredentials(message) =>
                                Connection(c.provider, c.credential, InvalidCredentials, c.lastSyncedAt, Some(message), c.externalRef)
  {
  }

  /** A cycle lists a row that decrypts if and only if it is pending, active or in error, and as it then is. */
  lemma ListedExactlyIf(ps: Providers, s: System, undecryptable: set<int>, s': System, id: int)
    requires Step(ps, s, List(undecryptable), s') && id in s.rows && id !in undecryptable
    ensures var c := s.rows[id];
            (c.status == Pending || c.status == Active || c.status == Error)
            <==> exists i :: 0 <= i < |s'.listing| && s'.listing[i] == Listed(id, c.provider, c.lastSyncedAt)
  {
    if Pollable(s.rows[id].status) {
      var i :| 0 <= i < |s'.listing| && s'.listing[i].id == id;
      assert s'.listing[i] == Listed(id, s.rows[id].provider, s.rows[id].lastSyncedAt);
    }
  }

  /**
   A failed sync is retried if and only if the vendor did not put it down to the
   credentials: in any later cycle of any run that finds the row as the sync left it, the
   connection is listed again, and it is as due as it was.  A synced one is listed with
   the instant of its sync.
   */
  lemma FailedSyncIsRetriedExactlyIf(ps: Providers, states: seq<System>, actions: seq<Action>, m: nat, n: nat, w: nat, outcome: Outcome)
    requires IsRun(ps, states, actions) && m < n < |actions|
    requires actions[m] == Mark(w, outcome, true) && actions[n].List? && w in states[m].workers
    requires var id := states[m].workers[w].id;
             && id in states[m].rows && id !in actions[n].undecryptable
             && id in states[m + 1].rows && id in states[n].rows && states[n].rows[id] == states[m + 1].rows[id]
    ensures var id := states[m].workers[w].id;
            var c, listing := states[m].rows[id], states[n + 1].listing;
            && (outcome.WrongCredentials? <==> forall i :: 0 <= i < |listing| ==> listing[i].id != id)
            && (outcome.Errored? ==> Listed(id, c.provider, c.lastSyncedAt) in listing)
            && (outcome.Synced? ==> Listed(id, c.provider, Some(states[m].clock)) in listing)
  {
    var id := states[m].workers[w].id;
    assert Step(ps, states[m], actions[m], states[m + 1]) && Step(ps, states[n], actions[n], states[n + 1]);
    MarkedRow(ps, states[m], w, outcome, states[m + 1]);
    ListedExactlyIf(ps, states[n], actions[n].undecryptable, states[n + 1], id);
    if outcome.WrongCredentials? {
      NotListedUnlessPollable(ps, states[n], actions[n].undecryptable, states[n + 1], id);
    }
    hide Step, IsRun;
  }

  lemma NotListedUnlessPollable(ps: Providers, s: System, undecryptable: set<int>, s': System, id: int)
    requires Step(ps, s, List(undecryptable), s') && id in s.rows && s.rows[id].status == InvalidCredentials
    ensures forall i :: 0 <= i < |s'.listing| ==> s'.listing[i].id != id
  {
  }
}
