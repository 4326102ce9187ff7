/**
 The export job protocol: requesters inserting rows and enqueueing on a bounded
 channel, four workers running job bodies step by step, Get healing stale jobs with a
 read and a later write, and process restarts (internal/registry/exports.go).
 */
module ExportJobs {
  import opened Decimals
  import opened Options

  type Instant = int

  const QUEUE_CAPACITY: nat := 100
  const WORKERS: nat := 4
  const STALE_AFTER: Instant := 600

  datatype Status = Pending | Running | Completed | Failed

  datatype Job = Job(status: Status, resultKey: Option<string>, createdAt: Instant)

  // ---------- result keys ----------

  function Key(id: nat, filename: string): string {
    "exports/" + Decimal(id) + "-" + filename
  }

  lemma DashFreePrefix(a: string, f: string, b: string, g: string)
    requires a + "-" + f == b + "-" + g
    requires forall i :: 0 <= i < |b| ==> b[i] != '-'
    ensures |b| <= |a|
  {
    assert (a + "-" + f)[|a|] == '-';
  }

  lemma SplitAtFirstDash(a: string, f: string, b: string, g: string)
    requires a + "-" + f == b + "-" + g
    requires forall i :: 0 <= i < |a| ==> a[i] != '-'
    requires forall i :: 0 <= i < |b| ==> b[i] != '-'
    ensures a == b && f == g
  {
    DashFreePrefix(a, f, b, g);
    DashFreePrefix(b, g, a, f);
    assert a == (a + "-" + f)[..|a|] && b == (b + "-" + g)[..|b|];
    assert f == (a + "-" + f)[|a| + 1..] && g == (b + "-" + g)[|b| + 1..];
  }

  /** No file name can make two jobs share a key. */
  lemma KeysOfDistinctJobsDiffer(i: nat, f: string, j: nat, g: string)
    requires Key(i, f) == Key(j, g)
    ensures i == j && f == g
  {
    var a, b := Decimal(i), Decimal(j);
    assert a + "-" + f == Key(i, f)[8..] && b + "-" + g == Key(j, g)[8..];
    DecimalHasNoDash(i);
    DecimalHasNoDash(j);
    SplitAtFirstDash(a, f, b, g);
    DecimalIsInjective(i, j);
  }

  // ---------- the protocol ----------

  /** How far a worker is with the body it took from the queue. */
  datatype Progress =
    | Ready
    | Took(id: nat)
    | Building(id: nat)
    | Built(id: nat, filename: string)
    | Uploaded(id: nat, key: string)
    | Failing(id: nat)

  /**
   `creating` are the jobs whose row exists but which wait for room in the queue;
   `healing` are the jobs some Get has read as stale and is about to fail.  `objects`
   says which job's export is stored under a key; `begun` counts the bodies started.
   */
  datatype System = System(
    storage: bool,
    clock: Instant,
    jobs: map<nat, Job>,
    creating: set<nat>,
    queue: seq<nat>,
    workers: seq<Progress>,
    healing: map<nat, nat>,
    objects: map<string, nat>,
    begun: multiset<nat>)

  datatype Action =
    | Tick(now: Instant)
    | Insert(id: nat)
    | Enqueue(id: nat)
    | Take(worker: nat)
    | MarkRunning(worker: nat, applied: bool)
    | Build(worker: nat, filename: Option<string>)
    | Upload(worker: nat, stored: bool)
    | MarkCompleted(worker: nat, applied: bool)
    | MarkFailed(worker: nat, applied: bool)
    | Read(getter: nat, id: nat)
    | Heal(getter: nat, applied: bool)
    | Restart

  /** A Get that finds the job unfinished after ten minutes goes on to fail it. */
  predicate Stale(job: Job, now: Instant) {
    (job.status.Pending? || job.status.Running?) && now - job.createdAt > STALE_AFTER
  }

  /** UPDATE export_jobs SET status = ... WHERE id = ... */
  function SetStatus(jobs: map<nat, Job>, id: nat, status: Status): map<nat, Job> {
    if id in jobs then jobs[id := jobs[id].(status := status)] else jobs
  }

  function SetCompleted(jobs: map<nat, Job>, id: nat, key: string): map<nat, Job> {
    if id in jobs then jobs[id := jobs[id].(status := Completed, resultKey := Some(key))] else jobs
  }

  ghost predicate Step(s: System, a: Action, s': System) {
    match a
    case Tick(now) => now >= s.clock && s' == s.(clock := now)
    case Insert(id) =>
      && (forall j :: j in s.jobs ==> j < id)
      && s' == s.(jobs := s.jobs[id := Job(Pending, None, s.clock)], creating := s.creating + {id})
    case Enqueue(id) =>
      && id in s.creating && |s.queue| < QUEUE_CAPACITY
      && s' == s.(creating := s.creating - {id}, queue := s.queue + [id])
    case Take(w) =>
      && w < |s.workers| && s.workers[w].Ready? && s.queue != []
      && s' == s.(queue := s.queue[1..], workers := s.workers[w := if s.storage then Took(s.queue[0]) else Failing(s.queue[0])],
                  begun := s.begun + multiset{s.queue[0]})
    case MarkRunning(w, applied) =>
      && w < |s.workers| && s.workers[w].Took?
      && var id := s.workers[w].id;
         s' == s.(jobs := if applied then SetStatus(s.jobs, id, Running) else s.jobs,
                  workers := s.workers[w := if applied then Building(id) else Ready])
    case Build(w, filename) =>
      && w < |s.workers| && s.workers[w].Building?
      && var id := s.workers[w].id;
         s' == s.(workers := s.workers[w := if filename.Some? then Built(id, filename.value) else Failing(id)])
    case Upload(w, stored) =>
      && w < |s.workers| && s.workers[w].Built?
      && var id := s.workers[w].id; var key := Key(id, s.workers[w].filename);
         s' == s.(objects := if stored then s.objects[key := id] else s.objects,
                  workers := s.workers[w := if stored then Uploaded(id, key) else Failing(id)])
    case MarkCompleted(w, applied) =>
      && w < |s.workers| && s.workers[w].Uploaded?
      && s' == s.(jobs := if applied then SetCompleted(s.jobs, s.workers[w].id, s.workers[w].key) else s.jobs,
                  workers := s.workers[w := Ready])
    case MarkFailed(w, applied) =>
      && w < |s.workers| && s.workers[w].Failing?
      && s' == s.(jobs := if applied then SetStatus(s.jobs, s.workers[w].id, Failed) else s.jobs,
                  workers := s.workers[w := Ready])
    case Read(g, id) =>
      && g !in s.healing && id in s.jobs && Stale(s.jobs[id], s.clock)
      && s' == s.(healing := s.healing[g := id])
    case Heal(g, applied) =>
      && g in s.healing
      && s' == s.(jobs := if applied then SetStatus(s.jobs, s.healing[g], Failed) else s.jobs, healing := s.healing - {g})
    case Restart =>
      s' == s.(creating := {}, queue := [], workers := [Ready, Ready, Ready, Ready], healing := map[])
  }

  ghost predicate Init(s: System) {
    && s.jobs == map[] && s.creating == {} && s.queue == [] && s.workers == [Ready, Ready, Ready, Ready]
    && s.healing == map[] && s.objects == map[] && s.begun == multiset{}
  }

  ghost predicate IsRun(states: seq<System>, actions: seq<Action>) {
    && |states| == |actions| + 1 && Init(states[0])
    && forall i :: 0 <= i < |actions| ==> Step(states[i], actions[i], states[i + 1])
  }

  // ---------- the invariant ----------

  /** A job waits at most once, before its body has begun. */
  ghost predicate WaitsOnce(s: System) {
    && (forall i, j :: 0 <= i < j < |s.queue| ==> s.queue[i] != s.queue[j])
    && (forall id :: id in s.queue ==> id !in s.creating)
    && (forall id :: id in s.queue || id in s.creating ==> id in s.jobs && s.begun[id] == 0 && !s.jobs[id].status.Completed?)
  }

  ghost predicate BegunOnce(s: System) {
    && |s.workers| == WORKERS
    && (forall id :: id in s.begun ==> id in s.jobs && s.begun[id] == 1)
    && (forall w :: 0 <= w < |s.workers| && !s.workers[w].Ready? ==> s.workers[w].id in s.begun && !s.jobs[s.workers[w].id].status.Completed?)
    && (forall v, w :: 0 <= v < w < |s.workers| && !s.workers[v].Ready? && !s.workers[w].Ready? ==> s.workers[v].id != s.workers[w].id)
  }

  ghost predicate KeyOf(key: string, id: nat) {
    exists filename :: key == Key(id, filename)
  }

  ghost predicate StoredFor(objects: map<string, nat>, key: string, id: nat) {
    key in objects && objects[key] == id && KeyOf(key, id)
  }

  /** An export is stored before its key is written to the job. */
  ghost predicate ResultsStored(s: System) {
    && (forall id :: id in s.jobs && s.jobs[id].resultKey.Some? ==> StoredFor(s.objects, s.jobs[id].resultKey.value, id))
    && (forall id :: id in s.jobs && s.jobs[id].status.Completed? ==> s.jobs[id].resultKey.Some? && id in s.begun)
  }

  ghost predicate UploadsStored(s: System) {
    forall w :: 0 <= w < |s.workers| && s.workers[w].Uploaded? ==> StoredFor(s.objects, s.workers[w].key, s.workers[w].id)
  }

  ghost predicate Inv(s: System) {
    WaitsOnce(s) && BegunOnce(s) && ResultsStored(s) && UploadsStored(s)
  }

  // ---------- every step keeps it ----------

  /** What a step may do to the jobs other than starting bodies: nothing new is completed unless by its own worker. */
  ghost predicate JobsAdvance(s: System, s': System) {
    forall id :: id in s.jobs ==> id in s'.jobs && (s'.jobs[id].status.Completed? ==> s.jobs[id].status.Completed?)
  }

  lemma MostStepsCompleteNothing(s: System, a: Action, s': System)
    requires Step(s, a, s') && !a.MarkCompleted?
    ensures JobsAdvance(s, s')
    ensures !a.Take? ==> s'.begun == s.begun
  {
    hide Key, Stale;
  }

  lemma TakeKeepsWaiting(s: System, w: nat, s': System)
    requires WaitsOnce(s) && Step(s, Take(w), s')
    ensures WaitsOnce(s')
  {
    assert s.queue[0] in s.queue;
    assert forall id :: id in s'.queue ==> id in s.queue && id != s.queue[0];
  }

  lemma WaitsStep(s: System, a: Action, s': System)
    requires WaitsOnce(s) && BegunOnce(s) && Step(s, a, s')
    ensures WaitsOnce(s')
  {
    hide Key, Stale;
    if a.Take? {
      hide BegunOnce;
      TakeKeepsWaiting(s, a.worker, s');
    } else if a.Insert? {
      assert a.id !in s.jobs;
    } else if a.MarkCompleted? {
      assert s.begun[s.workers[a.worker].id] == 1;
      hide BegunOnce;
    } else {
      MostStepsCompleteNothing(s, a, s');
      hide BegunOnce;
    }
  }

  lemma TakeKeepsBegun(s: System, w: nat, s': System)
    requires WaitsOnce(s) && BegunOnce(s) && Step(s, Take(w), s')
    ensures BegunOnce(s')
  {
    assert s.queue[0] in s.queue;
    hide WaitsOnce;
  }

  /** A step of a body already begun. */
  lemma BodyStepKeepsBegun(s: System, s': System, w: nat)
    requires BegunOnce(s) && w < |s.workers| && !s.workers[w].Ready? && s'.begun == s.begun
    requires |s'.workers| == |s.workers| && forall v :: 0 <= v < |s.workers| && v != w ==> s'.workers[v] == s.workers[v]
    requires s'.workers[w].Ready? || s'.workers[w].id == s.workers[w].id
    requires s.jobs.Keys <= s'.jobs.Keys
    requires forall id :: id in s.jobs && s'.jobs[id].status.Completed? ==> s.jobs[id].status.Completed? || (s'.workers[w].Ready? && id == s.workers[w].id)
    ensures BegunOnce(s')
  {
  }

  lemma OtherStepKeepsBegun(s: System, s': System)
    requires BegunOnce(s) && s'.begun == s.begun && (s'.workers == s.workers || s'.workers == [Ready, Ready, Ready, Ready])
    requires JobsAdvance(s, s')
    ensures BegunOnce(s')
  {
  }

  lemma BodyStep(s: System, a: Action, s': System)
    requires Step(s, a, s') && (a.MarkRunning? || a.Build? || a.Upload? || a.MarkCompleted? || a.MarkFailed?)
    ensures var w := a.worker;
            && w < |s.workers| && !s.workers[w].Ready? && s'.begun == s.begun
            && |s'.workers| == |s.workers| && (forall v :: 0 <= v < |s.workers| && v != w ==> s'.workers[v] == s.workers[v])
            && (s'.workers[w].Ready? || s'.workers[w].id == s.workers[w].id)
            && s.jobs.Keys <= s'.jobs.Keys
            && (forall id :: id in s.jobs && s'.jobs[id].status.Completed? ==> s.jobs[id].status.Completed? || (s'.workers[w].Ready? && id == s.workers[w].id))
  {
    hide Key, Stale;
  }

  lemma BegunStep(s: System, a: Action, s': System)
    requires WaitsOnce(s) && BegunOnce(s) && Step(s, a, s')
    ensures BegunOnce(s')
  {
    hide Key, Stale, WaitsOnce, BegunOnce;
    if a.Take? {
      TakeKeepsBegun(s, a.worker, s');
    } else if a.MarkRunning? || a.Build? || a.Upload? || a.MarkCompleted? || a.MarkFailed? {
      BodyStep(s, a, s');
      hide Step;
      BodyStepKeepsBegun(s, s', a.worker);
    } else {
      MostStepsCompleteNothing(s, a, s');
      OtherStepKeepsBegun(s, s');
    }
  }

  /** Storing another export never overwrites this one: no two jobs share a key. */
  lemma StoredForStays(objects: map<string, nat>, key: string, id: nat, other: nat, filename: string)
    requires StoredFor(objects, key, id)
    ensures StoredFor(objects[Key(other, filename) := other], key, id)
  {
    var f :| key == Key(id, f);
    if key == Key(other, filename) {
      KeysOfDistinctJobsDiffer(id, f, other, filename);
    }
  }

  lemma UploadKeepsStored(s: System, w: nat, stored: bool, s': System)
    requires ResultsStored(s) && UploadsStored(s) && Step(s, Upload(w, stored), s')
    ensures ResultsStored(s') && UploadsStored(s')
  {
    var id, filename := s.workers[w].id, s.workers[w].filename;
    hide Key;
    assert StoredFor(s'.objects, Key(id, filename), id) || !stored;
    forall key, j | StoredFor(s.objects, key, j) ensures StoredFor(s'.objects, key, j) {
      StoredForStays(s.objects, key, j, id, filename);
    }
    hide StoredFor;
  }

  lemma CompletionKeepsStored(s: System, w: nat, applied: bool, s': System)
    requires BegunOnce(s) && ResultsStored(s) && UploadsStored(s) && Step(s, MarkCompleted(w, applied), s')
    ensures ResultsStored(s') && UploadsStored(s')
  {
    hide StoredFor;
  }

  lemma OtherStepKeepsResults(s: System, a: Action, s': System)
    requires ResultsStored(s) && Step(s, a, s') && !a.Upload? && !a.MarkCompleted?
    ensures ResultsStored(s')
  {
    hide StoredFor, Stale;
  }

  lemma OtherStepKeepsUploads(s: System, a: Action, s': System)
    requires UploadsStored(s) && Step(s, a, s') && !a.Upload? && !a.MarkCompleted?
    ensures UploadsStored(s')
  {
    hide StoredFor, Stale, SetStatus;
  }

  lemma StoredStep(s: System, a: Action, s': System)
    requires BegunOnce(s) && ResultsStored(s) && UploadsStored(s) && Step(s, a, s')
    ensures ResultsStored(s') && UploadsStored(s')
  {
    hide BegunOnce, ResultsStored, UploadsStored, Step;
    if a.Upload? {
      UploadKeepsStored(s, a.worker, a.stored, s');
    } else if a.MarkCompleted? {
      CompletionKeepsStored(s, a.worker, a.applied, s');
    } else {
      OtherStepKeepsResults(s, a, s');
      OtherStepKeepsUploads(s, a, s');
    }
  }

  lemma InitHasInv(s: System)
    requires Init(s)
    ensures Inv(s)
  {
  }

  lemma {:induction false} RunKeepsInv(states: seq<System>, actions: seq<Action>, n: nat)
    requires IsRun(states, actions) && n < |states|
    ensures Inv(states[n])
    decreases n
  {
    hide Step, Init, WaitsOnce, BegunOnce, ResultsStored, UploadsStored;
    if n == 0 {
      InitHasInv(states[0]);
    } else {
      RunKeepsInv(states, actions, n - 1);
      WaitsStep(states[n - 1], actions[n - 1], states[n]);
      BegunStep(states[n - 1], actions[n - 1], states[n]);
      StoredStep(states[n - 1], actions[n - 1], states[n]);
    }
  }

  // ---------- theorems ----------

  /** In every reachable state a completed job has a result key of its own, with its own export stored under it. */
  lemma CompletedJobsHaveTheirExport(states: seq<System>, actions: seq<Action>, n: nat, id: nat)
    requires IsRun(states, actions) && n < |states| && id in states[n].jobs && states[n].jobs[id].status.Completed?
    ensures states[n].jobs[id].resultKey.Some?
    ensures var key := states[n].jobs[id].resultKey.value;
            KeyOf(key, id) && key in states[n].objects && states[n].objects[key] == id
  {
    RunKeepsInv(states, actions, n);
    hide KeyOf, WaitsOnce, BegunOnce, UploadsStored;
  }

  /** Result keys of distinct jobs differ. */
  lemma ResultKeysDiffer(states: seq<System>, actions: seq<Action>, n: nat, i: nat, j: nat)
    requires IsRun(states, actions) && n < |states| && i in states[n].jobs && j in states[n].jobs && i != j
    requires states[n].jobs[i].resultKey.Some? && states[n].jobs[j].resultKey.Some?
    ensures states[n].jobs[i].resultKey != states[n].jobs[j].resultKey
  {
    RunKeepsInv(states, actions, n);
    hide KeyOf, WaitsOnce, BegunOnce, UploadsStored;
    assert StoredFor(states[n].objects, states[n].jobs[i].resultKey.value, i);
    assert StoredFor(states[n].objects, states[n].jobs[j].resultKey.value, j);
  }

  /** The jobs whose body is being run. */
  function InProgress(workers: seq<Progress>): set<nat> {
    set w | 0 <= w < |workers| && !workers[w].Ready? :: workers[w].id
  }

  lemma {:induction false} AtMostOnePerWorker(workers: seq<Progress>)
    ensures |InProgress(workers)| <= |workers|
  {
    if workers != [] {
      var rest, last := workers[..|workers| - 1], workers[|workers| - 1];
      AtMostOnePerWorker(rest);
      var more := if last.Ready? then {} else {last.id};
      assert InProgress(workers) == InProgress(rest) + more by {
        forall id | id in InProgress(rest) ensures id in InProgress(workers) {
          var w :| 0 <= w < |rest| && !rest[w].Ready? && rest[w].id == id;
          assert workers[w] == rest[w];
        }
        forall id | id in InProgress(workers) ensures id in InProgress(rest) + more {
          var w :| 0 <= w < |workers| && !workers[w].Ready? && workers[w].id == id;
          if w < |rest| {
            assert rest[w] == workers[w];
          }
        }
      }
    } else {
      assert InProgress(workers) == {};
    }
  }

  /** Every body runs at most once, restarts included; at most four run at a time, and no job in two workers. */
  lemma BodiesRunAtMostOnce(states: seq<System>, actions: seq<Action>, n: nat, id: nat)
    requires IsRun(states, actions) && n < |states|
    ensures states[n].begun[id] <= 1
    ensures |InProgress(states[n].workers)| <= 4
    ensures forall v, w :: 0 <= v < w < |states[n].workers| && !states[n].workers[v].Ready? && !states[n].workers[w].Ready?
                           ==> states[n].workers[v].id != states[n].workers[w].id
  {
    RunKeepsInv(states, actions, n);
    AtMostOnePerWorker(states[n].workers);
    hide WaitsOnce, ResultsStored, UploadsStored, InProgress;
  }

  // ---------- the queue's room and the ten minutes ----------

  lemma {:induction false} QueueHasRoom(states: seq<System>, actions: seq<Action>, n: nat)
    requires IsRun(states, actions) && n < |states|
    ensures |states[n].queue| <= 100
    decreases n
  {
    if n > 0 {
      QueueHasRoom(states, actions, n - 1);
      assert Step(states[n - 1], actions[n - 1], states[n]);
      hide Stale, Key;
    }
  }

  /** The queue never holds more than a hundred jobs, and a waiting requester gets in exactly while it holds fewer. */
  lemma EnqueuesExactlyWhileThereIsRoom(states: seq<System>, actions: seq<Action>, n: nat, id: nat)
    requires IsRun(states, actions) && n < |states| && id in states[n].creating
    ensures |states[n].queue| <= 100
    ensures (exists s' :: Step(states[n], Enqueue(id), s')) <==> |states[n].queue| < 100
  {
    QueueHasRoom(states, actions, n);
    hide IsRun;
    var s := states[n];
    if |s.queue| < 100 {
      assert Step(s, Enqueue(id), s.(creating := s.creating - {id}, queue := s.queue + [id]));
    }
  }

  /** What a Get is about to fail was created more than ten minutes ago. */
  ghost predicate HealsOldJobs(s: System) {
    forall g :: g in s.healing ==> s.healing[g] in s.jobs && s.clock - s.jobs[s.healing[g]].createdAt > 600
  }

  lemma StepKeepsHealsOldJobs(s: System, a: Action, s': System)
    requires HealsOldJobs(s) && Step(s, a, s')
    ensures HealsOldJobs(s')
  {
    hide Key;
  }

  lemma {:induction false} RunHealsOldJobs(states: seq<System>, actions: seq<Action>, n: nat)
    requires IsRun(states, actions) && n < |states|
    ensures HealsOldJobs(states[n])
    decreases n
  {
    if n > 0 {
      hide Step, HealsOldJobs;
      RunHealsOldJobs(states, actions, n - 1);
      StepKeepsHealsOldJobs(states[n - 1], actions[n - 1], states[n]);
    }
  }

  predicate Unfinished(s: System, id: nat) {
    id in s.jobs && (s.jobs[id].status.Pending? || s.jobs[id].status.Running?)
  }

  lemma FailingStep(s: System, a: Action, s': System, id: nat)
    requires Step(s, a, s') && Unfinished(s, id) && !Unfinished(s', id)
    ensures || (a.MarkFailed? && a.worker < |s.workers| && s.workers[a.worker] == Failing(id))
            || (a.MarkCompleted? && a.worker < |s.workers| && s.workers[a.worker].Uploaded? && s.workers[a.worker].id == id)
            || (a.Heal? && a.getter in s.healing && s.healing[a.getter] == id)
  {
    hide Key, Stale;
  }

  /**
   A job younger than ten minutes is finished by its own worker only; from then on any Get
   that finds it unfinished may go on to fail it, and only then.
   */
  lemma YoungJobsAreNotTimedOut(states: seq<System>, actions: seq<Action>, n: nat, id: nat)
    requires IsRun(states, actions) && n < |states| && Unfinished(states[n], id)
    ensures n < |actions| && states[n].clock - states[n].jobs[id].createdAt <= 600 && !Unfinished(states[n + 1], id) ==>
              exists w :: 0 <= w < |states[n].workers| && !states[n].workers[w].Ready? && states[n].workers[w].id == id
                          && (actions[n] == MarkFailed(w, true) || actions[n] == MarkCompleted(w, true))
    ensures forall g :: g !in states[n].healing ==>
              ((exists s' :: Step(states[n], Read(g, id), s')) <==> states[n].clock - states[n].jobs[id].createdAt > 600)
  {
    RunHealsOldJobs(states, actions, n);
    var s := states[n];
    if n < |actions| && s.clock - s.jobs[id].createdAt <= 600 && !Unfinished(states[n + 1], id) {
      assert Step(s, actions[n], states[n + 1]);
      FailingStep(s, actions[n], states[n + 1], id);
      AppliedStep(s, actions[n], states[n + 1], id);
    }
    hide IsRun;
    forall g | g !in s.healing && s.clock - s.jobs[id].createdAt > 600 ensures exists s' :: Step(s, Read(g, id), s') {
      assert Step(s, Read(g, id), s.(healing := s.healing[g := id]));
    }
  }

  lemma AppliedStep(s: System, a: Action, s': System, id: nat)
    requires Step(s, a, s') && Unfinished(s, id) && !Unfinished(s', id)
    ensures (a.MarkFailed? ==> a.applied) && (a.MarkCompleted? ==> a.applied)
  {
    hide Key, Stale;
  }

  // ---------- what a body and a restart do ----------

  ghost predicate OnlyJobChanged(s: System, s': System, id: nat, job: Job) {
    id in s.jobs && s'.jobs == s.jobs[id := job]
  }

  /** Each status write that lands moves its own job and no other; the last one frees the worker. */
  lemma BodiesMarkTheirOwnJob(states: seq<System>, actions: seq<Action>, n: nat)
    requires IsRun(states, actions) && n < |actions|
    ensures var s, s', a := states[n], states[n + 1], actions[n];
            && (a.MarkRunning? && a.applied ==>
                  && a.worker < |s.workers| && s.workers[a.worker].Took? && s.workers[a.worker].id in s.jobs
                  && var id := s.workers[a.worker].id;
                     OnlyJobChanged(s, s', id, s.jobs[id].(status := Running)) && s'.workers == s.workers[a.worker := Building(id)])
            && (a.MarkCompleted? && a.applied ==>
                  && a.worker < |s.workers| && s.workers[a.worker].Uploaded? && s.workers[a.worker].id in s.jobs
                  && var id, key := s.workers[a.worker].id, s.workers[a.worker].key;
                     OnlyJobChanged(s, s', id, Job(Completed, Some(key), s.jobs[id].createdAt)) && s'.workers == s.workers[a.worker := Ready])
            && (a.MarkFailed? && a.applied ==>
                  && a.worker < |s.workers| && s.workers[a.worker].Failing? && s.workers[a.worker].id in s.jobs
                  && var id := s.workers[a.worker].id;
                     OnlyJobChanged(s, s', id, s.jobs[id].(status := Failed)) && s'.workers == s.workers[a.worker := Ready])
  {
    RunKeepsInv(states, actions, n);
    assert Step(states[n], actions[n], states[n + 1]);
    hide IsRun, WaitsOnce, ResultsStored, UploadsStored, Key, Stale;
  }

  /** Nobody holds the job any more: not a requester, not the queue, not a worker. */
  predicate Dropped(s: System, id: nat) {
    && id in s.jobs && id !in s.creating && id !in s.queue
    && forall w :: 0 <= w < |s.workers| && !s.workers[w].Ready? ==> s.workers[w].id != id
  }

  lemma StepKeepsDropped(s: System, a: Action, s': System, id: nat)
    requires Dropped(s, id) && Step(s, a, s')
    ensures Dropped(s', id)
    ensures s'.jobs[id] == s.jobs[id] || (a.Heal? && a.getter in s.healing && s.healing[a.getter] == id && s'.jobs[id] == s.jobs[id].(status := Failed))
  {
    hide Key, Stale;
    if a.Take? {
      assert s.queue[0] in s.queue;
      assert forall j :: j in s'.queue ==> j in s.queue;
    }
  }

  lemma {:induction false} StaysDropped(states: seq<System>, actions: seq<Action>, m: nat, n: nat, id: nat)
    requires IsRun(states, actions) && m < n < |states| && actions[m].Restart? && id in states[m].jobs
    ensures Dropped(states[n], id)
    ensures states[m].jobs[id].status.Completed? || !states[n].jobs[id].status.Completed?
    decreases n
  {
    assert Step(states[n - 1], actions[n - 1], states[n]);
    if n > m + 1 {
      hide Step, Dropped;
      StaysDropped(states, actions, m, n - 1, id);
      StepKeepsDropped(states[n - 1], actions[n - 1], states[n], id);
    }
  }

  /** After a restart the work in memory is gone: a job unfinished by then never completes, and only a Get can still fail it. */
  lemma RestartLosesUnfinishedJobs(states: seq<System>, actions: seq<Action>, m: nat, n: nat, id: nat)
    requires IsRun(states, actions) && m < n < |states| && actions[m].Restart? && Unfinished(states[m], id)
    ensures id in states[n].jobs && !states[n].jobs[id].status.Completed?
    ensures n < |actions| ==>
              && id in states[n + 1].jobs
              && (states[n + 1].jobs[id] != states[n].jobs[id] ==>
                    actions[n].Heal? && actions[n].getter in states[n].healing && states[n].healing[actions[n].getter] == id)
  {
    StaysDropped(states, actions, m, n, id);
    if n < |actions| {
      assert Step(states[n], actions[n], states[n + 1]);
      StepKeepsDropped(states[n], actions[n], states[n + 1], id);
      hide Step;
    }
  }

  // ---------- storage not configured ----------

  ghost predicate NothingRuns(s: System) {
    && !s.storage && s.objects == map[]
    && (forall w :: 0 <= w < |s.workers| ==> s.workers[w].Ready? || s.workers[w].Failing?)
    && (forall id :: id in s.jobs ==> s.jobs[id].status.Pending? || s.jobs[id].status.Failed?)
  }

  lemma StepKeepsNothingRuns(s: System, a: Action, s': System)
    requires NothingRuns(s) && Step(s, a, s')
    ensures NothingRuns(s')
  {
    hide Key, Stale;
  }

  /** Without storage no job ever runs or completes, and nothing is stored. */
  lemma {:induction false} WithoutStorageNothingRuns(states: seq<System>, actions: seq<Action>, n: nat)
    requires IsRun(states, actions) && n < |states| && !states[0].storage
    ensures NothingRuns(states[n])
    decreases n
  {
    if n > 0 {
      hide Step, NothingRuns;
      WithoutStorageNothingRuns(states, actions, n - 1);
      StepKeepsNothingRuns(states[n - 1], actions[n - 1], states[n]);
    }
  }

  // ---------- a completed job can be lost ----------

  lemma StepLosesCompleted(s: System, a: Action, s': System, id: nat)
    requires BegunOnce(s) && Step(s, a, s') && id in s.jobs && s.jobs[id].status.Completed?
    ensures id in s'.jobs
    ensures !s'.jobs[id].status.Completed? <==> (a.Heal? && a.applied && s.healing[a.getter] == id)
  {
    hide Key, Stale;
  }

  /** A completed job stops being completed exactly when a Get that found it stale before lands its write. */
  lemma CompletedIsLostExactlyToAStaleGet(states: seq<System>, actions: seq<Action>, n: nat, id: nat)
    requires IsRun(states, actions) && n < |actions| && id in states[n].jobs && states[n].jobs[id].status.Completed?
    ensures id in states[n + 1].jobs
    ensures actions[n].Heal? ==> actions[n].getter in states[n].healing
    ensures !states[n + 1].jobs[id].status.Completed? <==> (actions[n].Heal? && actions[n].applied && states[n].healing[actions[n].getter] == id)
  {
    RunKeepsInv(states, actions, n);
    assert Step(states[n], actions[n], states[n + 1]);
    assert actions[n].Heal? ==> actions[n].getter in states[n].healing;
    hide Step, IsRun, WaitsOnce, BegunOnce, ResultsStored, UploadsStored;
    StepLosesCompleted(states[n], actions[n], states[n + 1], id);
  }

  /** A continuation of whatever ended in its first state. */
  ghost predicate IsPath(states: seq<System>, actions: seq<Action>) {
    && |states| == |actions| + 1
    && forall i :: 0 <= i < |actions| ==> Step(states[i], actions[i], states[i + 1])
  }

  predicate IsCompleted(s: System, id: nat) {
    id in s.jobs && s.jobs[id].status.Completed?
  }

  /** Some Get has read the job as stale and has yet to fail it. */
  predicate BeingHealed(s: System, id: nat) {
    exists g :: g in s.healing && s.healing[g] == id
  }

  lemma StepKeepsCompleted(s: System, a: Action, s': System, id: nat)
    requires Inv(s) && Step(s, a, s') && IsCompleted(s, id) && !BeingHealed(s, id)
    ensures Inv(s') && IsCompleted(s', id) && !BeingHealed(s', id)
  {
    assert !BeingHealed(s', id) by {
      hide Key, WaitsOnce, BegunOnce, ResultsStored, UploadsStored;
    }
    hide Step, WaitsOnce, BegunOnce, ResultsStored, UploadsStored;
    WaitsStep(s, a, s');
    BegunStep(s, a, s');
    StoredStep(s, a, s');
    HealingOf(s, a, s');
    StepLosesCompleted(s, a, s', id);
  }

  lemma HealingOf(s: System, a: Action, s': System)
    requires Step(s, a, s')
    ensures a.Heal? ==> a.getter in s.healing
  {
  }

  lemma {:induction false} PathKeepsCompleted(states: seq<System>, actions: seq<Action>, n: nat, id: nat)
    requires IsPath(states, actions) && n < |states| && Inv(states[0])
    requires IsCompleted(states[0], id) && !BeingHealed(states[0], id)
    ensures Inv(states[n]) && IsCompleted(states[n], id) && !BeingHealed(states[n], id)
    decreases n
  {
    hide Step, Inv, IsCompleted, BeingHealed;
    if n > 0 {
      PathKeepsCompleted(states, actions, n - 1, id);
      StepKeepsCompleted(states[n - 1], actions[n - 1], states[n], id);
    }
  }

  ghost predicate CompletedForGood(s: System, id: nat) {
    forall states, actions :: IsPath(states, actions) && states[0] == s ==> IsCompleted(states[|actions|], id)
  }

  /**
   At any point of any run a completed job stays completed in every continuation if and
   only if no Get that read it as stale is still about to fail it.
   */
  lemma CompletedIsPermanentExactly(states: seq<System>, actions: seq<Action>, n: nat, id: nat)
    requires IsRun(states, actions) && n < |states| && IsCompleted(states[n], id)
    ensures CompletedForGood(states[n], id) <==> !BeingHealed(states[n], id)
  {
    RunKeepsInv(states, actions, n);
    var s := states[n];
    hide Inv, IsRun;
    if BeingHealed(s, id) {
      var g :| g in s.healing && s.healing[g] == id;
      var s' := s.(jobs := SetStatus(s.jobs, id, Failed), healing := s.healing - {g});
      assert Step(s, Heal(g, true), s');
      assert IsPath([s, s'], [Heal(g, true)]) && !IsCompleted(s', id);
    } else {
      hide Step, BeingHealed, IsCompleted;
      forall path, moves | IsPath(path, moves) && path[0] == s ensures IsCompleted(path[|moves|], id) {
        PathKeepsCompleted(path, moves, |moves|, id);
      }
    }
  }

  /** A restart forgets the Gets about to write, so what is completed by then stays completed. */
  lemma RestartSecuresCompletedJobs(states: seq<System>, actions: seq<Action>, m: nat, id: nat)
    requires IsRun(states, actions) && m < |actions| && actions[m].Restart? && IsCompleted(states[m], id)
    ensures IsCompleted(states[m + 1], id) && CompletedForGood(states[m + 1], id)
  {
    assert Step(states[m], actions[m], states[m + 1]);
    hide IsRun;
    CompletedIsPermanentExactly(states, actions, m + 1, id);
  }

  lemma ExtendRun(states: seq<System>, actions: seq<Action>, a: Action, s': System)
    requires IsRun(states, actions) && Step(states[|actions|], a, s')
    ensures IsRun(states + [s'], actions + [a])
  {
    hide Step, Init;
  }

  lemma JobIsQueued() returns (states: seq<System>, actions: seq<Action>)
    ensures IsRun(states, actions)
    ensures states[|actions|] == System(true, 0, map[0 := Job(Pending, None, 0)], {}, [0], [Ready, Ready, Ready, Ready], map[], map[], multiset{})
  {
    var s0 := System(true, 0, map[], {}, [], [Ready, Ready, Ready, Ready], map[], map[], multiset{});
    var s1 := s0.(jobs := map[0 := Job(Pending, None, 0)], creating := {0});
    var s2 := s1.(creating := {}, queue := [0]);
    states, actions := [s0, s1, s2], [Insert(0), Enqueue(0)];
  }

  lemma SlowJobIsRead() returns (states: seq<System>, actions: seq<Action>)
    ensures IsRun(states, actions)
    ensures states[|actions|] == System(true, 601, map[0 := Job(Running, None, 0)], {}, [], [Building(0), Ready, Ready, Ready], map[0 := 0],
                                        map[], multiset{0})
  {
    states, actions := JobIsQueued();
    hide IsRun;
    var s2 := states[|actions|];
    var s3 := s2.(queue := [], workers := [Took(0), Ready, Ready, Ready], begun := multiset{0});
    var s4 := s3.(jobs := map[0 := Job(Running, None, 0)], workers := [Building(0), Ready, Ready, Ready]);
    var s5 := s4.(clock := 601);
    var s6 := s5.(healing := map[0 := 0]);
    RunLength(states, actions);
    ExtendRun(states, actions, Take(0), s3);
    ExtendRun(states + [s3], actions + [Take(0)], MarkRunning(0, true), s4);
    states, actions := states + [s3] + [s4], actions + [Take(0)] + [MarkRunning(0, true)];
    ExtendRun(states, actions, Tick(601), s5);
    ExtendRun(states + [s5], actions + [Tick(601)], Read(0, 0), s6);
    states, actions := states + [s5] + [s6], actions + [Tick(601)] + [Read(0, 0)];
  }

  lemma RunLength(states: seq<System>, actions: seq<Action>)
    requires IsRun(states, actions)
    ensures |states| == |actions| + 1
  {
  }

  /** It happens: the job completes between a Get's read and its write, and ends failed with its export stored. */
  lemma StaleGetOverwritesACompletedJob(filename: string) returns (states: seq<System>, actions: seq<Action>)
    ensures IsRun(states, actions) && |actions| > 0
    ensures var s := states[|actions| - 1]; 0 in s.jobs && s.jobs[0].status.Completed?
    ensures var s := states[|actions|]; 0 in s.jobs && s.jobs[0] == Job(Failed, Some(Key(0, filename)), 0) && Key(0, filename) in s.objects
  {
    states, actions := SlowJobIsRead();
    hide Key;
    var s6 := states[|actions|];
    var key := Key(0, filename);
    var s7 := s6.(workers := [Built(0, filename), Ready, Ready, Ready]);
    var s8 := s7.(workers := [Uploaded(0, key), Ready, Ready, Ready], objects := map[key := 0]);
    var s9 := s8.(workers := [Ready, Ready, Ready, Ready], jobs := map[0 := Job(Completed, Some(key), 0)]);
    var s10 := s9.(jobs := map[0 := Job(Failed, Some(key), 0)], healing := map[]);
    ExtendRun(states, actions, Build(0, Some(filename)), s7);
    ExtendRun(states + [s7], actions + [Build(0, Some(filename))], Upload(0, true), s8);
    states, actions := states + [s7] + [s8], actions + [Build(0, Some(filename))] + [Upload(0, true)];
    ExtendRun(states, actions, MarkCompleted(0, true), s9);
    ExtendRun(states + [s9], actions + [MarkCompleted(0, true)], Heal(0, true), s10);
    states, actions := states + [s9] + [s10], actions + [MarkCompleted(0, true)] + [Heal(0, true)];
  }
}
