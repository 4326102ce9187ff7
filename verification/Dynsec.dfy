/**
 The request/response protocol of the dynsec admin client: callers serialised by a
 mutex, a one-slot response channel drained before each publish, a handler that
 drops a response when the slot is taken, and timeouts that abandon a request whose
 response is still on its way (internal/mqttadmin/dynsec.go).
 */
module Dynsec {
  import opened Options

  // ---------- reading a response ----------

  datatype CommandResponse = CommandResponse(command: string, error: string)

  datatype Payload = Unparseable | Responses(responses: seq<CommandResponse>)

  datatype Verdict = Succeeded | Rejected(command: string, message: string) | ParseFailure

  /** The first command the broker rejected, if any. */
  function FirstRejection(rs: seq<CommandResponse>): Verdict {
    if rs == [] then Succeeded
    else if rs[0].error != "" then Rejected(rs[0].command, rs[0].error)
    else FirstRejection(rs[1..])
  }

  function VerdictOf(p: Payload): Verdict {
    if p.Unparseable? then ParseFailure else FirstRejection(p.responses)
  }

  /** A command is rejected by a non-empty error; the first rejected one is reported. */
  method ReadResponse(p: Payload) returns (v: Verdict)
    ensures v.ParseFailure? <==> p.Unparseable?
    ensures v.Succeeded? <==> p.Responses? && forall i :: 0 <= i < |p.responses| ==> p.responses[i].error == ""
    ensures v.Rejected? ==>
              p.Responses? && exists i :: 0 <= i < |p.responses| && p.responses[i].error != ""
                                          && v == Rejected(p.responses[i].command, p.responses[i].error)
                                          && forall j :: 0 <= j < i ==> p.responses[j].error == ""
    ensures v == VerdictOf(p)
  {
    if p.Unparseable? {
      return ParseFailure;
    }
    for i := 0 to |p.responses|
      invariant FirstRejection(p.responses) == FirstRejection(p.responses[i..])
      invariant forall j :: 0 <= j < i ==> p.responses[j].error == ""
    {
      var r := p.responses[i];
      if r.error != "" {
        return Rejected(r.command, r.error);
      }
    }
    return Succeeded;
  }

  /** A batch succeeds exactly when no command of it was rejected; otherwise the first rejection is reported. */
  lemma {:induction false} VerdictIsTheFirstRejection(p: Payload)
    ensures VerdictOf(p).ParseFailure? <==> p.Unparseable?
    ensures VerdictOf(p).Succeeded? <==> p.Responses? && forall i :: 0 <= i < |p.responses| ==> p.responses[i].error == ""
    ensures VerdictOf(p).Rejected? ==>
              p.Responses? && exists i :: 0 <= i < |p.responses| && p.responses[i].error != ""
                                          && VerdictOf(p) == Rejected(p.responses[i].command, p.responses[i].error)
                                          && forall j :: 0 <= j < i ==> p.responses[j].error == ""
    decreases if p.Responses? then |p.responses| else 0
  {
    if p.Responses? && p.responses != [] && p.responses[0].error == "" {
      var rs, rest := p.responses, p.responses[1..];
      VerdictIsTheFirstRejection(Responses(rest));
      assert forall i :: 0 < i < |rs| ==> rs[i] == rest[i - 1];
      if FirstRejection(rs).Rejected? {
        var i :| 0 <= i < |rest| && rest[i].error != "" && FirstRejection(rest) == Rejected(rest[i].command, rest[i].error)
                 && forall j :: 0 <= j < i ==> rest[j].error == "";
        assert rs[i + 1].error != "" && FirstRejection(rs) == Rejected(rs[i + 1].command, rs[i + 1].error);
      }
    }
  }

  // ---------- the protocol ----------

  /** A response names the request it answers in this model only; on the wire it does not. */
  datatype Response = Response(request: nat, payload: Payload)

  datatype Outcome = Answered(verdict: Verdict) | PublishFailed | GaveUp

  /** How far the caller inside the mutex is. */
  datatype Progress = Free | Locked(request: nat) | Drained(request: nat) | Waiting(request: nat)

  /**
   `started` are the requests that have had the mutex, `inbox` those published but not
   yet processed by the broker, `transit` the responses not yet handed to the handler.
   `answers`, `outcomes` and `debt` record what the broker answered, what the callers
   were told, and the requests still on their way when the channel was last drained.
   */
  datatype State = State(
    progress: Progress,
    started: set<nat>,
    channel: Option<Response>,
    inbox: seq<nat>,
    transit: seq<Response>,
    answers: map<nat, Payload>,
    outcomes: map<nat, Outcome>,
    debt: seq<nat>)

  datatype Action =
    | Lock(request: nat)
    | Drain
    | Publish
    | PublishError(sent: bool)
    | Receive
    | GiveUp
    | Process(payload: Payload)
    | Deliver

  function Requests(transit: seq<Response>): seq<nat> {
    seq(|transit|, i requires 0 <= i < |transit| => transit[i].request)
  }

  /** The requests whose response has not reached the handler, in the order their responses will. */
  function Pipeline(s: State): seq<nat> {
    Requests(s.transit) + s.inbox
  }

  ghost predicate Step(s: State, a: Action, s': State) {
    match a
    case Lock(r) =>
      && s.progress.Free? && r !in s.started
      && s' == s.(progress := Locked(r), started := s.started + {r})
    case Drain =>
      && s.progress.Locked?
      && s' == s.(progress := Drained(s.progress.request), channel := None, debt := Pipeline(s))
    case Publish =>
      && s.progress.Drained?
      && s' == s.(progress := Waiting(s.progress.request), inbox := s.inbox + [s.progress.request])
    case PublishError(sent) =>
      && s.progress.Drained?
      && s' == s.(progress := Free, inbox := if sent then s.inbox + [s.progress.request] else s.inbox,
                  outcomes := s.outcomes[s.progress.request := PublishFailed])
    case Receive =>
      && s.progress.Waiting? && s.channel.Some?
      && s' == s.(progress := Free, channel := None,
                  outcomes := s.outcomes[s.progress.request := Answered(VerdictOf(s.channel.value.payload))])
    case GiveUp =>
      && s.progress.Waiting?
      && s' == s.(progress := Free, outcomes := s.outcomes[s.progress.request := GaveUp])
    case Process(payload) =>
      && s.inbox != []
      && s' == s.(inbox := s.inbox[1..], transit := s.transit + [Response(s.inbox[0], payload)],
                  answers := s.answers[s.inbox[0] := payload])
    case Deliver =>
      && s.transit != []
      && s' == s.(transit := s.transit[1..], channel := if s.channel.None? then Some(s.transit[0]) else s.channel)
  }

  ghost predicate Init(s: State) {
    s.progress.Free? && s.started == {} && s.channel.None? && s.inbox == [] && s.transit == [] && s.answers == map[] && s.outcomes == map[]
  }

  ghost predicate IsRun(states: seq<State>, actions: seq<Action>) {
    && |states| == |actions| + 1 && Init(states[0])
    && forall i :: 0 <= i < |actions| ==> Step(states[i], actions[i], states[i + 1])
  }

  // ---------- the invariant ----------

  /** Every request is published once and answered once, and a response carries the answer to its own request. */
  ghost predicate AnswersAgree(s: State) {
    && (forall i, j :: 0 <= i < j < |s.inbox| ==> s.inbox[i] != s.inbox[j])
    && (forall r :: r in s.inbox ==> r !in s.answers && r in s.started)
    && (forall r :: r in s.answers ==> r in s.started)
    && (forall x :: x in s.transit ==> x.request in s.answers && s.answers[x.request] == x.payload)
    && (s.channel.Some? ==> s.channel.value.request in s.answers && s.answers[s.channel.value.request] == s.channel.value.payload)
  }

  /** The caller inside the mutex has not published before, and owes nothing to itself. */
  ghost predicate CallerIsFresh(s: State) {
    && (!s.progress.Free? ==> s.progress.request in s.started)
    && (s.progress.Locked? || s.progress.Drained? ==> s.progress.request !in s.inbox && s.progress.request !in s.answers)
    && (s.progress.Drained? || s.progress.Waiting? ==> s.progress.request !in s.debt)
  }

  /** What is to arrive from the drain on. */
  function Owed(s: State): seq<nat> {
    if s.progress.Waiting? then s.debt + [s.progress.request] else s.debt
  }

  /** Since the drain, the channel is still empty and everything owed is on its way, or it holds the first response owed. */
  ghost predicate FirstComesFirst(s: State) {
    s.progress.Drained? || s.progress.Waiting? ==>
      if s.channel.None? then Pipeline(s) == Owed(s)
      else Owed(s) != [] && s.channel.value.request == Owed(s)[0]
  }

  ghost predicate Inv(s: State) {
    AnswersAgree(s) && CallerIsFresh(s) && FirstComesFirst(s)
  }

  lemma PipelineHead(s: State)
    requires s.transit != []
    ensures Pipeline(s) == [s.transit[0].request] + Pipeline(s.(transit := s.transit[1..]))
  {
  }

  lemma ProcessingKeepsThePipeline(s: State, payload: Payload)
    requires s.inbox != []
    ensures Pipeline(s) == Pipeline(s.(inbox := s.inbox[1..], transit := s.transit + [Response(s.inbox[0], payload)]))
  {
  }

  lemma AnswersStep(s: State, a: Action, s': State)
    requires AnswersAgree(s) && CallerIsFresh(s) && Step(s, a, s')
    ensures AnswersAgree(s')
  {
    hide VerdictOf;
    if a.Process? {
      assert s.inbox[0] in s.inbox;
      assert forall r :: r in s'.inbox ==> r in s.inbox && r != s.inbox[0];
      assert forall x :: x in s'.transit ==> x in s.transit || x == Response(s.inbox[0], a.payload);
    } else if a.Deliver? {
      assert s.transit[0] in s.transit;
      assert forall x :: x in s'.transit ==> x in s.transit;
    }
  }

  lemma PipelineIsPublished(s: State, r: nat)
    requires AnswersAgree(s) && r in Pipeline(s)
    ensures r in s.answers || r in s.inbox
  {
    if r in Requests(s.transit) {
      var i :| 0 <= i < |s.transit| && s.transit[i].request == r;
      assert s.transit[i] in s.transit;
    }
  }

  lemma FreshStep(s: State, a: Action, s': State)
    requires AnswersAgree(s) && CallerIsFresh(s) && Step(s, a, s')
    ensures CallerIsFresh(s')
  {
    hide VerdictOf;
    if a.Drain? && s.progress.request in Pipeline(s) {
      PipelineIsPublished(s, s.progress.request);
    }
  }

  lemma FirstStep(s: State, a: Action, s': State)
    requires FirstComesFirst(s) && Step(s, a, s')
    ensures FirstComesFirst(s')
  {
    hide VerdictOf;
    if a.Process? {
      ProcessingKeepsThePipeline(s, a.payload);
    } else if a.Deliver? {
      PipelineHead(s);
    }
  }

  lemma {:induction false} RunKeepsInv(states: seq<State>, actions: seq<Action>, n: nat)
    requires IsRun(states, actions) && n < |states|
    ensures Inv(states[n])
    decreases n
  {
    hide Step, AnswersAgree, CallerIsFresh, FirstComesFirst;
    if n == 0 {
      InitHasInv(states[0]);
    } else {
      RunKeepsInv(states, actions, n - 1);
      AnswersStep(states[n - 1], actions[n - 1], states[n]);
      FreshStep(states[n - 1], actions[n - 1], states[n]);
      FirstStep(states[n - 1], actions[n - 1], states[n]);
    }
  }

  lemma InitHasInv(s: State)
    requires Init(s)
    ensures Inv(s)
  {
  }

  // ---------- whose verdict a send returns ----------

  /** The caller that is now past its drain drained at step m, with `debt` still on its way. */
  ghost predicate DrainedAt(states: seq<State>, actions: seq<Action>, m: nat, r: nat, debt: seq<nat>) {
    m < |actions| < |states| && actions[m] == Drain && states[m].progress == Locked(r) && Pipeline(states[m]) == debt
  }

  lemma {:induction false} DebtIsFromTheDrain(states: seq<State>, actions: seq<Action>, n: nat) returns (m: nat)
    requires IsRun(states, actions) && n < |states| && (states[n].progress.Drained? || states[n].progress.Waiting?)
    ensures m < n && DrainedAt(states, actions, m, states[n].progress.request, states[n].debt)
    decreases n
  {
    hide VerdictOf;
    assert n > 0;
    assert Step(states[n - 1], actions[n - 1], states[n]);
    if actions[n - 1] == Drain {
      m := n - 1;
    } else {
      m := DebtIsFromTheDrain(states, actions, n - 1);
    }
  }

  /**
   A send that completes returns the verdict on the oldest request whose response was
   still on its way when it drained the channel; it is told about its own batch if and
   only if nothing was.
   */
  lemma SendReturnsTheOldestOwed(states: seq<State>, actions: seq<Action>, n: nat) returns (m: nat, whose: nat)
    requires IsRun(states, actions) && n < |actions| && actions[n] == Receive
    ensures m < n && states[n].progress.Waiting?
    ensures DrainedAt(states, actions, m, states[n].progress.request, Pipeline(states[m]))
    ensures whose == (Pipeline(states[m]) + [states[n].progress.request])[0] && whose in states[n].answers
    ensures states[n + 1].outcomes == states[n].outcomes[states[n].progress.request := Answered(VerdictOf(states[n].answers[whose]))]
    ensures whose == states[n].progress.request <==> Pipeline(states[m]) == []
  {
    RunKeepsInv(states, actions, n);
    assert Step(states[n], Receive, states[n + 1]);
    m := DebtIsFromTheDrain(states, actions, n);
    whose := states[n].channel.value.request;
    assert Pipeline(states[m]) == states[n].debt;
    hide VerdictOf, Pipeline, IsRun;
    assert states[n].debt != [] ==> states[n].debt[0] in states[n].debt;
  }

  /** Every response to an abandoned request reaches the handler before the next send drains the channel. */
  ghost predicate LateResponsesArriveInTime(states: seq<State>, actions: seq<Action>)
    requires |actions| <= |states|
  {
    forall i :: 0 <= i < |actions| && actions[i] == Drain ==> Pipeline(states[i]) == []
  }

  /** Each caller that was given a verdict was given the one on its own batch. */
  ghost predicate OwnVerdicts(s: State) {
    forall r :: r in s.outcomes && s.outcomes[r].Answered? ==> r in s.answers && s.outcomes[r].verdict == VerdictOf(s.answers[r])
  }

  lemma StepKeepsOwnVerdicts(s: State, a: Action, s': State)
    requires Inv(s) && OwnVerdicts(s) && Step(s, a, s') && !a.Receive?
    ensures OwnVerdicts(s')
  {
    hide VerdictOf, FirstComesFirst;
    if a.Process? {
      assert s.inbox[0] in s.inbox;
    }
  }

  lemma {:induction false} PromptRunsKeepOwnVerdicts(states: seq<State>, actions: seq<Action>, n: nat)
    requires IsRun(states, actions) && n < |states| && LateResponsesArriveInTime(states, actions)
    ensures OwnVerdicts(states[n])
    decreases n
  {
    if n > 0 {
      PromptRunsKeepOwnVerdicts(states, actions, n - 1);
      RunKeepsInv(states, actions, n - 1);
      var s, s' := states[n - 1], states[n];
      assert Step(s, actions[n - 1], s');
      if actions[n - 1] == Receive {
        var m, whose := SendReturnsTheOldestOwed(states, actions, n - 1);
        assert Pipeline(states[m]) == [];
        hide VerdictOf, Inv, Pipeline;
        assert s'.answers == s.answers;
      } else {
        hide Inv, OwnVerdicts;
        StepKeepsOwnVerdicts(s, actions[n - 1], s');
      }
    }
  }

  /**
   Then every send that completes is told about its own batch, however callers, broker,
   handler and timeouts interleave: of success if no command of it was rejected, else of
   the first that was.
   */
  lemma PromptSendsGetTheirOwnVerdict(states: seq<State>, actions: seq<Action>, n: nat, r: nat)
    requires IsRun(states, actions) && n < |states| && LateResponsesArriveInTime(states, actions)
    requires r in states[n].outcomes && states[n].outcomes[r].Answered?
    ensures r in states[n].answers
    ensures var p, v := states[n].answers[r], states[n].outcomes[r].verdict;
            && (v.ParseFailure? <==> p.Unparseable?)
            && (v.Succeeded? <==> p.Responses? && forall i :: 0 <= i < |p.responses| ==> p.responses[i].error == "")
            && (v.Rejected? ==>
                  p.Responses? && exists i :: 0 <= i < |p.responses| && p.responses[i].error != ""
                                              && v == Rejected(p.responses[i].command, p.responses[i].error)
                                              && forall j :: 0 <= j < i ==> p.responses[j].error == "")
  {
    PromptRunsKeepOwnVerdicts(states, actions, n);
    VerdictIsTheFirstRejection(states[n].answers[r]);
  }

  // ---------- a late response is mismatched ----------

  lemma ExtendRun(states: seq<State>, actions: seq<Action>, a: Action, s': State)
    requires IsRun(states, actions) && Step(states[|actions|], a, s')
    ensures IsRun(states + [s'], actions + [a])
  {
    hide Step, Init;
  }

  /** A request is abandoned before the broker has processed it: given up, or reported as not published although it was sent. */
  lemma AbandonedSend(r: nat, given: Outcome) returns (states: seq<State>, actions: seq<Action>)
    requires given == GaveUp || given == PublishFailed
    ensures IsRun(states, actions)
    ensures states[|actions|] == State(Free, {r}, None, [r], [], map[], map[r := given], [])
  {
    var s0 := State(Free, {}, None, [], [], map[], map[], []);
    var s1 := s0.(progress := Locked(r), started := {r});
    var s2 := s1.(progress := Drained(r));
    var s3 := s2.(progress := Waiting(r), inbox := [r]);
    var s4 := s3.(progress := Free, outcomes := map[r := GaveUp]);
    assert Pipeline(s1) == [];
    if given == GaveUp {
      states, actions := [s0, s1, s2, s3, s4], [Lock(r), Drain, Publish, GiveUp];
    } else {
      var s5 := s2.(progress := Free, inbox := [r], outcomes := map[r := PublishFailed]);
      states, actions := [s0, s1, s2, s5], [Lock(r), Drain, PublishError(true)];
    }
  }

  /** The next send publishes behind it. */
  lemma NextSendWaits(abandoned: nat, given: Outcome, next: nat) returns (states: seq<State>, actions: seq<Action>)
    requires abandoned != next && (given == GaveUp || given == PublishFailed)
    ensures IsRun(states, actions)
    ensures states[|actions|]
            == State(Waiting(next), {abandoned, next}, None, [abandoned, next], [], map[], map[abandoned := given], [abandoned])
  {
    states, actions := AbandonedSend(abandoned, given);
    var s4 := states[|actions|];
    var s5 := s4.(progress := Locked(next), started := {abandoned, next});
    var s6 := s5.(progress := Drained(next), debt := Pipeline(s5));
    var s7 := s6.(progress := Waiting(next), inbox := [abandoned, next]);
    ExtendRun(states, actions, Lock(next), s5);
    ExtendRun(states + [s5], actions + [Lock(next)], Drain, s6);
    states, actions := states + [s5] + [s6], actions + [Lock(next)] + [Drain];
    ExtendRun(states, actions, Publish, s7);
    states, actions := states + [s7], actions + [Publish];
  }

  /** It then returns the broker's answer to the abandoned request, before its own has been processed. */
  lemma LateResponseIsMismatched(abandoned: nat, given: Outcome, next: nat, payload: Payload)
      returns (states: seq<State>, actions: seq<Action>)
    requires abandoned != next && (given == GaveUp || given == PublishFailed)
    ensures IsRun(states, actions)
    ensures var s := states[|actions|];
            && s.answers == map[abandoned := payload] && s.inbox == [next]
            && s.outcomes == map[abandoned := given, next := Answered(VerdictOf(payload))]
  {
    states, actions := NextSendWaits(abandoned, given, next);
    hide VerdictOf;
    var s7 := states[|actions|];
    var s8 := s7.(inbox := [next], transit := [Response(abandoned, payload)], answers := map[abandoned := payload]);
    var s9 := s8.(transit := [], channel := Some(Response(abandoned, payload)));
    var s10 := s9.(progress := Free, channel := None, outcomes := s9.outcomes[next := Answered(VerdictOf(payload))]);
    ExtendRun(states, actions, Process(payload), s8);
    ExtendRun(states + [s8], actions + [Process(payload)], Deliver, s9);
    states, actions := states + [s8] + [s9], actions + [Process(payload)] + [Deliver];
    ExtendRun(states, actions, Receive, s10);
    states, actions := states + [s10], actions + [Receive];
  }
}
