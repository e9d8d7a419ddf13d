// consumeQueue from app/queue.go, run against a queue that other workers,
// producers and lease expiries change between its calls.
module Consumers {
  import opened Seqs
  import opened Namespaces
  import opened RetryPolicies
  import opened AppState
  import opened Queues
  import opened Workers
  import opened Protocol

  // One turn of the loop: what everybody else does before the Pop and while the
  // handler runs, and what the handler returns.
  datatype Turn = Turn(before: seq<Step>, during: seq<Step>, outcome: Option<string>)

  // A step of somebody else, once registration is over.
  predicate Foreign(w: nat, step: Step) {
    match step
    case Register(_, _) => false
    case Pop(v, _) => v != w
    case Finish(v, _, _, _) => v != w
    case Crash(v) => v != w
    case _ => true
  }

  predicate AllForeign(w: nat, steps: seq<Step>) {
    forall i :: 0 <= i < |steps| ==> Foreign(w, steps[i])
  }

  predicate ForeignTurns(w: nat, turns: seq<Turn>) {
    forall i :: 0 <= i < |turns| ==> AllForeign(w, turns[i].before) && AllForeign(w, turns[i].during)
  }

  // One turn as protocol steps: the worker's own Pop and Finish between the
  // others' steps, or nothing of its own when no message came.
  ghost predicate TurnSteps(w: nat, turn: Turn, steps: seq<Step>) {
    steps == turn.before
    || exists pop: Step, finish: Step ::
         OwnSteps(w, turn.outcome, pop, finish) && steps == turn.before + [pop] + turn.during + [finish]
  }

  predicate OwnSteps(w: nat, outcome: Option<string>, pop: Step, finish: Step) {
    pop.Pop? && pop.worker == w && finish.Finish? && finish.worker == w && finish.ok == outcome.None?
  }

  // The command for some delivery whose handler returned outcome.
  ghost predicate ChosenFor(jobs: seq<Entry<Job>>, call: Call, outcome: Option<string>) {
    call.SettleCall?
    && exists key, attempt, payload, extra :: call.command == Command(jobs, key, attempt, payload, extra, outcome)
  }

  // A Pop of that queue and, when it delivered a message, one settlement.
  ghost predicate Served(before: seq<Call>, after: seq<Call>, queueName: string, delivered: bool) {
    && before + [PopCall(queueName)] <= after
    && |after| == |before| + (if delivered then 2 else 1)
    && (delivered ==> after[|before| + 1].SettleCall?)
  }

  // Every settlement since then was chosen by the outcome of some turn.
  ghost predicate SettlesByOutcome(jobs: seq<Entry<Job>>, turns: seq<Turn>, before: seq<Call>, after: seq<Call>) {
    before <= after
    && forall i :: |before| <= i < |after| && after[i].SettleCall? ==>
         exists t :: 0 <= t < |turns| && ChosenFor(jobs, after[i], turns[t].outcome)
  }

  lemma StillSettlesByOutcome(jobs: seq<Entry<Job>>, turns: seq<Turn>, t: nat, start: seq<Call>, before: seq<Call>,
                              after: seq<Call>, queueName: string, delivered: bool)
    requires SettlesByOutcome(jobs, turns, start, before) && Served(before, after, queueName, delivered)
    requires t < |turns| && (delivered ==> ChosenFor(jobs, after[|before| + 1], turns[t].outcome))
    ensures SettlesByOutcome(jobs, turns, start, after)
  {
    hide ChosenFor;
    assert forall i :: 0 <= i < |before| ==> after[i] == before[i];
    assert after[|before|] == PopCall(queueName);
  }

  function Pops(calls: seq<Call>): nat {
    if calls == [] then 0 else Pops(calls[..|calls| - 1]) + (if calls[|calls| - 1].PopCall? then 1 else 0)
  }

  lemma ServedOnce(before: seq<Call>, after: seq<Call>, queueName: string, delivered: bool)
    requires Served(before, after, queueName, delivered)
    ensures Pops(after) == Pops(before) + 1
  {
    var asked := before + [PopCall(queueName)];
    assert asked[..|before|] == before;
    if delivered {
      assert after[..|after| - 1] == asked;
    } else {
      assert after == asked;
    }
  }

  // Every Pop since then asked for that queue.
  ghost predicate PopsOnly(before: seq<Call>, after: seq<Call>, queueName: string) {
    before <= after
    && forall i :: |before| <= i < |after| && after[i].PopCall? ==> after[i].queueName == queueName
  }

  lemma StillPopsOnly(start: seq<Call>, before: seq<Call>, after: seq<Call>, queueName: string, delivered: bool)
    requires PopsOnly(start, before, queueName) && Served(before, after, queueName, delivered)
    ensures PopsOnly(start, after, queueName)
  {
    assert forall i :: 0 <= i < |before| ==> after[i] == before[i];
    assert after[|before|] == PopCall(queueName);
  }

  ghost predicate Agrees(s: System, q: Queue, jobs: seq<Entry<Job>>)
    reads q`messages, q`nextToken
  {
    && s.q == q.State()
    && Inv(s)
    && (forall key :: MaxOf(s, key) == MaxAttemptsOf(jobs, key))
  }

  lemma {:induction false} ExecAppend(s: System, a: seq<Step>, b: seq<Step>)
    ensures Exec(s, a + b) == Exec(Exec(s, a), b)
  {
    if b == [] {
      assert a + b == a;
    } else {
      ExecAppend(s, a, b[..|b| - 1]);
      assert (a + b)[..|a + b| - 1] == a + b[..|b| - 1];
    }
  }

  // Others leave a worker's delivery, the registry and a message's job alone.
  lemma {:induction false} ForeignStepsKeep(s: System, steps: seq<Step>, w: nat)
    requires AllForeign(w, steps)
    ensures Exec(s, steps).jobs == s.jobs
    ensures w in Exec(s, steps).holding <==> w in s.holding
    ensures w in s.holding ==> Exec(s, steps).holding[w] == s.holding[w]
  {
    if steps != [] {
      ForeignStepsKeep(s, steps[..|steps| - 1], w);
      ForeignStepKeeps(Exec(s, steps[..|steps| - 1]), steps[|steps| - 1], w);
    }
  }

  lemma ForeignStepKeeps(s: System, step: Step, w: nat)
    requires Foreign(w, step)
    ensures Next(s, step).jobs == s.jobs
    ensures w in Next(s, step).holding <==> w in s.holding
    ensures w in s.holding ==> Next(s, step).holding[w] == s.holding[w]
  {
  }

  // The queue as everybody else's steps leave it.
  method RunOthers(q: Queue, s: System, steps: seq<Step>) returns (s': System)
    requires s.q == q.State()
    modifies q`messages, q`nextToken
    ensures s' == Exec(s, steps) && q.State() == s'.q
  {
    s' := Exec(s, steps);
    q.messages, q.nextToken := s'.q.messages, s'.q.nextToken;
  }

  // A successful Pop is a step of the protocol.
  lemma PopIsAStep(s: System, w: nat, id: string)
    requires SameMessages(s) && w !in s.holding && Deliverable(s.q, id)
    ensures Next(s, Step.Pop(w, id)).q == Popped(s.q, id)
    ensures w in Next(s, Step.Pop(w, id)).holding
    ensures Next(s, Step.Pop(w, id)).holding[w] == Delivery(id, s.q.nextToken, s.q.messages[id].attempt + 1)
    ensures Next(s, Step.Pop(w, id)).jobs == s.jobs
  {
  }

  lemma CommandFromVerdict(jobs: seq<Entry<Job>>, key: Key, attempt: nat, payload: string, extra: Extra,
                           outcome: Option<string>, e: Edits)
    requires var sent := Command(jobs, key, attempt, payload, extra, outcome);
             (sent.Retried? ==> e == Edits(sent.delay, sent.payload, sent.extra))
             && (sent.Buried? ==> e.payload == sent.payload && e.extra == sent.extra)
    ensures CommandFor(Judge(MaxAttemptsOf(jobs, key), attempt, outcome.None?), e)
            == Command(jobs, key, attempt, payload, extra, outcome)
  {
  }

  // What processMessage sends, and whether it arrives, as a step of the protocol.
  function FinishStep(w: nat, sent: Settlement, ok: bool, applied: bool): Step {
    Step.Finish(w, ok, applied,
                match sent
                case Acked => Edits(0, "", NoExtra)
                case Retried(delay, payload, extra) => Edits(delay, payload, extra)
                case Buried(payload, extra) => Edits(0, payload, extra))
  }

  lemma FinishIsAStep(s: System, w: nat, jobs: seq<Entry<Job>>, payload: string, extra: Extra,
                      outcome: Option<string>, applied: bool)
    requires SameMessages(s) && w in s.holding && s.holding[w].id in s.q.messages
    requires forall key :: MaxOf(s, key) == MaxAttemptsOf(jobs, key)
    ensures var d := s.holding[w];
            var sent := Command(jobs, s.q.messages[d.id].job, d.attempt, payload, extra, outcome);
            var s' := Next(s, FinishStep(w, sent, outcome.None?, applied));
            && s'.q == (if applied then Settled(s.q, d.id, d.token, sent) else s.q)
            && w !in s'.holding && s'.jobs == s.jobs
  {
    var d := s.holding[w];
    assert d.id in s.history;
    hide SameMessages, MaxAttemptsOf, Command, Applied, Accounted, Judge;
    var key := s.q.messages[d.id].job;
    assert MaxOf(s, key) == MaxAttemptsOf(jobs, key);
    var step := FinishStep(w, Command(jobs, key, d.attempt, payload, extra, outcome), outcome.None?, applied);
    CommandFromVerdict(jobs, key, d.attempt, payload, extra, outcome, step.edits);
  }

  // Pop, as at most one step of the protocol.
  method Receive(q: Queue, queueName: string, jobs: seq<Entry<Job>>, s: System, w: nat)
    returns (msg: Option<Message>, err: Option<QueueError>, own: seq<Step>)
    requires Agrees(s, q, jobs) && w !in s.holding
    modifies q
    ensures msg.None? <==> err.Some?
    ensures q.calls == old(q.calls) + [PopCall(queueName)]
    ensures Agrees(Exec(s, own), q, jobs)
    ensures msg.None? ==> own == []
    ensures msg.Some? ==>
              var m := msg.value;
              && fresh(m) && own == [Step.Pop(w, m.id)] && w in Exec(s, own).holding
              && Exec(s, own).holding[w] == Delivery(m.id, m.token, m.attempt)
              && m.id in q.messages && m.job == q.messages[m.id].job
  {
    own := [];
    msg, err := q.Pop(queueName);
    if msg.Some? {
      PopIsAStep(s, w, msg.value.id);
      own := [Step.Pop(w, msg.value.id)];
      OneStep(s, own[0]);
      ReachableInv(s, own);
      hide Inv, Next, Exec, MaxAttemptsOf;
    }
  }

  lemma NoSteps(s: System)
    ensures Exec(s, []) == s
  {
  }

  lemma OneStep(s: System, step: Step)
    ensures Exec(s, [step]) == Next(s, step)
  {
    assert [step][..0] == [];
    assert Exec(s, []) == s;
  }

  // processMessage, as exactly one step of the protocol, whatever has become of
  // the delivery meanwhile.
  method Handle(jobs: seq<Entry<Job>>, q: Queue, msg: Message, outcome: Option<string>, s: System, w: nat)
    returns (own: seq<Step>)
    requires UniqueKeys(jobs) && Agrees(s, q, jobs)
    requires w in s.holding && s.holding[w] == Delivery(msg.id, msg.token, msg.attempt)
    requires msg.id in q.messages && msg.job == q.messages[msg.id].job
    modifies q`messages, q`calls, msg`delay, msg`extra
    ensures |own| == 1 && own[0].Finish? && own[0].worker == w && own[0].ok == outcome.None?
    ensures Agrees(Exec(s, own), q, jobs) && w !in Exec(s, own).holding
    ensures |q.calls| == |old(q.calls)| + 1 && old(q.calls) <= q.calls && q.calls[|old(q.calls)|].SettleCall?
    ensures ChosenFor(jobs, q.calls[|old(q.calls)|], outcome)
  {
    hide Command, Settled, MaxAttemptsOf, UniqueKeys, SameMessages, AllBalanced, TokensSound, Next;
    var sent := Command(jobs, msg.job, msg.attempt, msg.payload, msg.extra, outcome);
    FinishIsAStep(s, w, jobs, msg.payload, msg.extra, outcome, true);
    FinishIsAStep(s, w, jobs, msg.payload, msg.extra, outcome, false);
    ProcessMessage(jobs, q, msg, outcome);
    own := [FinishStep(w, sent, outcome.None?, q.State() != s.q)];
    OneStep(s, own[0]);
    ReachableInv(s, own);
    hide Inv, Next, Exec, MaxAttemptsOf, Command;
  }

  // Everybody else's steps keep the agreement and this worker's delivery.
  method Others(jobs: seq<Entry<Job>>, q: Queue, s: System, steps: seq<Step>, w: nat) returns (s': System)
    requires Agrees(s, q, jobs) && AllForeign(w, steps)
    modifies q`messages, q`nextToken
    ensures s' == Exec(s, steps) && Agrees(s', q, jobs)
    ensures w in s'.holding <==> w in s.holding
    ensures w in s.holding ==> s'.holding[w] == s.holding[w]
    ensures forall id :: id in s.q.messages ==> id in s'.q.messages && s'.q.messages[id].job == s.q.messages[id].job
  {
    s' := RunOthers(q, s, steps);
    ForeignStepsKeep(s, steps, w);
    ReachableInv(s, steps);
    forall id | id in s.q.messages
      ensures id in s'.q.messages && s'.q.messages[id].job == s.q.messages[id].job
    {
      MessagesAreKept(s, steps, id);
    }
  }

  method TakeTurn(jobs: seq<Entry<Job>>, q: Queue, queueName: string, turn: Turn, s: System, w: nat)
    returns (steps: seq<Step>, s': System, err: Option<QueueError>)
    requires UniqueKeys(jobs) && Agrees(s, q, jobs) && w !in s.holding
    requires AllForeign(w, turn.before) && AllForeign(w, turn.during)
    modifies q
    ensures TurnSteps(w, turn, steps) && s' == Exec(s, steps)
    ensures err.Some? ==> steps == turn.before
    ensures Served(old(q.calls), q.calls, queueName, err.None?)
    ensures err.None? ==> ChosenFor(jobs, q.calls[|old(q.calls)| + 1], turn.outcome)
    ensures Agrees(s', q, jobs) && w !in s'.holding
  {
    hide Inv, Exec, MaxAttemptsOf, UniqueKeys, AllForeign, ChosenFor;
    s' := Others(jobs, q, s, turn.before, w);
    steps := turn.before;
    var msg, failed, pop := Receive(q, queueName, jobs, s', w);
    err := failed;
    if msg.None? {
      NoSteps(s');
      return;
    }
    ExecAppend(s, steps, pop);
    steps, s' := steps + pop, Exec(s', pop);
    ExecAppend(s, steps, turn.during);
    var between := Others(jobs, q, s', turn.during, w);
    steps, s' := steps + turn.during, between;
    var finish := Handle(jobs, q, msg.value, turn.outcome, s', w);
    ExecAppend(s, steps, finish);
    assert OwnSteps(w, turn.outcome, pop[0], finish[0]);
    steps, s' := steps + finish, Exec(s', finish);
  }

  lemma NothingCalled(jobs: seq<Entry<Job>>, turns: seq<Turn>, calls: seq<Call>, queueName: string)
    ensures PopsOnly(calls, calls, queueName) && SettlesByOutcome(jobs, turns, calls, calls)
  {
  }

  lemma NothingRun(s: System)
    ensures Exec(s, Flatten([])) == s
  {
  }

  // Every run of the consumer loop, among any others, is a run of the protocol.
  method ConsumeQueue(jobs: seq<Entry<Job>>, q: Queue, queueName: string, turns: seq<Turn>, s: System, w: nat)
    returns (ghost runs: seq<seq<Step>>, s': System)
    requires UniqueKeys(jobs) && Agrees(s, q, jobs) && w !in s.holding && ForeignTurns(w, turns)
    modifies q
    ensures |runs| <= |turns| && forall i :: 0 <= i < |runs| ==> TurnSteps(w, turns[i], runs[i])
    ensures Pops(q.calls) == Pops(old(q.calls)) + |runs| && PopsOnly(old(q.calls), q.calls, queueName)
    ensures SettlesByOutcome(jobs, turns, old(q.calls), q.calls)
    ensures |runs| < |turns| ==> runs != [] && runs[|runs| - 1] == turns[|runs| - 1].before
    ensures s' == Exec(s, Flatten(runs))
    ensures Agrees(s', q, jobs) && w !in s'.holding
  {
    hide Inv, TurnSteps, Agrees, AllForeign, UniqueKeys, Exec, Served, Pops, PopsOnly, SettlesByOutcome,
      ChosenFor, Flatten, MaxOf, MaxAttemptsOf;
    runs, s' := [], s;
    NothingCalled(jobs, turns, q.calls, queueName);
    NothingRun(s);
    for i := 0 to |turns|
      invariant |runs| == i && forall j :: 0 <= j < i ==> TurnSteps(w, turns[j], runs[j])
      invariant s' == Exec(s, Flatten(runs)) && Pops(q.calls) == Pops(old(q.calls)) + i
      invariant PopsOnly(old(q.calls), q.calls, queueName) && SettlesByOutcome(jobs, turns, old(q.calls), q.calls)
      invariant Agrees(s', q, jobs) && w !in s'.holding
    {
      ghost var calls := q.calls;
      assert AllForeign(w, turns[i].before) && AllForeign(w, turns[i].during);
      var steps, next, err := TakeTurn(jobs, q, queueName, turns[i], s', w);
      ServedOnce(calls, q.calls, queueName, err.None?);
      StillPopsOnly(old(q.calls), calls, q.calls, queueName, err.None?);
      StillSettlesByOutcome(jobs, turns, i, old(q.calls), calls, q.calls, queueName, err.None?);
      ExecAppend(s, Flatten(runs), steps);
      FlattenAppend(runs, steps);
      runs, s' := runs + [steps], next;
      var cancelled: bool := *;
      if err.Some? && err != Some(QueueError.Empty) && cancelled {
        return;
      }
    }
  }
}
