// Any number of consumers, producers, lease expiries and crashes over one
// queue, as a transition system. A step that is not enabled changes nothing, so
// every sequence of steps is a run and every interleaving is a sequence.
module Protocol {
  import opened Seqs
  import opened Namespaces
  import opened Queues
  import opened Workers

  // A delivery in the hands of a worker, with the Message fields it reads.
  datatype Delivery = Delivery(id: string, token: nat, attempt: nat)

  // The fields of its delivery a worker may have changed when it settles it.
  datatype Edits = Edits(delay: int, payload: string, extra: Extra)

  // What has happened to a message so far. local: dispatched by this app;
  // unregistered: buried because its job was not registered.
  datatype History = History(deliveries: nat, retries: nat, lost: nat, settled: nat, local: bool, unregistered: bool)

  // jobs maps every registered job to its MaxAttempts, fixed for the run.
  datatype System = System(q: QueueState, ids: seq<string>, history: map<string, History>,
                           holding: map<nat, Delivery>, jobs: map<Key, int>)

  datatype Step =
    | Register(key: Key, maxAttempts: int)
    | Push(id: string, message: Stored)
    | Dispatch(id: string, message: Stored)
    | Pop(worker: nat, id: string)
    | Finish(worker: nat, ok: bool, applied: bool, edits: Edits)
    | Crash(worker: nat)
    | Expire(id: string, revoke: bool)

  const INITIAL := System(QueueState(map[], 0), [], map[], map[], map[])

  function MaxOf(s: System, key: Key): Option<int> {
    if key in s.jobs then Some(s.jobs[key]) else None
  }

  function Added(s: System, id: string, m: Stored, local: bool): System {
    s.(q := Pushed(s.q, id, m), ids := s.ids + [id],
       history := s.history[id := History(0, 0, 0, 0, local, false)])
  }

  function VerdictFor(s: System, d: Delivery, ok: bool): Verdict
    requires d.id in s.q.messages
  {
    Judge(MaxOf(s, s.q.messages[d.id].job), d.attempt, ok)
  }

  function CommandFor(v: Verdict, e: Edits): Settlement {
    match v
    case Succeed => Acked
    case TryAgain => Retried(e.delay, e.payload, e.extra)
    case GiveUp => Buried(e.payload, e.extra)
  }

  // An accepted settlement as the message's history records it.
  function Accounted(h: History, v: Verdict, registered: bool): History {
    match v
    case Succeed => h.(settled := h.settled + 1)
    case TryAgain => h.(retries := h.retries + 1)
    case GiveUp => h.(settled := h.settled + 1, unregistered := !registered)
  }

  // A worker settles the delivery it holds; applied is false when the command
  // never reaches the queue.
  function Finished(s: System, worker: nat, ok: bool, applied: bool, e: Edits): System
    requires worker in s.holding
  {
    var d := s.holding[worker];
    var idle := s.(holding := s.holding - {worker});
    if !applied || !Current(s.q, d.id, d.token) || d.id !in s.history then idle else
    var m, v := s.q.messages[d.id], VerdictFor(s, d, ok);
    idle.(q := Settled(s.q, d.id, d.token, CommandFor(v, e)),
          history := s.history[d.id := Accounted(s.history[d.id], v, m.job in s.jobs)])
  }

  function Next(s: System, step: Step): System {
    match step
    case Register(key, max) => if key in s.jobs then s else s.(jobs := s.jobs[key := max])
    case Push(id, m) => if id in s.q.messages then s else Added(s, id, m, false)
    case Dispatch(id, m) => if id in s.q.messages || m.job !in s.jobs then s else Added(s, id, m, true)
    case Pop(w, id) =>
      if w in s.holding || !Deliverable(s.q, id) || id !in s.history then s else
      var m, h := s.q.messages[id], s.history[id];
      s.(q := Popped(s.q, id),
         holding := s.holding[w := Delivery(id, s.q.nextToken, m.attempt + 1)],
         history := s.history[id := h.(deliveries := h.deliveries + 1,
                                       lost := if m.status.InFlight? then h.lost + 1 else h.lost)])
    case Finish(w, ok, applied, e) =>
      if w !in s.holding then s else Finished(s, w, ok, applied, e)
    case Crash(w) => s.(holding := s.holding - {w})
    case Expire(id, revoke) =>
      if id !in s.q.messages || !s.q.messages[id].status.InFlight? || id !in s.history then s else
      s.(q := Expired(s.q, id, revoke),
         history := if revoke then s.history[id := s.history[id].(lost := s.history[id].lost + 1)] else s.history)
  }

  function Exec(s: System, steps: seq<Step>): System {
    if steps == [] then s else Next(Exec(s, steps[..|steps| - 1]), steps[|steps| - 1])
  }

  // ---------- the invariant ----------

  function Retriable(max: Option<int>): int {
    if max.Some? && max.value > 1 then max.value - 1 else 0
  }

  // The books of one message. An in-flight message has been delivered once,
  // plus once for every accepted retry and every lost lease.
  ghost predicate Balanced(m: Stored, h: History, max: Option<int>) {
    && m.attempt == h.deliveries
    && h.deliveries == h.retries + h.lost + (if m.status.Pending? then 0 else 1)
    && h.settled == (if Terminal(m.status) then 1 else 0)
    && h.retries <= Retriable(max)
    && (h.local ==> max.Some? && !h.unregistered)
  }

  ghost predicate SameMessages(s: System) {
    && Distinct(s.ids)
    && (forall id :: id in s.ids <==> id in s.q.messages)
    && (forall id :: id in s.history <==> id in s.q.messages)
  }

  ghost predicate AllBalanced(s: System)
    requires SameMessages(s)
  {
    forall id :: id in s.q.messages ==> Balanced(s.q.messages[id], s.history[id], MaxOf(s, s.q.messages[id].job))
  }

  // Tokens are issued once: an old delivery can agree with a message's current
  // token only if it is that very delivery.
  ghost predicate TokensSound(s: System) {
    && (forall id :: id in s.q.messages && s.q.messages[id].status.InFlight? ==>
          s.q.messages[id].status.token < s.q.nextToken)
    && (forall w :: w in s.holding ==>
          s.holding[w].id in s.q.messages && s.holding[w].token < s.q.nextToken
          && (Current(s.q, s.holding[w].id, s.holding[w].token) ==>
                s.holding[w].attempt == s.q.messages[s.holding[w].id].attempt))
    && (forall v, w :: v in s.holding && w in s.holding && v != w ==> s.holding[v].token != s.holding[w].token)
  }

  ghost predicate Inv(s: System) {
    SameMessages(s) && AllBalanced(s) && TokensSound(s)
  }

  lemma NextKeepsMessages(s: System, step: Step)
    requires SameMessages(s)
    ensures SameMessages(Next(s, step))
    ensures s.ids <= Next(s, step).ids
  {
    match step
    case Push(id, m) => DistinctAppend(s.ids, id);
    case Dispatch(id, m) => DistinctAppend(s.ids, id);
    case _ =>
  }

  // One message's books after one step.
  lemma NextBalances(s: System, step: Step, id: string)
    requires SameMessages(s) && TokensSound(s) && id in s.q.messages && id in s.history
    requires Balanced(s.q.messages[id], s.history[id], MaxOf(s, s.q.messages[id].job))
    ensures var s' := Next(s, step);
            && id in s'.q.messages && id in s'.history
            && Balanced(s'.q.messages[id], s'.history[id], MaxOf(s', s'.q.messages[id].job))
  {
    hide SameMessages, TokensSound, Finished, Distinct;
    match step
    case Finish(w, ok, applied, e) =>
      if w in s.holding { FinishBalances(s, w, ok, applied, e, id); }
    case _ =>
  }

  lemma FinishBalances(s: System, w: nat, ok: bool, applied: bool, e: Edits, id: string)
    requires SameMessages(s) && TokensSound(s) && id in s.q.messages && id in s.history
    requires Balanced(s.q.messages[id], s.history[id], MaxOf(s, s.q.messages[id].job))
    requires w in s.holding
    ensures var s' := Finished(s, w, ok, applied, e);
            && id in s'.q.messages && id in s'.history
            && Balanced(s'.q.messages[id], s'.history[id], MaxOf(s', s'.q.messages[id].job))
  {
    hide SameMessages, Distinct;
    var d := s.holding[w];
    if d.id == id && Current(s.q, id, d.token) {
      assert d.attempt == s.q.messages[id].attempt;
    }
  }

  lemma NextKeepsBalance(s: System, step: Step)
    requires Inv(s)
    ensures SameMessages(Next(s, step)) && AllBalanced(Next(s, step))
  {
    NextKeepsMessages(s, step);
    var s' := Next(s, step);
    forall id | id in s'.q.messages
      ensures Balanced(s'.q.messages[id], s'.history[id], MaxOf(s', s'.q.messages[id].job))
    {
      if id in s.q.messages {
        assert Balanced(s.q.messages[id], s.history[id], MaxOf(s, s.q.messages[id].job));
        NextBalances(s, step, id);
      } else { NewBalanced(s, step, id); }
    }
  }

  lemma NewBalanced(s: System, step: Step, id: string)
    requires SameMessages(s) && SameMessages(Next(s, step)) && id !in s.q.messages && id in Next(s, step).q.messages
    ensures Balanced(Next(s, step).q.messages[id], Next(s, step).history[id],
                     MaxOf(Next(s, step), Next(s, step).q.messages[id].job))
  {
    hide SameMessages, Distinct;
  }

  lemma NextKeepsTokens(s: System, step: Step)
    requires Inv(s)
    ensures TokensSound(Next(s, step))
  {
    hide SameMessages, AllBalanced, Distinct;
    match step
    case Pop(w, id) => PopKeepsTokens(s, w, id);
    case Finish(w, ok, applied, e) =>
      if w in s.holding { FinishKeepsTokens(s, w, ok, applied, e); }
    case Register(_, _) =>
    case Crash(_) =>
    case Push(id, m) => ChangeKeepsTokens(s, Next(s, step));
    case Dispatch(id, m) => ChangeKeepsTokens(s, Next(s, step));
    case Expire(id, revoke) => ChangeKeepsTokens(s, Next(s, step));
  }

  // Steps that issue no token and settle nothing.
  lemma ChangeKeepsTokens(s: System, s': System)
    requires TokensSound(s)
    requires s'.holding == s.holding && s'.q.nextToken == s.q.nextToken
    requires forall id :: id in s.q.messages ==> id in s'.q.messages
    requires forall id :: id in s'.q.messages && s'.q.messages[id].status.InFlight? ==>
               id in s.q.messages && s.q.messages[id].status.InFlight?
               && s'.q.messages[id].status.token == s.q.messages[id].status.token
               && s'.q.messages[id].attempt == s.q.messages[id].attempt
    ensures TokensSound(s')
  {
  }

  lemma PopKeepsTokens(s: System, w: nat, id: string)
    requires TokensSound(s)
    ensures TokensSound(Next(s, Step.Pop(w, id)))
  {
  }

  lemma FinishKeepsTokens(s: System, w: nat, ok: bool, applied: bool, e: Edits)
    requires TokensSound(s) && w in s.holding
    ensures TokensSound(Finished(s, w, ok, applied, e))
  {
    hide Judge;
  }

  // Every reachable state satisfies the invariant.
  lemma {:induction false} ReachableInv(s: System, steps: seq<Step>)
    requires Inv(s)
    ensures Inv(Exec(s, steps))
  {
    if steps != [] {
      var front := steps[..|steps| - 1];
      ReachableInv(s, front);
      NextKeepsBalance(Exec(s, front), steps[|steps| - 1]);
      NextKeepsTokens(Exec(s, front), steps[|steps| - 1]);
    }
  }

  // ---------- safety over whole runs ----------

  // No message is ever lost: it keeps its job and stays in exactly one state.
  lemma {:induction false} MessagesAreKept(s: System, steps: seq<Step>, id: string)
    requires Inv(s) && id in s.q.messages
    ensures id in s.history && id in Exec(s, steps).q.messages && id in Exec(s, steps).history
    ensures Exec(s, steps).q.messages[id].job == s.q.messages[id].job
    ensures Exec(s, steps).history[id].deliveries >= s.history[id].deliveries
  {
    if steps != [] {
      hide Next, AllBalanced, TokensSound, Distinct;
      MessagesAreKept(s, steps[..|steps| - 1], id);
      NextKeepsMessage(Exec(s, steps[..|steps| - 1]), steps[|steps| - 1], id);
    }
  }

  lemma NextKeepsMessage(s: System, step: Step, id: string)
    requires id in s.q.messages && id in s.history
    ensures id in Next(s, step).q.messages && id in Next(s, step).history
    ensures Next(s, step).q.messages[id].job == s.q.messages[id].job
    ensures Next(s, step).history[id].deliveries >= s.history[id].deliveries
    ensures Terminal(s.q.messages[id].status) ==>
              Next(s, step).q.messages[id] == s.q.messages[id] && Next(s, step).history[id] == s.history[id]
  {
    hide Judge, CommandFor;
  }

  // A settled message never changes again; in particular it is never delivered.
  lemma {:induction false} TerminalIsForever(s: System, steps: seq<Step>, id: string)
    requires Inv(s) && id in s.q.messages && Terminal(s.q.messages[id].status)
    ensures id in s.history && id in Exec(s, steps).q.messages && id in Exec(s, steps).history
    ensures Exec(s, steps).q.messages[id] == s.q.messages[id] && Exec(s, steps).history[id] == s.history[id]
  {
    if steps != [] {
      hide Next, AllBalanced, TokensSound, Distinct;
      TerminalIsForever(s, steps[..|steps| - 1], id);
      NextKeepsMessage(Exec(s, steps[..|steps| - 1]), steps[|steps| - 1], id);
    }
  }

  // A remark on Finished: a worker whose delivery is stale changes nothing.
  lemma StaleFinishChangesNothing(s: System, w: nat, ok: bool, applied: bool, e: Edits)
    requires w in s.holding && !Current(s.q, s.holding[w].id, s.holding[w].token)
    ensures Next(s, Step.Finish(w, ok, applied, e)) == s.(holding := s.holding - {w})
  {
  }

  // At most one worker holds the current delivery of a message.
  lemma OneCurrentHolder(s: System, v: nat, w: nat)
    requires Inv(s) && v in s.holding && w in s.holding && s.holding[v].id == s.holding[w].id
    requires Current(s.q, s.holding[v].id, s.holding[v].token) && Current(s.q, s.holding[w].id, s.holding[w].token)
    ensures v == w
  {
    assert s.holding[v].token == s.holding[w].token;
  }

  function AttemptBudget(max: Option<int>): nat {
    if max.Some? && max.value > 1 then max.value else 1
  }

  // In every reachable state: settled at most once, at most MaxAttempts - 1
  // retries, at most MaxAttempts deliveries plus one per lost lease, and no
  // message of this app was buried because its job was unknown.
  lemma ReachableBounds(s: System, steps: seq<Step>, id: string)
    requires Inv(s) && id in Exec(s, steps).q.messages
    ensures var s' := Exec(s, steps);
            && id in s'.history
            && var h, max := s'.history[id], MaxOf(s', s'.q.messages[id].job);
            && h.settled <= 1
            && h.retries <= AttemptBudget(max) - 1
            && s'.q.messages[id].attempt == h.deliveries <= AttemptBudget(max) + h.lost
            && (h.local ==> !h.unregistered)
  {
    ReachableInv(s, steps);
    assert Balanced(Exec(s, steps).q.messages[id], Exec(s, steps).history[id],
                    MaxOf(Exec(s, steps), Exec(s, steps).q.messages[id].job));
  }

  // Leases lost, and the one about to be.
  function LostBy(s: System, id: string): nat {
    if id !in s.q.messages || id !in s.history then 0 else
    s.history[id].lost + (if s.q.messages[id].status.InFlight? && s.q.messages[id].status.visible then 1 else 0)
  }

  function Expiries(steps: seq<Step>, id: string): nat {
    if steps == [] then 0 else
    var last := steps[|steps| - 1];
    Expiries(steps[..|steps| - 1], id) + (if last.Expire? && last.id == id then 1 else 0)
  }

  lemma NextLoses(s: System, step: Step, id: string)
    requires SameMessages(s)
    ensures LostBy(Next(s, step), id) <= LostBy(s, id) + (if step.Expire? && step.id == id then 1 else 0)
  {
    hide Distinct, Judge, CommandFor;
  }

  // Every lost lease is an expiry, so a run from the start delivers a message at
  // most MaxAttempts times plus once per expiry, whatever else happens.
  lemma {:induction false} LostLeasesAreExpiries(s: System, steps: seq<Step>, id: string)
    requires Inv(s)
    ensures LostBy(Exec(s, steps), id) <= LostBy(s, id) + Expiries(steps, id)
  {
    if steps != [] {
      var front := steps[..|steps| - 1];
      LostLeasesAreExpiries(s, front, id);
      ReachableInv(s, front);
      hide Next, LostBy, AllBalanced, TokensSound, SameMessages;
      NextLoses(Exec(s, front), steps[|steps| - 1], id);
    }
  }

  lemma DeliveriesFromTheStart(steps: seq<Step>, id: string)
    requires id in Exec(INITIAL, steps).q.messages
    ensures var s := Exec(INITIAL, steps);
            && id in s.history
            && s.history[id].settled <= 1
            && s.history[id].deliveries <= AttemptBudget(MaxOf(s, s.q.messages[id].job)) + Expiries(steps, id)
  {
    ReachableBounds(INITIAL, steps, id);
    LostLeasesAreExpiries(INITIAL, steps, id);
  }

  // ---------- progress ----------

  // What is left to do for a message at most.
  function Weight(m: Stored, max: Option<int>): nat {
    var budget := AttemptBudget(max);
    var left := if m.attempt < budget then budget - m.attempt else 0;
    match m.status
    case Pending => if left == 0 then 2 else 2 * left
    case InFlight(_, visible) => if visible then 2 * left + 3 else 2 * left + 1
    case _ => 0
  }

  function WeightOf(s: System, id: string): nat {
    if id in s.q.messages then Weight(s.q.messages[id], MaxOf(s, s.q.messages[id].job)) else 0
  }

  function TotalWeight(s: System, ids: seq<string>): nat {
    if ids == [] then 0 else TotalWeight(s, ids[..|ids| - 1]) + WeightOf(s, ids[|ids| - 1])
  }

  function Measure(s: System): nat {
    2 * TotalWeight(s, s.ids) + |s.holding|
  }

  lemma {:induction false} TotalUnchanged(s: System, s': System, ids: seq<string>)
    requires forall i :: i in ids ==> WeightOf(s', i) == WeightOf(s, i)
    ensures TotalWeight(s', ids) == TotalWeight(s, ids)
  {
    if ids != [] {
      TotalUnchanged(s, s', ids[..|ids| - 1]);
    }
  }

  lemma {:induction false} TotalChangesBy(s: System, s': System, ids: seq<string>, id: string)
    requires Distinct(ids) && id in ids
    requires forall i :: i in ids && i != id ==> WeightOf(s', i) == WeightOf(s, i)
    ensures TotalWeight(s', ids) - WeightOf(s', id) == TotalWeight(s, ids) - WeightOf(s, id)
  {
    hide WeightOf;
    var front, last := ids[..|ids| - 1], ids[|ids| - 1];
    DistinctLast(ids);
    if last == id {
      TotalUnchanged(s, s', front);
    } else {
      TotalChangesBy(s, s', front, id);
    }
  }

  // Work without expiries, crashes, new messages or lost commands: an idle
  // worker takes a message, or a busy one settles its delivery.
  predicate Graceful(s: System, step: Step) {
    (step.Pop? && step.worker !in s.holding && Deliverable(s.q, step.id))
    || (step.Finish? && step.worker in s.holding && step.applied)
  }

  ghost predicate GracefulRun(s: System, steps: seq<Step>) {
    steps != [] ==>
      GracefulRun(s, steps[..|steps| - 1]) && Graceful(Exec(s, steps[..|steps| - 1]), steps[|steps| - 1])
  }

  // Every hidden message is in the hands of a worker.
  ghost predicate Attended(s: System) {
    forall id :: id in s.q.messages && s.q.messages[id].status.InFlight? && !s.q.messages[id].status.visible ==>
      AttendedBy(s, id)
  }

  ghost predicate AttendedBy(s: System, id: string)
    requires id in s.q.messages && s.q.messages[id].status.InFlight?
  {
    exists w :: w in s.holding && s.holding[w].id == id && s.holding[w].token == s.q.messages[id].status.token
  }

  lemma PopDrops(s: System, w: nat, id: string)
    requires SameMessages(s) && w !in s.holding && Deliverable(s.q, id)
    ensures var s' := Next(s, Step.Pop(w, id));
            && s'.ids == s.ids && id in s.ids
            && (forall i :: i in s.ids && i != id ==> WeightOf(s', i) == WeightOf(s, i))
            && WeightOf(s', id) < WeightOf(s, id) && |s'.holding| == |s.holding| + 1
  {
    hide Distinct;
    assert Next(s, Step.Pop(w, id)).holding.Keys == s.holding.Keys + {w};
  }

  lemma VerdictDropsWeight(m: Stored, max: Option<int>, ok: bool, e: Edits)
    requires m.status.InFlight?
    ensures Weight(Applied(m, CommandFor(Judge(max, m.attempt, ok), e)), max) <= Weight(m, max)
  {
  }

  lemma FinishedMessages(s: System, w: nat, ok: bool, e: Edits)
    requires SameMessages(s) && TokensSound(s) && w in s.holding
    ensures var s', d := Finished(s, w, ok, true, e), s.holding[w];
            && s'.ids == s.ids && s'.jobs == s.jobs && s'.holding == s.holding - {w} && d.id in s.q.messages
            && var m := s.q.messages[d.id];
            && (s'.q.messages == s.q.messages
                || (m.status.InFlight?
                    && s'.q.messages == s.q.messages[d.id :=
                         Applied(m, CommandFor(Judge(MaxOf(s, m.job), m.attempt, ok), e))]))
  {
    hide Distinct, Judge, CommandFor, Applied, Accounted;
  }

  lemma FinishDrops(s: System, w: nat, ok: bool, e: Edits)
    requires SameMessages(s) && TokensSound(s) && w in s.holding
    ensures var s', id := Finished(s, w, ok, true, e), s.holding[w].id;
            && s'.ids == s.ids && id in s.ids
            && (forall i :: i in s.ids && i != id ==> WeightOf(s', i) == WeightOf(s, i))
            && WeightOf(s', id) <= WeightOf(s, id) && |s'.holding| == |s.holding| - 1
  {
    FinishedMessages(s, w, ok, e);
    hide Distinct, Weight, Judge, CommandFor, Accounted, TokensSound, Finished;
    var s', id := Finished(s, w, ok, true, e), s.holding[w].id;
    assert s'.holding.Keys == s.holding.Keys - {w};
    assert |s.holding| == |s.holding.Keys|;
    var m := s.q.messages[id];
    assert Applied(m, CommandFor(Judge(MaxOf(s, m.job), m.attempt, ok), e)).job == m.job;
    hide Applied;
    if m.status.InFlight? {
      VerdictDropsWeight(m, MaxOf(s, m.job), ok, e);
    }
  }

  lemma {:induction false} GracefulDecreases(s: System, step: Step)
    requires Inv(s) && Graceful(s, step)
    ensures Measure(Next(s, step)) < Measure(s)
  {
    hide WeightOf, Finished, TotalWeight, TokensSound, AllBalanced, Distinct;
    match step
    case Pop(w, id) =>
      PopDrops(s, w, id);
      TotalChangesBy(s, Next(s, step), s.ids, id);
    case Finish(w, ok, _, e) =>
      FinishDrops(s, w, ok, e);
      TotalChangesBy(s, Next(s, step), s.ids, s.holding[w].id);
  }

  // A message still in flight after a step was in flight before it, with the
  // same token and the same holder, unless the step delivered it.
  lemma StillInFlight(s: System, step: Step, id: string)
    requires SameMessages(s) && Graceful(s, step)
    requires id in Next(s, step).q.messages && Next(s, step).q.messages[id].status.InFlight?
    requires !(step.Pop? && step.id == id)
    ensures id in s.q.messages && s.q.messages[id] == Next(s, step).q.messages[id]
    ensures forall w ::
              (w in s.holding && s.holding[w].id == id && s.holding[w].token == s.q.messages[id].status.token) ==>
              w in Next(s, step).holding && Next(s, step).holding[w] == s.holding[w]
  {
    hide Distinct, Judge, Accounted;
  }

  lemma GracefulKeepsAttended(s: System, step: Step)
    requires Inv(s) && Attended(s) && Graceful(s, step)
    ensures Attended(Next(s, step))
  {
    var s' := Next(s, step);
    forall id | id in s'.q.messages && s'.q.messages[id].status.InFlight? && !s'.q.messages[id].status.visible
      ensures AttendedBy(s', id)
    {
      if step.Pop? && step.id == id {
        hide AllBalanced, TokensSound, Attended, Distinct;
        assert step.worker in s'.holding;
      } else {
        StillInFlight(s, step, id);
        hide Next, SameMessages, AllBalanced, TokensSound, Graceful;
        assert AttendedBy(s, id);
        var w :| w in s.holding && s.holding[w].id == id && s.holding[w].token == s.q.messages[id].status.token;
        assert w in s'.holding;
      }
    }
  }

  // No graceful run is longer than the measure it starts with.
  lemma {:induction false} GracefulRunsAreBounded(s: System, steps: seq<Step>)
    requires Inv(s) && Attended(s) && GracefulRun(s, steps)
    ensures |steps| + Measure(Exec(s, steps)) <= Measure(s)
    ensures Inv(Exec(s, steps)) && Attended(Exec(s, steps))
  {
    hide Measure, Inv, Attended, Graceful, Next;
    if steps != [] {
      var front, last := steps[..|steps| - 1], steps[|steps| - 1];
      GracefulRunsAreBounded(s, front);
      GracefulDecreases(Exec(s, front), last);
      GracefulKeepsAttended(Exec(s, front), last);
      ReachableInv(s, steps);
    }
  }

  // A graceful run that cannot go on has settled every message.
  lemma GracefulRunsSettleEverything(s: System, steps: seq<Step>)
    requires Inv(s) && Attended(s) && GracefulRun(s, steps)
    requires forall step :: !Graceful(Exec(s, steps), step)
    ensures forall id :: id in Exec(s, steps).q.messages ==> Terminal(Exec(s, steps).q.messages[id].status)
  {
    hide Inv, Next;
    GracefulRunsAreBounded(s, steps);
    var s' := Exec(s, steps);
    assert forall id ::
      (id in s'.q.messages && s'.q.messages[id].status.InFlight? && !s'.q.messages[id].status.visible) ==>
             AttendedBy(s', id);
    forall w
      ensures w !in s'.holding
    {
      assert !Graceful(s', Step.Finish(w, true, true, Edits(0, "", NoExtra)));
    }
    forall id | id in s'.q.messages
      ensures Terminal(s'.q.messages[id].status)
    {
      assert !Graceful(s', Step.Pop(0, id));
    }
  }
}
