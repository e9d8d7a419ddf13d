// What the protocol's steps do and count, in plain terms.
module ProtocolRecords {
  import opened Seqs
  import opened Namespaces
  import opened Queues
  import opened Workers
  import opened Protocol

  // What a settlement that reaches the queue in time does, and how the history
  // records it.
  lemma FinishRecords(s: System, w: nat, ok: bool, e: Edits)
    requires Inv(s) && w in s.holding && Current(s.q, s.holding[w].id, s.holding[w].token)
    ensures var d, s' := s.holding[w], Next(s, Step.Finish(w, ok, true, e));
            && d.id in s.q.messages && d.id in s.history && d.id in s'.q.messages && d.id in s'.history
            && var m, h := s.q.messages[d.id], s.history[d.id];
            && s'.q.messages[d.id] ==
               (if m.job !in s.jobs || (!ok && d.attempt >= s.jobs[m.job]) then
                  m.(status := Failed, payload := e.payload, extra := e.extra)
                else if ok then m.(status := Done)
                else m.(status := Pending, delay := e.delay, payload := e.payload, extra := e.extra))
            && (m.job !in s.jobs ==> s'.history[d.id].unregistered)
            && s'.history[d.id].settled == h.settled + (if Terminal(s'.q.messages[d.id].status) then 1 else 0)
            && s'.history[d.id].retries == h.retries + (if s'.q.messages[d.id].status.Pending? then 1 else 0)
  {
    hide AllBalanced, TokensSound, Distinct;
  }

  predicate IsExpiry(step: Step, id: string) {
    step.Expire? && step.id == id
  }

  lemma {:induction false} ExpiriesMeaning(steps: seq<Step>, id: string)
    ensures Expiries(steps, id) == |set i | 0 <= i < |steps| && IsExpiry(steps[i], id)|
  {
    if steps != [] {
      var front, n := steps[..|steps| - 1], |steps| - 1;
      ExpiriesMeaning(front, id);
      var before := set i | 0 <= i < |front| && IsExpiry(front[i], id);
      assert (set i | 0 <= i < |steps| && IsExpiry(steps[i], id))
             == if IsExpiry(steps[n], id) then before + {n} else before;
    }
  }

  // In every run from the start, a message of a job with MaxAttempts at least one
  // is retried fewer than MaxAttempts times and delivered at most MaxAttempts
  // times plus once per expiry of its lease.
  lemma BoundsFromTheStart(steps: seq<Step>, id: string)
    requires id in Exec(INITIAL, steps).q.messages
    ensures var s := Exec(INITIAL, steps);
            && id in s.history
            && var job := s.q.messages[id].job;
            (job in s.jobs && s.jobs[job] >= 1 ==>
               s.history[id].retries < s.jobs[job]
               && s.history[id].deliveries <= s.jobs[job] + |set i | 0 <= i < |steps| && IsExpiry(steps[i], id)|)
  {
    hide Exec;
    ReachableBounds(INITIAL, steps, id) by { StartIsSound(); }
    DeliveriesFromTheStart(steps, id);
    ExpiriesMeaning(steps, id);
  }

  lemma StartIsSound()
    ensures Inv(INITIAL)
  {
  }
}
