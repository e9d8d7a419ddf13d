// app/queue.go: dispatching jobs, and the consumers that decide what happens to
// every delivery.
module Workers {
  import opened Seqs
  import opened Namespaces
  import opened RetryPolicies
  import opened AppState
  import opened Queues

  datatype Verdict = Succeed | TryAgain | GiveUp

  // What processMessage decides. maxAttempts is None for an unregistered job.
  function Judge(maxAttempts: Option<int>, attempt: nat, ok: bool): Verdict {
    match maxAttempts
    case None => GiveUp
    case Some(max) => if ok then Succeed else if attempt >= max then GiveUp else TryAgain
  }

  function MaxAttemptsOf(jobs: seq<Entry<Job>>, key: Key): Option<int> {
    if key in AsMap(jobs) then Some(RetryPolicyFor(AsMap(jobs)[key].policy).maxAttempts) else None
  }

  // The command sent to the queue; failure is the handler's error, if any.
  function Command(jobs: seq<Entry<Job>>, key: Key, attempt: nat, payload: string, extra: Extra,
                   failure: Option<string>): Settlement
  {
    match Judge(MaxAttemptsOf(jobs, key), attempt, failure.None?)
    case Succeed => Acked
    case TryAgain =>
      Retried(if key in AsMap(jobs) then DelayFor(RetryPolicyFor(AsMap(jobs)[key].policy), attempt) else 0, payload,
              extra)
    case GiveUp =>
      Buried(payload,
             FailureMetadata(if key in AsMap(jobs) && failure.Some? then failure.value else "job not registered",
                             extra))
  }

  // A job without a policy of its own that keeps failing waits 2, 4, 8 and 16
  // seconds, and is given up at its fifth delivery: the one second and the five
  // minutes the default policy mentions never occur.
  lemma DefaultJobWaits(jobs: seq<Entry<Job>>, key: Key, attempt: nat, payload: string, extra: Extra,
                        failure: Option<string>)
    requires key in AsMap(jobs) && AsMap(jobs)[key].policy.None? && failure.Some? && 1 <= attempt
    ensures var sent := Command(jobs, key, attempt, payload, extra, failure);
            && (sent.Retried? <==> attempt < 5)
            && (attempt < 5 ==> sent == Retried([2, 4, 8, 16][attempt - 1] * SECOND, payload, extra))
            && (attempt >= 5 ==> sent == Buried(payload, FailureMetadata(failure.value, extra)))
  {
    DefaultPolicyDelays(attempt);
    if attempt < 5 { assert Pow2(1) == 2 && Pow2(2) == 4 && Pow2(3) == 8 && Pow2(4) == 16; }
  }

  // The registered job is run and the delivery settled; outcome is what the
  // job's Handle returns for this delivery.
  method ProcessMessage(jobs: seq<Entry<Job>>, q: Queue, msg: Message, outcome: Option<string>)
    requires UniqueKeys(jobs)
    modifies q`messages, q`calls, msg`delay, msg`extra
    ensures q.State() == old(q.State())
            || q.State() == Settled(old(q.State()), msg.id, msg.token,
                              Command(jobs, msg.job, msg.attempt, msg.payload, old(msg.extra), outcome))
    ensures q.calls == old(q.calls) + [SettleCall(msg.id, msg.token,
                                         Command(jobs, msg.job, msg.attempt, msg.payload, old(msg.extra), outcome))]
    ensures var sent := q.calls[|q.calls| - 1];
            && sent.SettleCall? && sent.id == msg.id && sent.token == msg.token
            && if msg.job !in AsMap(jobs) then
                 sent.command == Buried(msg.payload, FailureMetadata("job not registered", old(msg.extra)))
               else if outcome.None? then sent.command == Acked
               else
                 var own := AsMap(jobs)[msg.job].policy;
                 var policy := if own.Some? then own.value else Default(300_000_000_000, 5);
                 if msg.attempt >= policy.maxAttempts then
                   sent.command == Buried(msg.payload, FailureMetadata(outcome.value, old(msg.extra)))
                 else
                   var delay := match policy case Default(cap, _) => Backoff(cap, msg.attempt)
                                             case Custom(_, delays) => delays(msg.attempt);
                   sent.command == Retried(delay, msg.payload, old(msg.extra))
  {
    var job := Get(jobs, msg.job);
    if job.None? {
      msg.extra := FailureMetadata("job not registered", msg.extra);
      var _ := q.DeadLetter(msg);
      return;
    }
    if outcome.None? {
      var _ := q.Ack(msg);
      return;
    }
    var policy := RetryPolicyFor(job.value.policy);
    if msg.attempt >= policy.maxAttempts {
      msg.extra := FailureMetadata(outcome.value, msg.extra);
      var _ := q.DeadLetter(msg);
      return;
    }
    msg.delay := DelayFor(policy, msg.attempt);
    var _ := q.Retry(msg);
  }

  // The message of a dispatch; its visibility timeout is the dispatch's own, or
  // the job's if that is zero.
  function Dispatched(key: Key, job: Job, payload: string, delay: int, visibility: int): Stored {
    Stored(job.queueName, key, payload, NoExtra, delay, if visibility == 0 then job.visibility else visibility, 0,
           Pending)
  }

  method Dispatch(jobs: seq<Entry<Job>>, q: Queue, key: Key, payload: string, delay: int, visibility: int)
    returns (err: Option<AppError>, ghost id: string)
    requires UniqueKeys(jobs)
    modifies q`messages, q`calls
    ensures key !in AsMap(jobs) ==> err == Some(AppError.NotFound) && q.calls == old(q.calls)
    ensures key in AsMap(jobs) ==>
              err != Some(AppError.NotFound)
              && q.calls == old(q.calls) + [PushCall(Dispatched(key, AsMap(jobs)[key], payload, delay, visibility))]
    ensures key in AsMap(jobs) ==>
              var job, sent := AsMap(jobs)[key], q.calls[|q.calls| - 1];
              && sent.PushCall?
              && sent.message.queue == job.queueName && sent.message.job == key && sent.message.payload == payload
              && sent.message.delay == delay && sent.message.extra == NoExtra
              && sent.message.visibility == (if visibility != 0 then visibility else job.visibility)
    ensures key !in AsMap(jobs) ==> q.State() == old(q.State())
    ensures key in AsMap(jobs) ==>
              var pushed := Pushed(old(q.State()), id, Dispatched(key, AsMap(jobs)[key], payload, delay, visibility));
              && (q.State() == old(q.State()) || (id !in old(q.messages) && q.State() == pushed))
              && (err.None? ==> id !in old(q.messages) && q.State() == pushed)
  {
    id := "";
    var job := Get(jobs, key);
    if job.None? {
      return Some(AppError.NotFound), "";
    }
    var timeout := if visibility == 0 then job.value.visibility else visibility;
    var msg := new Message("", job.value.queueName, key, delay, payload, NoExtra, timeout, 0, 0);
    var failed := q.Push(msg);
    id := msg.id;
    err := if failed.None? then None else Some(QueueFailed);
  }
}
