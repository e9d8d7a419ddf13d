// queue/queue.go: the life-cycle every queue driver must implement, first as
// functions on the driver's state and then as a driver that may fail.
module Queues {
  import opened Seqs
  import opened Namespaces

  // Message.Extra. Failure metadata keeps the value it replaces.
  datatype Extra = NoExtra | Raw(bytes: string) | FailureMetadata(cause: string, previous: Extra)

  // visible says that the lease has run out and the message may be delivered
  // again, although nobody has claimed it yet.
  datatype Status = Pending | InFlight(token: nat, visible: bool) | Done | Failed

  datatype Stored = Stored(queue: string, job: Key, payload: string, extra: Extra, delay: int, visibility: int,
                           attempt: nat, status: Status)

  // Settled messages stay as tombstones; tokens are never reused.
  datatype QueueState = QueueState(messages: map<string, Stored>, nextToken: nat)

  // The caller's command for one delivery, with the fields it may have changed.
  datatype Settlement =
    | Acked
    | Retried(delay: int, payload: string, extra: Extra)
    | Buried(payload: string, extra: Extra)

  // What a driver has been asked to do.
  datatype Call =
    | PushCall(message: Stored)
    | PopCall(queueName: string)
    | SettleCall(id: string, token: nat, command: Settlement)

  datatype QueueError = AlreadyExists | NotFound | Empty | Infrastructure

  predicate Terminal(s: Status) {
    s.Done? || s.Failed?
  }

  function Pushed(q: QueueState, id: string, m: Stored): QueueState {
    if id in q.messages then q else
    q.(messages := q.messages[id := m.(attempt := 0, status := Pending)])
  }

  predicate Deliverable(q: QueueState, id: string) {
    id in q.messages
    && (q.messages[id].status.Pending? || (q.messages[id].status.InFlight? && q.messages[id].status.visible))
  }

  // Attempt is incremented, Delay reset and a fresh token issued.
  function Popped(q: QueueState, id: string): QueueState
    requires Deliverable(q, id)
  {
    var m := q.messages[id];
    QueueState(q.messages[id := m.(attempt := m.attempt + 1, delay := 0, status := InFlight(q.nextToken, false))],
               q.nextToken + 1)
  }

  // Whether token identifies the current delivery of the message.
  predicate Current(q: QueueState, id: string, token: nat) {
    id in q.messages && q.messages[id].status.InFlight? && q.messages[id].status.token == token
  }

  function Applied(m: Stored, s: Settlement): Stored {
    match s
    case Acked => m.(status := Done)
    case Retried(delay, payload, extra) => m.(delay := delay, payload := payload, extra := extra, status := Pending)
    case Buried(payload, extra) => m.(payload := payload, extra := extra, status := Failed)
  }

  // A settlement changes nothing unless its delivery is still current.
  function Settled(q: QueueState, id: string, token: nat, s: Settlement): QueueState {
    if !Current(q, id, token) then q else q.(messages := q.messages[id := Applied(q.messages[id], s)])
  }

  // A lease runs out. A driver either keeps the old token current until the
  // message is claimed again, or revokes it at once.
  function Expired(q: QueueState, id: string, revoke: bool): QueueState {
    if id !in q.messages || !q.messages[id].status.InFlight? then q else
    var m := q.messages[id];
    q.(messages := q.messages[id := m.(status := if revoke then Pending else m.status.(visible := true))])
  }

  // A *Message owned by the caller for one delivery, or before Push.
  class Message {
    var id: string
    const queue: string
    const job: Key
    var delay: int
    var payload: string
    var extra: Extra
    const visibility: int
    const attempt: nat
    const token: nat

    constructor (id: string, queue: string, job: Key, delay: int, payload: string, extra: Extra, visibility: int,
                 attempt: nat, token: nat)
      ensures this.id == id && this.queue == queue && this.job == job && this.delay == delay
      ensures this.payload == payload && this.extra == extra && this.visibility == visibility
      ensures this.attempt == attempt && this.token == token
    {
      this.id, this.queue, this.job, this.delay := id, queue, job, delay;
      this.payload, this.extra, this.visibility, this.attempt, this.token := payload, extra, visibility, attempt, token;
    }

    // What a driver stores of it when it is pushed.
    function Contents(): Stored
      reads this
    {
      Stored(queue, job, payload, extra, delay, visibility, 0, Pending)
    }
  }

  class Queue {
    var messages: map<string, Stored>
    var nextToken: nat
    ghost var calls: seq<Call>

    constructor ()
      ensures State() == QueueState(map[], 0) && calls == []
    {
      messages, nextToken, calls := map[], 0, [];
    }

    function State(): QueueState
      reads this`messages, this`nextToken
    {
      QueueState(messages, nextToken)
    }

    // The driver assigns an ID no retained message has when none is given. An
    // infrastructure error leaves it open whether the message was enqueued.
    method Push(msg: Message) returns (err: Option<QueueError>)
      modifies this`messages, this`calls, msg`id
      ensures calls == old(calls) + [PushCall(msg.Contents())]
      ensures old(msg.id) != "" ==> msg.id == old(msg.id)
      ensures State() == old(State())
              || (msg.id !in old(messages) && State() == Pushed(old(State()), msg.id, msg.Contents()))
      ensures err.None? ==> msg.id !in old(messages) && State() == Pushed(old(State()), msg.id, msg.Contents())
      ensures old(msg.id) != "" && old(msg.id) in old(messages) ==> err.Some?
      ensures err == Some(AlreadyExists) ==> old(msg.id) != "" && old(msg.id) in old(messages)
      ensures err.None? ==>
                nextToken == old(nextToken)
                && messages == old(messages)[msg.id :=
                     Stored(msg.queue, msg.job, msg.payload, msg.extra, msg.delay, msg.visibility, 0, Pending)]
    {
      calls := calls + [PushCall(msg.Contents())];
      var reaches: bool := *;
      if !reaches {
        return Some(Infrastructure);
      }
      if msg.id == "" {
        var id := FreshId(messages.Keys);
        msg.id := id;
      }
      if msg.id in messages {
        return Some(AlreadyExists);
      }
      messages := messages[msg.id := msg.Contents()];
      var reports: bool := *;
      err := if reports then None else Some(Infrastructure);
    }

    // Every delivery is a new Message carrying its own token. A driver that
    // finds nothing to deliver before its polling timeout reports Empty.
    method Pop(queueName: string) returns (msg: Option<Message>, err: Option<QueueError>)
      modifies this`messages, this`nextToken, this`calls
      ensures calls == old(calls) + [PopCall(queueName)]
      ensures msg.None? <==> err.Some?
      ensures msg.None? ==> State() == old(State())
      ensures err == Some(Empty) ==>
                forall id :: id in messages && Deliverable(State(), id) ==> messages[id].queue != queueName
      ensures msg.Some? ==>
                var m := msg.value;
                && fresh(m) && Deliverable(old(State()), m.id) && State() == Popped(old(State()), m.id)
                && m.queue == queueName == messages[m.id].queue && m.job == messages[m.id].job
                && m.delay == 0 && m.payload == messages[m.id].payload && m.extra == messages[m.id].extra
                && m.visibility == messages[m.id].visibility
                && m.attempt == messages[m.id].attempt && m.token == old(nextToken)
      ensures msg.Some? ==>
                var id := msg.value.id;
                && id in old(messages) && nextToken == old(nextToken) + 1
                && var before := old(messages)[id];
                && (before.status == Pending || (before.status.InFlight? && before.status.visible))
                && messages == old(messages)[id :=
                     before.(attempt := before.attempt + 1, delay := 0, status := InFlight(old(nextToken), false))]
    {
      calls := calls + [PopCall(queueName)];
      var reachable: bool := *;
      if !reachable {
        return None, Some(Infrastructure);
      }
      var ids := set id | id in messages && Deliverable(State(), id) && messages[id].queue == queueName;
      if ids == {} {
        assert forall id :: id in messages && Deliverable(State(), id) && messages[id].queue == queueName ==> id in ids;
        return None, Some(Empty);
      }
      var id :| id in ids;
      var m := messages[id];
      var delivery := new Message(id, queueName, m.job, 0, m.payload, m.extra, m.visibility, m.attempt + 1, nextToken);
      messages := messages[id := m.(attempt := m.attempt + 1, delay := 0, status := InFlight(nextToken, false))];
      nextToken := nextToken + 1;
      return Some(delivery), None;
    }

    method Ack(msg: Message) returns (err: Option<QueueError>)
      modifies this`messages, this`calls
      ensures SettledAs(old(State()), msg.id, msg.token, Acked, State(), err)
      ensures calls == old(calls) + [SettleCall(msg.id, msg.token, Acked)]
      ensures err.None? ==>
                HeldBy(old(messages), msg.id, msg.token)
                && messages == old(messages)[msg.id := old(messages)[msg.id].(status := Done)]
      ensures err == Some(NotFound) <==> !HeldBy(old(messages), msg.id, msg.token)
    {
      err := Settle(msg, Acked);
    }

    method Retry(msg: Message) returns (err: Option<QueueError>)
      modifies this`messages, this`calls
      ensures SettledAs(old(State()), msg.id, msg.token, Retried(msg.delay, msg.payload, msg.extra), State(), err)
      ensures calls == old(calls) + [SettleCall(msg.id, msg.token, Retried(msg.delay, msg.payload, msg.extra))]
      ensures err.None? ==>
                HeldBy(old(messages), msg.id, msg.token)
                && messages == old(messages)[msg.id := old(messages)[msg.id].(
                     status := Pending, delay := msg.delay, payload := msg.payload, extra := msg.extra)]
      ensures err == Some(NotFound) <==> !HeldBy(old(messages), msg.id, msg.token)
    {
      err := Settle(msg, Retried(msg.delay, msg.payload, msg.extra));
    }

    method DeadLetter(msg: Message) returns (err: Option<QueueError>)
      modifies this`messages, this`calls
      ensures SettledAs(old(State()), msg.id, msg.token, Buried(msg.payload, msg.extra), State(), err)
      ensures calls == old(calls) + [SettleCall(msg.id, msg.token, Buried(msg.payload, msg.extra))]
      ensures err.None? ==>
                HeldBy(old(messages), msg.id, msg.token)
                && messages == old(messages)[msg.id := old(messages)[msg.id].(
                     status := Failed, payload := msg.payload, extra := msg.extra)]
      ensures err == Some(NotFound) <==> !HeldBy(old(messages), msg.id, msg.token)
    {
      err := Settle(msg, Buried(msg.payload, msg.extra));
    }

    // An infrastructure error leaves it open whether the command took effect.
    method Settle(msg: Message, s: Settlement) returns (err: Option<QueueError>)
      modifies this`messages, this`calls
      ensures SettledAs(old(State()), msg.id, msg.token, s, State(), err)
      ensures calls == old(calls) + [SettleCall(msg.id, msg.token, s)]
    {
      calls := calls + [SettleCall(msg.id, msg.token, s)];
      if !Current(State(), msg.id, msg.token) {
        return Some(NotFound);
      }
      var reaches: bool := *;
      var reports: bool := *;
      if reaches {
        messages := Settled(State(), msg.id, msg.token, s).messages;
      }
      err := if reaches && reports then None else Some(Infrastructure);
    }
  }

  // The message is in flight under that very token.
  ghost predicate HeldBy(messages: map<string, Stored>, id: string, token: nat) {
    id in messages && (messages[id].status == InFlight(token, true) || messages[id].status == InFlight(token, false))
  }

  // Once its lease has run out a message can be delivered again; whether the old
  // token still counts until then is the driver's choice.
  lemma ExpiredMeaning(q: QueueState, id: string, revoke: bool)
    requires id in q.messages && q.messages[id].status.InFlight?
    ensures Deliverable(Expired(q, id, revoke), id)
    ensures forall token :: Current(Expired(q, id, revoke), id, token) <==> !revoke && Current(q, id, token)
    ensures Expired(q, id, revoke).nextToken == q.nextToken
    ensures forall other :: other != id && other in q.messages ==>
              other in Expired(q, id, revoke).messages
              && Expired(q, id, revoke).messages[other] == q.messages[other]
  {
  }

  ghost predicate SettledAs(q: QueueState, id: string, token: nat, s: Settlement, q': QueueState,
                            err: Option<QueueError>)
  {
    && (q' == q || q' == Settled(q, id, token, s))
    && (err.None? ==> Current(q, id, token) && q' == Settled(q, id, token, s))
    && (err == Some(NotFound) <==> !Current(q, id, token))
    && (err == Some(NotFound) ==> q' == q)
  }

  // A string longer than every id in use stands for a collision-resistant id.
  method FreshId(ids: set<string>) returns (id: string)
    ensures id != "" && id !in ids
  {
    id := "x";
    var rest := ids;
    while rest != {}
      invariant rest <= ids && id != ""
      invariant forall i :: i in ids && i !in rest ==> |i| < |id|
      decreases rest
    {
      var i :| i in rest;
      if |i| >= |id| {
        id := i + "x";
      }
      rest := rest - {i};
    }
  }
}
