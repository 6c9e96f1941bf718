/** The message bus of harness/bus.py and its worker in harness/main.py: a bounded queue, and a set of pending
    kinds that `try_send` dedups against. `send` is three steps here, cut at its two awaits; the worker is two. */
module Bus {
  import opened Seqs

  type Kind = string

  /** `id` stands for the send or try_send call that created the message. */
  datatype Message = Message(id: nat, kind: Kind)

  /** `putting` and `awaiting` are the send calls suspended at `queue.put` and at `message.result`; `processing` is
      what the worker holds; `accepted` and `received` are bookkeeping. */
  datatype State = State(
    queue: seq<Message>, pending: set<Kind>, putting: map<nat, Kind>, awaiting: map<nat, Kind>,
    processing: Option<Message>, next: nat, accepted: seq<Message>, received: seq<Message>)

  const IDLE := State([], {}, map[], map[], None, 0, [], [])

  datatype Action =
    | Send(kind: Kind)      // send up to its first await
    | PutDone(id: nat)      // its put succeeds
    | SendFails(id: nat)    // timeout, cancellation or worker failure: the `except BaseException` branch
    | SendReturns(id: nat)  // its result arrives
    | TrySend(kind: Kind)
    | Receive
    | Release               // the worker's `finally`

  /** asyncio.Queue(maxsize): a size that is not positive means unbounded. */
  predicate Full(q: seq<Message>, max: int)
  {
    max > 0 && |q| >= max
  }

  function Enqueue(s: State, m: Message): State
  {
    s.(queue := s.queue + [m], accepted := s.accepted + [m])
  }

  function Step(s: State, a: Action, max: int): State
  {
    match a
    case Send(kind) =>
      s.(pending := s.pending + {kind}, putting := s.putting[s.next := kind], next := s.next + 1)
    case PutDone(id) =>
      if id in s.putting && !Full(s.queue, max) then
        Enqueue(s.(putting := s.putting - {id}, awaiting := s.awaiting[id := s.putting[id]]),
                Message(id, s.putting[id]))
      else s
    case SendFails(id) =>
      if id in s.putting then s.(putting := s.putting - {id}, pending := s.pending - {s.putting[id]})
      else if id in s.awaiting then s.(awaiting := s.awaiting - {id}, pending := s.pending - {s.awaiting[id]})
      else s
    case SendReturns(id) => s.(awaiting := s.awaiting - {id})
    case TrySend(kind) =>
      if kind in s.pending then s
      else if Full(s.queue, max) then s.(next := s.next + 1)
      else Enqueue(s.(pending := s.pending + {kind}, next := s.next + 1), Message(s.next, kind))
    case Receive =>
      if s.processing.None? && s.queue != [] then
        s.(queue := s.queue[1..], processing := Some(s.queue[0]), received := s.received + [s.queue[0]])
      else s
    case Release =>
      if s.processing.Some? then s.(processing := None, pending := s.pending - {s.processing.value.kind}) else s
  }

  function Run(s: State, actions: seq<Action>, max: int): State
    decreases actions
  {
    if actions == [] then s else Run(Step(s, actions[0], max), actions[1..], max)
  }

  // ---------- live messages ----------

  function Putting(s: State, k: Kind): set<nat>
  {
    set id | id in s.putting && s.putting[id] == k
  }

  function Count(q: seq<Message>, k: Kind): nat
  {
    if q == [] then 0 else (if q[0].kind == k then 1 else 0) + Count(q[1..], k)
  }

  /** Messages of this kind waiting to be enqueued, queued, or being processed. */
  function Live(s: State, k: Kind): nat
  {
    |Putting(s, k)| + Count(s.queue, k) + if s.processing.Some? && s.processing.value.kind == k then 1 else 0
  }

  lemma {:induction false} CountAppend(q: seq<Message>, m: Message, k: Kind)
    ensures Count(q + [m], k) == Count(q, k) + if m.kind == k then 1 else 0
  {
    if q == [] {
      assert [] + [m] == [m];
    } else {
      assert (q + [m])[1..] == q[1..] + [m];
      CountAppend(q[1..], m, k);
    }
  }

  ghost predicate Inv(s: State)
  {
    && s.accepted == s.received + s.queue
    && (forall id :: id in s.putting ==> id < s.next)
    && (forall k :: k in s.pending ==> Live(s, k) >= 1)
  }

  lemma PutLive(s: State, id: nat, max: int, k: Kind)
    ensures Live(Step(s, PutDone(id), max), k) == Live(s, k)
  {
    if id in s.putting && !Full(s.queue, max) {
      assert Putting(Step(s, PutDone(id), max), k) == Putting(s, k) - {id};
      CountAppend(s.queue, Message(id, s.putting[id]), k);
    }
  }

  lemma FailLive(s: State, id: nat, max: int, k: Kind)
    ensures Live(Step(s, SendFails(id), max), k)
            == Live(s, k) - if id in s.putting && s.putting[id] == k then 1 else 0
  {
    assert Putting(Step(s, SendFails(id), max), k) == Putting(s, k) - {id};
  }

  lemma TryLive(s: State, kind: Kind, max: int, k: Kind)
    ensures Live(Step(s, TrySend(kind), max), k)
            == Live(s, k) + if kind == k && kind !in s.pending && !Full(s.queue, max) then 1 else 0
  {
    assert Putting(Step(s, TrySend(kind), max), k) == Putting(s, k);
    CountAppend(s.queue, Message(s.next, kind), k);
  }

  lemma SendLive(s: State, kind: Kind, max: int, k: Kind)
    requires s.next !in s.putting
    ensures Live(Step(s, Send(kind), max), k) == Live(s, k) + if kind == k then 1 else 0
  {
    assert Putting(Step(s, Send(kind), max), k) == if kind == k then Putting(s, k) + {s.next} else Putting(s, k);
  }

  /** How a step changes the number of live messages of one kind. */
  lemma StepLive(s: State, a: Action, max: int, k: Kind)
    requires forall id :: id in s.putting ==> id < s.next
    ensures var t := Step(s, a, max);
            match a
            case Send(kind) => Live(t, k) == Live(s, k) + if kind == k then 1 else 0
            case SendFails(id) => Live(t, k) == Live(s, k) - if id in s.putting && s.putting[id] == k then 1 else 0
            case TrySend(kind) =>
              Live(t, k) == Live(s, k) + if kind == k && kind !in s.pending && !Full(s.queue, max) then 1 else 0
            case Release =>
              Live(t, k) == Live(s, k) - if s.processing.Some? && s.processing.value.kind == k then 1 else 0
            case _ => Live(t, k) == Live(s, k)
  {
    if a.PutDone? {
      PutLive(s, a.id, max, k);
    } else if a.SendFails? {
      FailLive(s, a.id, max, k);
    } else if a.TrySend? {
      TryLive(s, a.kind, max, k);
    } else if a.Send? {
      SendLive(s, a.kind, max, k);
    } else {
      assert Putting(Step(s, a, max), k) == Putting(s, k);
    }
  }

  lemma StepInv(s: State, a: Action, max: int)
    requires Inv(s)
    ensures Inv(Step(s, a, max))
  {
    var t := Step(s, a, max);
    assert t.accepted == t.received + t.queue;
    forall k | k in t.pending
      ensures Live(t, k) >= 1
    {
      StepLive(s, a, max, k);
    }
  }

  lemma {:induction false} RunInv(s: State, actions: seq<Action>, max: int)
    requires Inv(s)
    ensures Inv(Run(s, actions, max))
    decreases actions
  {
    if actions != [] {
      StepInv(s, actions[0], max);
      RunInv(Step(s, actions[0], max), actions[1..], max);
    }
  }

  /** In every interleaving a pending kind has a live message, so `try_send` never skips for nothing; and the
      worker receives exactly what was enqueued, in order. */
  lemma PendingIsLive(actions: seq<Action>, max: int, k: Kind)
    ensures var s := Run(IDLE, actions, max);
            && (k in s.pending ==> Live(s, k) >= 1)
            && s.accepted == s.received + s.queue
  {
    RunInv(IDLE, actions, max);
  }

  // ---------- kinds that only try_send uses ----------

  ghost predicate Exclusive(s: State, k: Kind)
  {
    && Inv(s)
    && Putting(s, k) == {}
    && (forall id :: id in s.awaiting ==> s.awaiting[id] != k)
    && Live(s, k) == (if k in s.pending then 1 else 0)
  }

  lemma StepExclusive(s: State, a: Action, max: int, k: Kind)
    requires Exclusive(s, k) && a != Send(k)
    ensures Exclusive(Step(s, a, max), k)
  {
    StepInv(s, a, max);
    StepLive(s, a, max, k);
    var t := Step(s, a, max);
    assert forall id :: id in s.putting ==> s.putting[id] != k by {
      assert forall id :: id in s.putting && s.putting[id] == k ==> id in Putting(s, k);
    }
    assert forall id :: id in t.putting ==> t.putting[id] != k;
  }

  lemma {:induction false} RunExclusive(s: State, actions: seq<Action>, max: int, k: Kind)
    requires Exclusive(s, k) && Send(k) !in actions
    ensures Exclusive(Run(s, actions, max), k)
    decreases actions
  {
    if actions != [] {
      StepExclusive(s, actions[0], max, k);
      RunExclusive(Step(s, actions[0], max), actions[1..], max, k);
    }
  }

  /** A kind that is only ever sent by `try_send` is pending exactly when one message of it is live, and there are
      never two. */
  lemma TrySendIsExclusive(actions: seq<Action>, max: int, k: Kind)
    requires Send(k) !in actions
    ensures var s := Run(IDLE, actions, max);
            Live(s, k) <= 1 && (k in s.pending <==> Live(s, k) == 1)
  {
    assert Putting(IDLE, k) == {};
    RunExclusive(IDLE, actions, max, k);
  }

  // ---------- when dedup works ----------

  /** What `try_send` takes the set for: a kind is pending exactly while a message of it is live. */
  predicate Faithful(s: State, k: Kind)
  {
    k in s.pending <==> Live(s, k) >= 1
  }

  /** While the set is faithful, `try_send` enqueues exactly when no message of the kind is live and the queue has
      room; once it is not, it is ready to enqueue a second message of a live kind. */
  lemma FaithfulDedups(s: State, max: int, k: Kind)
    requires forall id :: id in s.putting ==> id < s.next
    ensures Faithful(s, k) ==>
              (|Step(s, TrySend(k), max).queue| == |s.queue| + 1 <==> Live(s, k) == 0 && !Full(s.queue, max))
    ensures k !in s.pending && Live(s, k) >= 1 && !Full(s.queue, max) ==>
              |Step(s, TrySend(k), max).queue| == |s.queue| + 1 && Live(Step(s, TrySend(k), max), k) >= 2
  {
    StepLive(s, TrySend(k), max, k);
  }

  /** This step clears the kind although a message of it stays live: the worker releases one of several, or a send
      fails whose message is already queued or is not the only one. */
  predicate ClearsLiveKind(s: State, a: Action, k: Kind)
  {
    match a
    case Release => s.processing.Some? && s.processing.value.kind == k && Live(s, k) >= 2
    case SendFails(id) =>
      if id in s.putting then s.putting[id] == k && Live(s, k) >= 2
      else id in s.awaiting && s.awaiting[id] == k && Live(s, k) >= 1
    case _ => false
  }

  /** A step keeps the set faithful to a kind if and only if it does not clear the kind while it is live. */
  lemma StepKeepsFaithful(s: State, a: Action, max: int, k: Kind)
    requires Inv(s) && Faithful(s, k)
    ensures Faithful(Step(s, a, max), k) <==> !ClearsLiveKind(s, a, k)
  {
    StepLive(s, a, max, k);
    StepInv(s, a, max);
  }

  /** Some step of the run clears the kind while it is live. */
  predicate SomeStepClears(s: State, actions: seq<Action>, max: int, k: Kind)
    decreases actions
  {
    actions != []
    && (ClearsLiveKind(s, actions[0], k) || SomeStepClears(Step(s, actions[0], max), actions[1..], max, k))
  }

  /** The set is faithful to the kind in every state of the run. */
  predicate FaithfulThroughout(s: State, actions: seq<Action>, max: int, k: Kind)
    decreases actions
  {
    Faithful(s, k) && (actions != [] ==> FaithfulThroughout(Step(s, actions[0], max), actions[1..], max, k))
  }

  lemma {:induction false} RunFaithful(s: State, actions: seq<Action>, max: int, k: Kind)
    requires Inv(s) && Faithful(s, k)
    ensures FaithfulThroughout(s, actions, max, k) <==> !SomeStepClears(s, actions, max, k)
    decreases actions
  {
    if actions != [] {
      StepKeepsFaithful(s, actions[0], max, k);
      StepInv(s, actions[0], max);
      if Faithful(Step(s, actions[0], max), k) {
        RunFaithful(Step(s, actions[0], max), actions[1..], max, k);
      }
    }
  }

  /** Dedup works for a kind throughout a run, with any mix of `send` and `try_send`, if and only if no release and
      no failing send of the run clears the kind while another message of it is live. */
  lemma DedupExactly(actions: seq<Action>, max: int, k: Kind)
    ensures FaithfulThroughout(IDLE, actions, max, k) <==> !SomeStepClears(IDLE, actions, max, k)
  {
    assert Putting(IDLE, k) == {};
    RunFaithful(IDLE, actions, max, k);
  }

  lemma RunTwo(s: State, a: Action, b: Action, max: int)
    ensures Run(s, [a, b], max) == Step(Step(s, a, max), b, max)
  {
    assert [a, b][1..] == [b] && [b][1..] == [];
    assert Run(Step(s, a, max), [b], max) == Run(Step(Step(s, a, max), b, max), [], max);
  }

  lemma {:induction false} RunAppend(s: State, first: seq<Action>, more: seq<Action>, max: int)
    ensures Run(s, first + more, max) == Run(Run(s, first, max), more, max)
    decreases first
  {
    if first == [] {
      assert first + more == more;
    } else {
      assert (first + more)[1..] == first[1..] + more;
      RunAppend(Step(s, first[0], max), first[1..], more, max);
    }
  }

  /** A send that is cancelled while it waits for its result clears the kind with its message still queued, and
      `try_send` then enqueues a second one. */
  lemma CancelledSendBreaksDedup(k: Kind)
    ensures var s := Run(IDLE, [Send(k), PutDone(0)] + [SendFails(0), TrySend(k)], 0);
            k in s.pending && s.queue == [Message(0, k), Message(1, k)]
  {
    RunAppend(IDLE, [Send(k), PutDone(0)], [SendFails(0), TrySend(k)], 0);
    RunTwo(IDLE, Send(k), PutDone(0), 0);
    var s := Run(IDLE, [Send(k), PutDone(0)], 0);
    assert s.queue == [Message(0, k)];
    RunTwo(s, SendFails(0), TrySend(k), 0);
    assert [Message(0, k)] + [Message(1, k)] == [Message(0, k), Message(1, k)];
  }

  /** No failure is needed: of two overlapping sends the first is processed and its release clears the kind with
      the second's message still queued. */
  lemma OverlappingSendsBreakDedup(k: Kind)
    ensures var s := Run(IDLE, [Send(k), PutDone(0)] + [Send(k), PutDone(1)] + [Receive, Release], 0);
            && k !in s.pending && s.queue == [Message(1, k)]
            && Step(s, TrySend(k), 0).queue == [Message(1, k), Message(2, k)]
  {
    RunAppend(IDLE, [Send(k), PutDone(0)] + [Send(k), PutDone(1)], [Receive, Release], 0);
    RunAppend(IDLE, [Send(k), PutDone(0)], [Send(k), PutDone(1)], 0);
    RunTwo(IDLE, Send(k), PutDone(0), 0);
    var s1 := Run(IDLE, [Send(k), PutDone(0)], 0);
    assert s1.queue == [Message(0, k)];
    RunTwo(s1, Send(k), PutDone(1), 0);
    var s2 := Run(s1, [Send(k), PutDone(1)], 0);
    assert s2.queue == [Message(0, k), Message(1, k)];
    RunTwo(s2, Receive, Release, 0);
    assert s2.queue[1..] == [Message(1, k)];
    assert [Message(1, k)] + [Message(2, k)] == [Message(1, k), Message(2, k)];
  }

  // ---------- the worker clears what is pending ----------

  /** The worker alone: finish what is being processed, then take and finish n more. */
  function Work(n: nat): seq<Action>
  {
    if n == 0 then [Release] else [Release, Receive] + Work(n - 1)
  }

  lemma {:induction false} WorkDrains(s: State, max: int)
    ensures var t := Run(s, Work(|s.queue|), max);
            t.queue == [] && t.processing == None && t.putting == s.putting
    decreases |s.queue|
  {
    var n := |s.queue|;
    var r := Step(s, Release, max);
    if n > 0 {
      var next := Step(r, Receive, max);
      WorkDrains(next, max);
      assert Work(n)[0] == Release && Work(n)[1..][0] == Receive && Work(n)[1..][1..] == Work(n - 1);
    } else {
      assert [Release][1..] == [];
    }
  }

  /** No kind is starved: from any reachable state the worker's own steps leave pending only kinds some send call
      is still waiting to enqueue. */
  lemma WorkerClearsPending(actions: seq<Action>, max: int, k: Kind)
    ensures var s := Run(IDLE, actions, max);
            var t := Run(s, Work(|s.queue|), max);
            k in t.pending ==> exists id :: id in s.putting && s.putting[id] == k
  {
    RunInv(IDLE, actions, max);
    var s := Run(IDLE, actions, max);
    WorkDrains(s, max);
    RunInv(s, Work(|s.queue|), max);
    var t := Run(s, Work(|s.queue|), max);
    if k in t.pending {
      assert |Putting(t, k)| >= 1;
      var id :| id in Putting(t, k);
    }
  }

  // ---------- the bound ----------

  lemma {:induction false} RunBounded(s: State, actions: seq<Action>, max: int)
    requires max > 0 && |s.queue| <= max
    ensures |Run(s, actions, max).queue| <= max
    decreases actions
  {
    if actions != [] {
      RunBounded(Step(s, actions[0], max), actions[1..], max);
    }
  }

  /** In every run a queue with a positive maxsize holds at most that many messages. A suspended put goes through
      exactly when fewer are queued or maxsize is not positive, and so does a `try_send` of a kind that is not
      pending; otherwise the first changes nothing and the second only uses up a message. */
  lemma BoundedQueue(actions: seq<Action>, max: int, id: nat, kind: Kind)
    ensures var s := Run(IDLE, actions, max);
            && (max > 0 ==> |s.queue| <= max)
            && (id in s.putting ==>
                  var put := Step(s, PutDone(id), max);
                  if max <= 0 || |s.queue| < max then
                    && put.queue == s.queue + [Message(id, s.putting[id])] && id !in put.putting
                    && id in put.awaiting && put.awaiting[id] == s.putting[id] && put.pending == s.pending
                  else put == s)
            && (kind !in s.pending ==>
                  var tried := Step(s, TrySend(kind), max);
                  if max <= 0 || |s.queue| < max then
                    tried.queue == s.queue + [Message(s.next, kind)] && tried.pending == s.pending + {kind}
                  else tried.queue == s.queue && tried.pending == s.pending)
  {
    if max > 0 {
      RunBounded(IDLE, actions, max);
    }
  }

  // ---------- the bus ----------

  /** The ghost fields are what the suspended callers and the worker know; the bus has the queue and the set. */
  class MessageBus {
    const max: int
    var queue: seq<Message>
    var pendingKinds: set<Kind>
    ghost var putting: map<nat, Kind>
    ghost var awaiting: map<nat, Kind>
    ghost var processing: Option<Message>
    var next: nat
    ghost var accepted: seq<Message>
    ghost var received: seq<Message>

    ghost function View(): State
      reads this
    {
      State(queue, pendingKinds, putting, awaiting, processing, next, accepted, received)
    }

    constructor (max: int)
      ensures View() == IDLE && this.max == max
    {
      this.max := max;
      queue, pendingKinds, putting, awaiting, processing := [], {}, map[], map[], None;
      next, accepted, received := 0, [], [];
    }

    /** `send` up to `queue.put`. */
    method SendBegin(kind: Kind) returns (id: nat)
      modifies this
      ensures View() == Step(old(View()), Send(kind), max) && id == old(next)
    {
      id := next;
      next := next + 1;
      pendingKinds := pendingKinds + {kind};
      putting := putting[id := kind];
    }

    /** The put of send call `id`; while the queue is full it stays suspended. */
    method SendPut(id: nat, kind: Kind) returns (done: bool)
      requires id in putting && putting[id] == kind
      modifies this
      ensures View() == Step(old(View()), PutDone(id), max)
      ensures done <==> id !in putting
    {
      if max > 0 && |queue| >= max {
        return false;
      }
      putting, awaiting := putting - {id}, awaiting[id := kind];
      queue := queue + [Message(id, kind)];
      accepted := accepted + [Message(id, kind)];
      return true;
    }

    /** The cleanup branch of send call `id`, wherever it was suspended. */
    method SendCleanup(id: nat, kind: Kind)
      requires if id in putting then putting[id] == kind else id in awaiting && awaiting[id] == kind
      modifies this
      ensures View() == Step(old(View()), SendFails(id), max)
    {
      if id in putting {
        putting := putting - {id};
      } else {
        awaiting := awaiting - {id};
      }
      pendingKinds := pendingKinds - {kind};
    }

    method TrySendMessage(kind: Kind) returns (ok: bool)
      modifies this
      ensures View() == Step(old(View()), TrySend(kind), max)
      ensures ok <==> |queue| == |old(queue)| + 1
    {
      if kind in pendingKinds {
        return false;
      }
      var id := next;
      next := next + 1;
      pendingKinds := pendingKinds + {kind};
      if max > 0 && |queue| >= max {
        pendingKinds := pendingKinds - {kind};
        return false;
      }
      queue := queue + [Message(id, kind)];
      accepted := accepted + [Message(id, kind)];
      return true;
    }

    /** The worker's `receive`, once a message is there. */
    method ReceiveMessage() returns (m: Message)
      requires queue != [] && processing.None?
      modifies this
      ensures View() == Step(old(View()), Receive, max) && processing == Some(m)
    {
      m := queue[0];
      queue := queue[1..];
      processing, received := Some(m), received + [m];
    }

    /** The worker's `finally` for the message it holds. */
    method ReleasePending(kind: Kind)
      requires processing.Some? && processing.value.kind == kind
      modifies this
      ensures View() == Step(old(View()), Release, max)
    {
      pendingKinds := pendingKinds - {kind};
      processing := None;
    }
  }
}
