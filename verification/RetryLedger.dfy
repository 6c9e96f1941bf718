/** The retry-byte ledger of harness/webhooks.py: a process-wide counter and a counter per subscription, reserved
    under a lock before a retry task is created and released in that task's `finally`.

    The lock's critical sections contain no await, so a reservation and a release are one step each. */
module RetryLedger {
  type Name = string
  type RetryId = nat

  datatype Grant = Grant(name: Name, bytes: nat)

  /** `budget` and `perSub` are the two configured ceilings; `perSub <= 0` disables the second. The model is of
      the budget switched on; with it off no counter is ever touched. */
  datatype Limits = Limits(budget: nat, perSub: int)

  /** `grants` is bookkeeping: the reservations whose `finally` has not run, by retry task. */
  datatype Ledger = Ledger(inflight: int, perSub: map<Name, int>, grants: map<RetryId, Grant>)

  const EMPTY := Ledger(0, map[], map[])

  datatype Action =
    | Reserve(id: RetryId, name: Name, bytes: nat)
    | Release(id: RetryId)

  function Counter(perSub: map<Name, int>, n: Name): int
  {
    if n in perSub then perSub[n] else 0
  }

  function Held(l: Ledger, n: Name): int
  {
    Counter(l.perSub, n)
  }

  predicate Admits(l: Ledger, n: Name, bytes: nat, limits: Limits)
  {
    && (limits.perSub > 0 ==> Held(l, n) + bytes <= limits.perSub)
    && l.inflight + bytes <= limits.budget
  }

  function Max0(x: int): nat
  {
    if x < 0 then 0 else x
  }

  function Step(l: Ledger, a: Action, limits: Limits): Ledger
  {
    match a
    case Reserve(id, n, bytes) =>
      if id in l.grants || !Admits(l, n, bytes, limits) then l
      else Ledger(l.inflight + bytes, l.perSub[n := Held(l, n) + bytes], l.grants[id := Grant(n, bytes)])
    case Release(id) =>
      if id !in l.grants then l
      else
        var g := l.grants[id];
        var left := Max0(Held(l, g.name) - g.bytes);
        Ledger(Max0(l.inflight - g.bytes),
               if left == 0 then l.perSub - {g.name} else l.perSub[g.name := left],
               l.grants - {id})
  }

  function Run(l: Ledger, actions: seq<Action>, limits: Limits): Ledger
    decreases actions
  {
    if actions == [] then l else Run(Step(l, actions[0], limits), actions[1..], limits)
  }

  // ---------- sums over maps ----------

  /** The sum over a map of what `f` makes of each value. */
  ghost function Sum<K, V>(m: map<K, V>, f: V -> int): int
    decreases |m|
  {
    if m == map[] then 0
    else
      var k :| k in m;
      f(m[k]) + Sum(m - {k}, f)
  }

  /** Any key may be taken first. */
  lemma {:induction false} SumTake<K, V>(m: map<K, V>, f: V -> int, k: K)
    requires k in m
    ensures Sum(m, f) == f(m[k]) + Sum(m - {k}, f)
    decreases |m|
  {
    var j :| j in m && Sum(m, f) == f(m[j]) + Sum(m - {j}, f);
    if j != k {
      SumTake(m - {j}, f, k);
      SumTake(m - {k}, f, j);
      assert m - {j} - {k} == m - {k} - {j};
    }
  }

  lemma SumPut<K, V>(m: map<K, V>, f: V -> int, k: K, v: V)
    ensures Sum(m[k := v], f) == f(v) + Sum(m - {k}, f)
  {
    SumTake(m[k := v], f, k);
    assert m[k := v] - {k} == m - {k};
  }

  lemma {:induction false} SumSign<K, V>(m: map<K, V>, f: V -> int)
    requires forall v :: f(v) >= 0
    ensures Sum(m, f) >= 0
    decreases |m|
  {
    if m != map[] {
      var k :| k in m;
      SumTake(m, f, k);
      SumSign(m - {k}, f);
    }
  }

  // ---------- conservation ----------

  const BYTES: Grant -> int := (g: Grant) => g.bytes

  function BytesOf(n: Name): Grant -> int
  {
    (g: Grant) => if g.name == n then g.bytes else 0
  }

  const VALUE: int -> int := (v: int) => v

  ghost predicate Inv(l: Ledger, limits: Limits)
  {
    && l.inflight == Sum(l.grants, BYTES)
    && l.inflight == Sum(l.perSub, VALUE)
    && (forall n :: Held(l, n) == Sum(l.grants, BytesOf(n)))
    && l.inflight <= limits.budget
    && (limits.perSub > 0 ==> forall n :: Held(l, n) <= limits.perSub)
  }

  lemma CounterRemoved(perSub: map<Name, int>, n: Name)
    ensures Sum(perSub - {n}, VALUE) == Sum(perSub, VALUE) - Counter(perSub, n)
  {
    if n in perSub {
      SumTake(perSub, VALUE, n);
    } else {
      assert perSub - {n} == perSub;
    }
  }

  lemma CounterPut(perSub: map<Name, int>, n: Name, v: int)
    ensures Sum(perSub[n := v], VALUE) == Sum(perSub, VALUE) - Counter(perSub, n) + v
  {
    CounterRemoved(perSub, n);
    SumPut(perSub, VALUE, n, v);
  }

  lemma GrantSum(grants: map<RetryId, Grant>, id: RetryId, n: Name, bytes: nat, m: Name)
    requires id !in grants
    ensures Sum(grants[id := Grant(n, bytes)], BytesOf(m)) == Sum(grants, BytesOf(m)) + if m == n then bytes else 0
    ensures Sum(grants[id := Grant(n, bytes)], BYTES) == Sum(grants, BYTES) + bytes
  {
    assert grants - {id} == grants;
    SumPut(grants, BytesOf(m), id, Grant(n, bytes));
    SumPut(grants, BYTES, id, Grant(n, bytes));
  }

  lemma ReserveHeld(l: Ledger, id: RetryId, n: Name, bytes: nat, limits: Limits, m: Name)
    requires id !in l.grants && Admits(l, n, bytes, limits) && Held(l, m) == Sum(l.grants, BytesOf(m))
    ensures var l' := Step(l, Reserve(id, n, bytes), limits);
            && Held(l', m) == Sum(l'.grants, BytesOf(m))
            && Held(l', m) == Held(l, m) + if m == n then bytes else 0
  {
    GrantSum(l.grants, id, n, bytes, m);
  }

  lemma ReserveTotals(l: Ledger, id: RetryId, n: Name, bytes: nat, limits: Limits)
    requires l.inflight == Sum(l.grants, BYTES) == Sum(l.perSub, VALUE)
    requires id !in l.grants && Admits(l, n, bytes, limits)
    ensures var l' := Step(l, Reserve(id, n, bytes), limits);
            l'.inflight == Sum(l'.grants, BYTES) == Sum(l'.perSub, VALUE)
  {
    CounterPut(l.perSub, n, Held(l, n) + bytes);
    GrantSum(l.grants, id, n, bytes, n);
  }

  lemma ReserveInv(l: Ledger, id: RetryId, n: Name, bytes: nat, limits: Limits)
    requires Inv(l, limits) && id !in l.grants && Admits(l, n, bytes, limits)
    ensures Inv(Step(l, Reserve(id, n, bytes), limits), limits)
  {
    var l' := Step(l, Reserve(id, n, bytes), limits);
    ReserveTotals(l, id, n, bytes, limits);
    forall m
      ensures Held(l', m) == Sum(l'.grants, BytesOf(m))
      ensures Held(l', m) == Held(l, m) + if m == n then bytes else 0
    {
      ReserveHeld(l, id, n, bytes, limits, m);
    }
  }

  /** A grant is covered by both counters, so neither clamp at zero ever bites. */
  lemma ClampsNeverBite(l: Ledger, id: RetryId, limits: Limits)
    requires Inv(l, limits) && id in l.grants
    ensures l.grants[id].bytes <= l.inflight
    ensures l.grants[id].bytes <= Held(l, l.grants[id].name)
  {
    var g := l.grants[id];
    SumTake(l.grants, BYTES, id);
    SumSign(l.grants - {id}, BYTES);
    SumTake(l.grants, BytesOf(g.name), id);
    SumSign(l.grants - {id}, BytesOf(g.name));
    assert Held(l, g.name) == Sum(l.grants, BytesOf(g.name));
  }

  lemma ReleaseHeld(l: Ledger, id: RetryId, limits: Limits, m: Name)
    requires id in l.grants && Held(l, m) == Sum(l.grants, BytesOf(m))
    requires l.grants[id].bytes <= Held(l, l.grants[id].name)
    ensures var l' := Step(l, Release(id), limits);
            Held(l', m) == Sum(l'.grants, BytesOf(m)) && Held(l', m) <= Held(l, m)
  {
    SumTake(l.grants, BytesOf(m), id);
  }

  lemma ReleaseTotals(l: Ledger, id: RetryId, limits: Limits)
    requires l.inflight == Sum(l.grants, BYTES) == Sum(l.perSub, VALUE)
    requires id in l.grants && l.grants[id].bytes <= l.inflight && l.grants[id].bytes <= Held(l, l.grants[id].name)
    ensures var l' := Step(l, Release(id), limits);
            l'.inflight == Sum(l'.grants, BYTES) == Sum(l'.perSub, VALUE)
  {
    var g := l.grants[id];
    SumTake(l.grants, BYTES, id);
    CounterRemoved(l.perSub, g.name);
    CounterPut(l.perSub, g.name, Held(l, g.name) - g.bytes);
  }

  lemma ReleaseInv(l: Ledger, id: RetryId, limits: Limits)
    requires Inv(l, limits) && id in l.grants
    ensures Inv(Step(l, Release(id), limits), limits)
  {
    var l' := Step(l, Release(id), limits);
    ClampsNeverBite(l, id, limits);
    ReleaseTotals(l, id, limits);
    forall m
      ensures Held(l', m) == Sum(l'.grants, BytesOf(m))
      ensures Held(l', m) <= Held(l, m)
    {
      ReleaseHeld(l, id, limits, m);
    }
  }

  lemma {:induction false} RunInv(l: Ledger, actions: seq<Action>, limits: Limits)
    requires Inv(l, limits)
    ensures Inv(Run(l, actions, limits), limits)
    decreases actions
  {
    if actions != [] {
      match actions[0] {
        case Reserve(id, n, bytes) =>
          if id !in l.grants && Admits(l, n, bytes, limits) {
            ReserveInv(l, id, n, bytes, limits);
          }
        case Release(id) =>
          if id in l.grants {
            ReleaseInv(l, id, limits);
          }
      }
      RunInv(Step(l, actions[0], limits), actions[1..], limits);
    }
  }

  /** In every reachable state the global counter is the sum of the reservations still outstanding, and of the
      per-subscription counters; each of those is the sum of its own reservations; both stay in their caps; and
      both cover every outstanding reservation, so releasing it never meets a clamp. */
  lemma Conservation(actions: seq<Action>, limits: Limits)
    ensures var l := Run(EMPTY, actions, limits);
            && l.inflight == Sum(l.grants, BYTES) == Sum(l.perSub, VALUE)
            && (forall n :: Held(l, n) == Sum(l.grants, BytesOf(n)))
            && 0 <= l.inflight <= limits.budget
            && (limits.perSub > 0 ==> forall n :: Held(l, n) <= limits.perSub)
            && (forall id :: id in l.grants ==>
                  l.grants[id].bytes <= l.inflight && l.grants[id].bytes <= Held(l, l.grants[id].name))
  {
    assert forall n :: Held(EMPTY, n) == Sum(EMPTY.grants, BytesOf(n));
    RunInv(EMPTY, actions, limits);
    var l := Run(EMPTY, actions, limits);
    SumSign(l.grants, BYTES);
    forall id | id in l.grants
      ensures l.grants[id].bytes <= l.inflight && l.grants[id].bytes <= Held(l, l.grants[id].name)
    {
      ClampsNeverBite(l, id, limits);
    }
  }

  /** With all that is outstanding the body fits into the budget and, with what is outstanding for its name, under a
      positive per-subscription ceiling. */
  ghost predicate Fits(grants: map<RetryId, Grant>, n: Name, bytes: nat, limits: Limits)
  {
    && (limits.perSub <= 0 || Sum(grants, BytesOf(n)) + bytes <= limits.perSub)
    && Sum(grants, BYTES) + bytes <= limits.budget
  }

  lemma FitsExactly(l: Ledger, n: Name, bytes: nat, limits: Limits)
    requires Inv(l, limits)
    ensures Admits(l, n, bytes, limits) <==> Fits(l.grants, n, bytes, limits)
  {
    assert Held(l, n) == Sum(l.grants, BytesOf(n));
  }

  /** Which reservations are granted, in every reachable ledger: exactly those that fit, with all that is outstanding,
      into the budget and, with what is outstanding for the same name, under a positive per-subscription ceiling. */
  lemma GrantedExactly(actions: seq<Action>, id: RetryId, n: Name, bytes: nat, limits: Limits)
    requires id !in Run(EMPTY, actions, limits).grants
    ensures var l := Run(EMPTY, actions, limits);
            var l' := Step(l, Reserve(id, n, bytes), limits);
            && (id in l'.grants <==>
                  && (limits.perSub <= 0 || Sum(l.grants, BytesOf(n)) + bytes <= limits.perSub)
                  && Sum(l.grants, BYTES) + bytes <= limits.budget)
            && l'.grants == if id in l'.grants then l.grants[id := Grant(n, bytes)] else l.grants
  {
    assert forall m :: Held(EMPTY, m) == Sum(EMPTY.grants, BytesOf(m));
    RunInv(EMPTY, actions, limits);
    FitsExactly(Run(EMPTY, actions, limits), n, bytes, limits);
  }

  lemma {:induction false} NoneOfName(grants: map<RetryId, Grant>, n: Name)
    requires forall id :: id in grants ==> grants[id].name != n
    ensures Sum(grants, BytesOf(n)) == 0
    decreases |grants|
  {
    if grants != map[] {
      var k :| k in grants;
      SumTake(grants, BytesOf(n), k);
      NoneOfName(grants - {k}, n);
    }
  }

  /** What other names hold never counts against the ceiling: a name with nothing outstanding is granted any body that
      is within the ceiling and that the budget still has room for. */
  lemma PeersDoNotStarve(actions: seq<Action>, id: RetryId, n: Name, bytes: nat, limits: Limits)
    requires id !in Run(EMPTY, actions, limits).grants
    requires forall k :: k in Run(EMPTY, actions, limits).grants ==> Run(EMPTY, actions, limits).grants[k].name != n
    requires bytes <= limits.perSub && Sum(Run(EMPTY, actions, limits).grants, BYTES) + bytes <= limits.budget
    ensures id in Step(Run(EMPTY, actions, limits), Reserve(id, n, bytes), limits).grants
  {
    GrantedExactly(actions, id, n, bytes, limits);
    NoneOfName(Run(EMPTY, actions, limits).grants, n);
  }

  // ---------- the life of a retry task ----------

  /** The tasks whose reservation was granted: `unstarted` are scheduled and have not run yet, `running` are past
      the start of their `try`, `lost` were cancelled before they ran and keep the grant they had. */
  datatype Retries = Retries(ledger: Ledger, unstarted: set<RetryId>, running: set<RetryId>, lost: map<RetryId, Grant>)

  const IDLE := Retries(EMPTY, {}, {}, map[])

  datatype Event =
    | Schedule(id: RetryId, name: Name, bytes: nat)  // the admission check, and the task if it passes
    | Start(id: RetryId)                             // the task's first step enters its `try`
    | CancelUnstarted(id: RetryId)                   // cancelled before its first step: neither `try` nor `finally`
    | Finish(id: RetryId)                            // the chain ends, times out or is cancelled: the `finally`

  function TaskStep(t: Retries, e: Event, limits: Limits): Retries
  {
    match e
    case Schedule(id, n, bytes) =>
      if id in t.ledger.grants || !Admits(t.ledger, n, bytes, limits) then t
      else t.(ledger := Step(t.ledger, Reserve(id, n, bytes), limits), unstarted := t.unstarted + {id})
    case Start(id) =>
      if id in t.unstarted then t.(unstarted := t.unstarted - {id}, running := t.running + {id}) else t
    case CancelUnstarted(id) =>
      if id in t.unstarted && id in t.ledger.grants
      then t.(unstarted := t.unstarted - {id}, lost := t.lost[id := t.ledger.grants[id]])
      else t
    case Finish(id) =>
      if id in t.running
      then t.(ledger := Step(t.ledger, Release(id), limits), running := t.running - {id})
      else t
  }

  function RunTasks(t: Retries, events: seq<Event>, limits: Limits): Retries
    decreases events
  {
    if events == [] then t else RunTasks(TaskStep(t, events[0], limits), events[1..], limits)
  }

  /** Every outstanding grant belongs to exactly one task that is unstarted, running or lost. */
  ghost predicate TasksInv(t: Retries, limits: Limits)
  {
    && Inv(t.ledger, limits)
    && t.ledger.grants.Keys == t.unstarted + t.running + t.lost.Keys
    && t.unstarted !! t.running && t.unstarted !! t.lost.Keys && t.running !! t.lost.Keys
    && forall id :: id in t.lost ==> t.ledger.grants[id] == t.lost[id]
  }

  lemma ScheduleTasksInv(t: Retries, id: RetryId, n: Name, bytes: nat, limits: Limits)
    requires TasksInv(t, limits) && id !in t.ledger.grants && Admits(t.ledger, n, bytes, limits)
    ensures TasksInv(TaskStep(t, Schedule(id, n, bytes), limits), limits)
  {
    ReserveInv(t.ledger, id, n, bytes, limits);
    assert id !in t.unstarted + t.running + t.lost.Keys;
    var t' := TaskStep(t, Schedule(id, n, bytes), limits);
    assert t'.ledger.grants.Keys == t.ledger.grants.Keys + {id};
  }

  lemma FinishTasksInv(t: Retries, id: RetryId, limits: Limits)
    requires TasksInv(t, limits) && id in t.running
    ensures TasksInv(TaskStep(t, Finish(id), limits), limits)
  {
    assert id in t.ledger.grants.Keys;
    ReleaseInv(t.ledger, id, limits);
    var t' := TaskStep(t, Finish(id), limits);
    assert t'.ledger.grants.Keys == t.ledger.grants.Keys - {id};
  }

  lemma TaskStepInv(t: Retries, e: Event, limits: Limits)
    requires TasksInv(t, limits)
    ensures TasksInv(TaskStep(t, e, limits), limits)
    ensures t.lost.Keys <= TaskStep(t, e, limits).lost.Keys
    ensures forall id :: id in t.lost ==> TaskStep(t, e, limits).lost[id] == t.lost[id]
  {
    match e
    case Schedule(id, n, bytes) =>
      if id !in t.ledger.grants && Admits(t.ledger, n, bytes, limits) {
        ScheduleTasksInv(t, id, n, bytes, limits);
      }
    case Start(id) =>
      if id in t.unstarted {
        assert (t.unstarted - {id}) + (t.running + {id}) == t.unstarted + t.running;
      }
    case CancelUnstarted(id) =>
      if id in t.unstarted {
        assert (t.unstarted - {id}) + t.running + (t.lost.Keys + {id}) == t.unstarted + t.running + t.lost.Keys;
      }
    case Finish(id) =>
      if id in t.running {
        FinishTasksInv(t, id, limits);
      }
  }

  lemma {:induction false} RunTasksInv(t: Retries, events: seq<Event>, limits: Limits)
    requires TasksInv(t, limits)
    ensures TasksInv(RunTasks(t, events, limits), limits)
    ensures t.lost.Keys <= RunTasks(t, events, limits).lost.Keys
    ensures forall id :: id in t.lost ==> RunTasks(t, events, limits).lost[id] == t.lost[id]
    decreases events
  {
    if events != [] {
      TaskStepInv(t, events[0], limits);
      RunTasksInv(TaskStep(t, events[0], limits), events[1..], limits);
    }
  }

  lemma IdleInv(limits: Limits)
    ensures TasksInv(IDLE, limits)
  {
    assert forall n :: Held(EMPTY, n) == Sum(EMPTY.grants, BytesOf(n));
  }

  lemma {:induction false} SumZero(grants: map<RetryId, Grant>)
    ensures Sum(grants, BYTES) == 0 <==> forall id :: id in grants ==> grants[id].bytes == 0
    decreases |grants|
  {
    SumSign(grants, BYTES);
    if grants != map[] {
      var k :| k in grants;
      SumTake(grants, BYTES, k);
      SumSign(grants - {k}, BYTES);
      SumZero(grants - {k});
      forall id | id in grants
        ensures id == k || id in grants - {k}
      {
      }
    }
  }

  /** What the `finally` promises: with no task scheduled or running, nothing is reserved. In every run that holds
      if and only if no granted task with a non-empty body was cancelled before its first step; what is reserved
      is then exactly those tasks' grants, and every subscription's share of it. */
  lemma NothingReservedExactly(events: seq<Event>, limits: Limits)
    requires RunTasks(IDLE, events, limits).unstarted == {} && RunTasks(IDLE, events, limits).running == {}
    ensures var t := RunTasks(IDLE, events, limits);
            && (t.ledger.inflight == 0 <==> forall id :: id in t.lost ==> t.lost[id].bytes == 0)
            && t.ledger.grants == t.lost
            && t.ledger.inflight == Sum(t.lost, BYTES)
            && forall n :: Held(t.ledger, n) == Sum(t.lost, BytesOf(n))
  {
    IdleInv(limits);
    RunTasksInv(IDLE, events, limits);
    var t := RunTasks(IDLE, events, limits);
    assert t.ledger.grants.Keys == t.lost.Keys;
    assert t.ledger.grants == t.lost;
    SumZero(t.lost);
  }

  /** The shortest run that leaks: one task is granted its reservation and cancelled before it starts. */
  lemma CancelledUnstartedLeaks(id: RetryId, n: Name, bytes: nat, limits: Limits)
    requires bytes <= limits.budget && (limits.perSub > 0 ==> bytes <= limits.perSub)
    ensures var t := RunTasks(IDLE, [Schedule(id, n, bytes), CancelUnstarted(id)], limits);
            t.unstarted == {} && t.running == {} && t.lost == map[id := Grant(n, bytes)] && t.ledger.inflight == bytes
  {
    var t1 := TaskStep(IDLE, Schedule(id, n, bytes), limits);
    assert Admits(EMPTY, n, bytes, limits);
    assert t1 == Retries(Ledger(bytes, map[n := bytes], map[id := Grant(n, bytes)]), {id}, {}, map[]);
    var t2 := TaskStep(t1, CancelUnstarted(id), limits);
    assert [Schedule(id, n, bytes), CancelUnstarted(id)][1..] == [CancelUnstarted(id)];
    assert [CancelUnstarted(id)][1..] == [];
    assert RunTasks(t1, [CancelUnstarted(id)], limits) == RunTasks(t2, [], limits);
  }

  /** From a leak on, whatever follows, everybody else shares the budget less the lost grant, and its own
      subscription the per-subscription ceiling less that grant. */
  lemma LeakedGrantShrinksTheBudget(events: seq<Event>, later: seq<Event>, id: RetryId, limits: Limits)
    requires id in RunTasks(IDLE, events, limits).lost
    ensures var leaked := RunTasks(IDLE, events, limits).lost[id];
            var l := RunTasks(RunTasks(IDLE, events, limits), later, limits).ledger;
            && Sum(l.grants - {id}, BYTES) <= limits.budget - leaked.bytes
            && (limits.perSub > 0 ==>
                  Sum(l.grants - {id}, BytesOf(leaked.name)) <= limits.perSub - leaked.bytes)
  {
    IdleInv(limits);
    RunTasksInv(IDLE, events, limits);
    var mid := RunTasks(IDLE, events, limits);
    RunTasksInv(mid, later, limits);
    var t, leaked := RunTasks(mid, later, limits), mid.lost[id];
    assert id in t.lost.Keys && id in t.ledger.grants.Keys;
    SumTake(t.ledger.grants, BYTES, id);
    SumTake(t.ledger.grants, BytesOf(leaked.name), id);
    assert Held(t.ledger, leaked.name) == Sum(t.ledger.grants, BytesOf(leaked.name));
  }

  // ---------- the module globals ----------

  class RetryBytes {
    const limits: Limits
    var inflight: int
    var perSub: map<Name, int>
    ghost var grants: map<RetryId, Grant>

    ghost function View(): Ledger
      reads this
    {
      Ledger(inflight, perSub, grants)
    }

    ghost predicate Valid()
      reads this
    {
      Inv(View(), limits)
    }

    constructor (limits: Limits)
      ensures Valid() && View() == EMPTY && this.limits == limits
    {
      this.limits := limits;
      inflight, perSub, grants := 0, map[], map[];
      new;
      assert forall n :: Held(EMPTY, n) == Sum(EMPTY.grants, BytesOf(n));
    }

    /** The admission check of `deliver`, for retry task `id`, which holds no grant yet. */
    method Reserve(ghost id: RetryId, n: Name, bytes: nat) returns (granted: bool)
      requires Valid() && id !in grants
      modifies this
      ensures Valid()
      ensures granted <==> Fits(old(grants), n, bytes, limits)
      ensures View() == Step(old(View()), Action.Reserve(id, n, bytes), limits)
    {
      var held := if n in perSub then perSub[n] else 0;
      FitsExactly(View(), n, bytes, limits);
      if limits.perSub > 0 && held + bytes > limits.perSub {
        return false;
      }
      if inflight + bytes > limits.budget {
        return false;
      }
      assert Admits(View(), n, bytes, limits);
      ReserveInv(View(), id, n, bytes, limits);
      ghost var after := Step(View(), Action.Reserve(id, n, bytes), limits);
      inflight := inflight + bytes;
      perSub := perSub[n := held + bytes];
      grants := grants[id := Grant(n, bytes)];
      assert View() == after;
      return true;
    }

    /** The `finally` of the retry task that holds this grant. */
    method Release(ghost id: RetryId, n: Name, bytes: nat)
      requires Valid() && id in grants && grants[id] == Grant(n, bytes)
      modifies this
      ensures Valid()
      ensures View() == Step(old(View()), Action.Release(id), limits)
      ensures inflight == old(inflight) - bytes
    {
      ClampsNeverBite(View(), id, limits);
      ReleaseInv(View(), id, limits);
      ghost var after := Step(View(), Action.Release(id), limits);
      inflight := Max0(inflight - bytes);
      var current := if n in perSub then perSub[n] else 0;
      var left := Max0(current - bytes);
      if left == 0 {
        perSub := perSub - {n};
      } else {
        perSub := perSub[n := left];
      }
      grants := grants - {id};
      assert View() == after;
    }
  }
}
