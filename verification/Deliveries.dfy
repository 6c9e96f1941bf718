/** Webhook admission of harness/webhooks.py: the two concurrency caps, and the retry tasks that join the tracking
    sets without passing either. */
module Deliveries {
  import opened Sets
  import opened Tracking

  /** A completion delivery may register one retry task; hook.decision deliveries and retries register none. */
  datatype Kind = Completion | HookDecision | Retry

  /** `unspent` is bookkeeping: the completion deliveries in flight that have not registered a retry yet. */
  datatype Runner = Runner(tasks: Tracked, unspent: set<TaskId>)

  const IDLE := Runner(NONE, {})

  datatype Subscription = Subscription(name: Name, maxConcurrent: int)

  datatype Action =
    | Admit(sub: Subscription, kind: Kind)  // one matching, enabled subscription in fire or fire_hook_decision
    | Spawn(t: TaskId)                      // a delivery registers its retry task
    | Done(t: TaskId)                       // the done-callback of a task

  function Create(r: Runner, n: Name, kind: Kind): Runner
  {
    Runner(Add(r.tasks, n), if kind.Completion? then r.unspent + {r.tasks.next} else r.unspent)
  }

  function Step(r: Runner, a: Action, cap: int): Runner
  {
    match a
    case Admit(sub, kind) =>
      if |InFlight(r.tasks, sub.name)| >= sub.maxConcurrent || |r.tasks.active| >= cap || kind.Retry? then r
      else Create(r, sub.name, kind)
    case Spawn(t) =>
      if t in r.unspent && t in r.tasks.owner then
        Create(r.(unspent := r.unspent - {t}), r.tasks.owner[t], Retry)
      else r
    case Done(t) =>
      if t in r.tasks.active && t in r.tasks.owner then Runner(Remove(r.tasks, t), r.unspent - {t}) else r
  }

  function Run(r: Runner, actions: seq<Action>, cap: int): Runner
    decreases actions
  {
    if actions == [] then r else Run(Step(r, actions[0], cap), actions[1..], cap)
  }

  ghost predicate Inv(r: Runner)
  {
    Sound(r.tasks) && NoEmptySets(r.tasks) && r.unspent <= r.tasks.active
  }

  lemma StepInv(r: Runner, a: Action, cap: int)
    requires Inv(r)
    ensures Inv(Step(r, a, cap))
  {
    match a
    case Admit(sub, kind) => AddSound(r.tasks, sub.name);
    case Spawn(t) => if t in r.unspent { AddSound(r.tasks, r.tasks.owner[t]); }
    case Done(t) => if t in r.tasks.active { RemoveSound(r.tasks, t); }
  }

  lemma {:induction false} RunInv(r: Runner, actions: seq<Action>, cap: int)
    requires Inv(r)
    ensures Inv(Run(r, actions, cap))
    decreases actions
  {
    if actions != [] {
      StepInv(r, actions[0], cap);
      RunInv(Step(r, actions[0], cap), actions[1..], cap);
    }
  }

  /** In every reachable state the per-name sets are non-empty and partition the active set by the name each task
      was created under. */
  lemma PerNameSetsPartition(actions: seq<Action>, cap: int)
    ensures Partition(Run(IDLE, actions, cap).tasks)
    ensures NoEmptySets(Run(IDLE, actions, cap).tasks)
  {
    RunInv(IDLE, actions, cap);
  }

  // ---------- what is let in ----------

  /** A delivery is admitted exactly with room: from every state, for both kinds, a matching subscription gets one more
      task, under its own name, if and only if fewer than its own cap are in flight under that name and fewer than the
      global cap at all; otherwise nothing changes. Only a completion delivery may retry. */
  lemma AdmittedExactly(r: Runner, sub: Subscription, kind: Kind, cap: int)
    requires Inv(r) && !kind.Retry?
    ensures var r' := Step(r, Admit(sub, kind), cap);
            var t := r.tasks.next;
            if |InFlight(r.tasks, sub.name)| < sub.maxConcurrent && |r.tasks.active| < cap then
              && r'.tasks.active == r.tasks.active + {t} && |r'.tasks.active| == |r.tasks.active| + 1
              && (forall m :: InFlight(r'.tasks, m) == InFlight(r.tasks, m) + if m == sub.name then {t} else {})
              && |InFlight(r'.tasks, sub.name)| == |InFlight(r.tasks, sub.name)| + 1
              && r'.unspent == r.unspent + if kind == Completion then {t} else {}
            else r' == r
  {
    AddSound(r.tasks, sub.name);
    AddSize(r.tasks.active, r.tasks.next);
    AddSize(InFlight(r.tasks, sub.name), r.tasks.next);
  }

  /** A retry is let in whatever is in flight: the delivery that calls for it, and has not done so before, gets one more
      task under its own name and is not entitled to another. */
  lemma RetryAlwaysRegistered(r: Runner, t: TaskId, cap: int)
    requires Inv(r) && t in r.unspent
    ensures t in r.tasks.owner
    ensures var r' := Step(r, Spawn(t), cap);
            && |r'.tasks.active| == |r.tasks.active| + 1
            && InFlight(r'.tasks, r.tasks.owner[t]) == InFlight(r.tasks, r.tasks.owner[t]) + {r.tasks.next}
            && r'.unspent == r.unspent - {t}
  {
    AddSound(r.tasks, r.tasks.owner[t]);
  }

  /** A finished task leaves the active set and its name's set, and only it does. */
  lemma DoneFreesRoom(r: Runner, t: TaskId, cap: int)
    requires Inv(r) && t in r.tasks.active
    ensures var r' := Step(r, Done(t), cap);
            && r'.tasks.active == r.tasks.active - {t} && |r'.tasks.active| == |r.tasks.active| - 1
            && forall m :: InFlight(r'.tasks, m) == InFlight(r.tasks, m) - {t}
  {
    RemoveSound(r.tasks, t);
  }

  // ---------- the bound ----------

  /** Tasks in flight among `s`, with the ones still entitled to a retry counted twice. */
  function Load(r: Runner, s: set<TaskId>): nat
  {
    |s| + |r.unspent * s|
  }

  function Weight(kind: Kind): nat
  {
    if kind.Completion? then 2 else 1
  }

  lemma EntitledAdds(unspent: set<TaskId>, s: set<TaskId>, x: TaskId)
    requires x !in s && x !in unspent
    ensures unspent * (s + {x}) == unspent * s && (unspent + {x}) * s == unspent * s
    ensures |(unspent + {x}) * (s + {x})| == |unspent * s| + 1
  {
    assert (unspent + {x}) * (s + {x}) == unspent * s + {x};
    AddSize(unspent * s, x);
  }

  lemma CreateLoad(r: Runner, n: Name, kind: Kind, s: set<TaskId>)
    requires r.tasks.next !in s && r.tasks.next !in r.unspent
    ensures Load(Create(r, n, kind), s) == Load(r, s)
    ensures Load(Create(r, n, kind), s + {r.tasks.next}) == Load(r, s) + Weight(kind)
  {
    EntitledAdds(r.unspent, s, r.tasks.next);
    AddSize(s, r.tasks.next);
  }

  /** Below its cap a set leaves room for a task and its retry under twice the cap. */
  lemma AdmittedLoad(r: Runner, s: set<TaskId>, cap: int)
    requires |s| < cap
    ensures Load(r, s) + 2 <= 2 * cap
  {
    SubsetSize(r.unspent * s, s);
  }

  lemma SpendLoad(r: Runner, t: TaskId, s: set<TaskId>)
    requires t in r.unspent
    ensures Load(r.(unspent := r.unspent - {t}), s) == if t in s then Load(r, s) - 1 else Load(r, s)
  {
    assert (r.unspent - {t}) * s == if t in s then r.unspent * s - {t} else r.unspent * s;
  }

  lemma RemoveLoad(r: Runner, t: TaskId, s: set<TaskId>)
    ensures Load(r.(unspent := r.unspent - {t}), s - {t}) <= Load(r, s)
  {
    SubsetSize(s - {t}, s);
    SubsetSize((r.unspent - {t}) * (s - {t}), r.unspent * s);
  }

  /** The sets whose load is bounded: all tasks in flight, or those of one name. */
  datatype Scope = Global | Named(n: Name)

  function Within(r: Runner, scope: Scope): set<TaskId>
  {
    match scope
    case Global => r.tasks.active
    case Named(n) => InFlight(r.tasks, n)
  }

  predicate Covers(scope: Scope, n: Name)
  {
    scope == Global || scope == Named(n)
  }

  lemma CreateWithin(r: Runner, n: Name, kind: Kind, scope: Scope)
    requires Inv(r)
    ensures r.tasks.next !in Within(r, scope) && r.tasks.next !in r.unspent
    ensures Within(Create(r, n, kind), scope)
            == if Covers(scope, n) then Within(r, scope) + {r.tasks.next} else Within(r, scope)
  {
    AddSound(r.tasks, n);
    if scope.Named? {
      AddSound(r.tasks, scope.n);
    }
  }

  lemma CreateScope(r: Runner, n: Name, kind: Kind, scope: Scope)
    requires Inv(r)
    ensures Load(Create(r, n, kind), Within(Create(r, n, kind), scope))
            == Load(r, Within(r, scope)) + if Covers(scope, n) then Weight(kind) else 0
  {
    CreateWithin(r, n, kind, scope);
    CreateLoad(r, n, kind, Within(r, scope));
  }

  lemma SpawnScope(r: Runner, t: TaskId, scope: Scope)
    requires Inv(r) && t in r.unspent
    ensures Load(Step(r, Spawn(t), 0), Within(Step(r, Spawn(t), 0), scope)) == Load(r, Within(r, scope))
  {
    var spent, n := r.(unspent := r.unspent - {t}), r.tasks.owner[t];
    SpendLoad(r, t, Within(r, scope));
    assert t in Within(r, scope) <==> Covers(scope, n);
    CreateScope(spent, n, Retry, scope);
  }

  lemma DoneScope(r: Runner, t: TaskId, scope: Scope)
    requires Inv(r) && t in r.tasks.active
    ensures Load(Step(r, Done(t), 0), Within(Step(r, Done(t), 0), scope)) <= Load(r, Within(r, scope))
  {
    RemoveSound(r.tasks, t);
    RemoveLoad(r, t, Within(r, scope));
    assert Within(Step(r, Done(t), 0), scope) == Within(r, scope) - {t};
  }

  /** The cap that every admission within the scope respects is at most c. */
  predicate CapAtMost(a: Action, cap: int, scope: Scope, c: nat)
  {
    match scope
    case Global => cap <= c
    case Named(n) => a.Admit? && a.sub.name == n ==> a.sub.maxConcurrent <= c
  }

  lemma StepLoad(r: Runner, a: Action, cap: int, scope: Scope, c: nat)
    requires Inv(r) && Load(r, Within(r, scope)) <= 2 * c && CapAtMost(a, cap, scope, c)
    ensures Load(Step(r, a, cap), Within(Step(r, a, cap), scope)) <= 2 * c
  {
    if a.Admit? && Step(r, a, cap) != r {
      if Covers(scope, a.sub.name) {
        AdmittedLoad(r, Within(r, scope), c);
      }
      CreateScope(r, a.sub.name, a.kind, scope);
    } else if a.Spawn? && a.t in r.unspent {
      SpawnScope(r, a.t, scope);
    } else if a.Done? && a.t in r.tasks.active {
      DoneScope(r, a.t, scope);
    }
  }

  lemma {:induction false} RunLoad(r: Runner, actions: seq<Action>, cap: int, scope: Scope, c: nat)
    requires Inv(r) && Load(r, Within(r, scope)) <= 2 * c
    requires forall a :: a in actions ==> CapAtMost(a, cap, scope, c)
    ensures Load(Run(r, actions, cap), Within(Run(r, actions, cap), scope)) <= 2 * c
    decreases actions
  {
    if actions != [] {
      StepLoad(r, actions[0], cap, scope, c);
      StepInv(r, actions[0], cap);
      RunLoad(Step(r, actions[0], cap), actions[1..], cap, scope, c);
    }
  }

  /** Retries bypass the cap, and still no run has more than twice the cap of delivery tasks in flight, even with
      every delivery that could yet register a retry counted once more. */
  lemma TwiceTheCap(actions: seq<Action>, cap: nat)
    ensures var r := Run(IDLE, actions, cap); |r.tasks.active| + |r.unspent| <= 2 * cap
  {
    RunLoad(IDLE, actions, cap, Global, cap);
    RunInv(IDLE, actions, cap);
    var r := Run(IDLE, actions, cap);
    assert r.unspent * r.tasks.active == r.unspent;
  }

  /** Per name as well, for a name whose subscriptions never ask for more than c: at most 2c in flight. */
  lemma TwiceTheCapPerName(actions: seq<Action>, cap: int, n: Name, c: nat)
    requires forall a :: a in actions && a.Admit? && a.sub.name == n ==> a.sub.maxConcurrent <= c
    ensures var r := Run(IDLE, actions, cap);
            |InFlight(r.tasks, n)| + |r.unspent * InFlight(r.tasks, n)| <= 2 * c
  {
    RunLoad(IDLE, actions, cap, Named(n), c);
  }

  // ---------- the bound is reached ----------

  /** The runner after k deliveries were admitted and the first j of them have failed. */
  function AfterFailures(n: Name, cap: nat, k: nat, j: nat): Runner
  {
    if j > 0 then Step(AfterFailures(n, cap, k, j - 1), Spawn(j - 1), cap)
    else if k > 0 then Step(AfterFailures(n, cap, k - 1, 0), Admit(Subscription(n, cap), Completion), cap)
    else IDLE
  }

  function Failures(n: Name, cap: nat, k: nat, j: nat): seq<Action>
  {
    if j > 0 then Failures(n, cap, k, j - 1) + [Spawn(j - 1)]
    else if k > 0 then Failures(n, cap, k - 1, 0) + [Admit(Subscription(n, cap), Completion)]
    else []
  }

  /** k deliveries under name n were admitted and the first j of them have registered a retry; none is done. */
  ghost predicate Flooded(r: Runner, n: Name, k: nat, j: nat)
  {
    && Inv(r)
    && r.tasks.next == |r.tasks.active| == |InFlight(r.tasks, n)| == k + j
    && (forall t :: j <= t < k ==> t in r.unspent && t in r.tasks.owner && r.tasks.owner[t] == n)
  }

  lemma FloodStep(r: Runner, n: Name, cap: nat, i: nat)
    requires Flooded(r, n, i, 0) && i < cap
    ensures Flooded(Step(r, Admit(Subscription(n, cap), Completion), cap), n, i + 1, 0)
  {
    AddSound(r.tasks, n);
  }

  lemma FailureStep(r: Runner, n: Name, cap: nat, j: nat)
    requires Flooded(r, n, cap, j) && j < cap
    ensures Flooded(Step(r, Spawn(j), cap), n, cap, j + 1)
  {
    AddSound(r.tasks, n);
    assert Step(r, Spawn(j), cap) == Create(r.(unspent := r.unspent - {j}), n, Retry);
  }

  lemma {:induction false} FailuresDouble(n: Name, cap: nat, k: nat, j: nat)
    requires j <= k <= cap && (j > 0 ==> k == cap)
    ensures Flooded(AfterFailures(n, cap, k, j), n, k, j)
    decreases k, j
  {
    if j > 0 {
      FailuresDouble(n, cap, k, j - 1);
      FailureStep(AfterFailures(n, cap, k, j - 1), n, cap, j - 1);
    } else if k > 0 {
      FailuresDouble(n, cap, k - 1, 0);
      FloodStep(AfterFailures(n, cap, k - 1, 0), n, cap, k - 1);
    }
  }

  lemma {:induction false} RunSnoc(r: Runner, s: seq<Action>, a: Action, cap: int)
    ensures Run(r, s + [a], cap) == Step(Run(r, s, cap), a, cap)
    decreases s
  {
    if s == [] {
      assert [] + [a] == [a] && [a][1..] == [];
    } else {
      assert (s + [a])[1..] == s[1..] + [a];
      RunSnoc(Step(r, s[0], cap), s[1..], a, cap);
    }
  }

  lemma {:induction false} FailuresAreARun(n: Name, cap: nat, k: nat, j: nat)
    ensures Run(IDLE, Failures(n, cap, k, j), cap) == AfterFailures(n, cap, k, j)
    decreases k, j
  {
    if j > 0 {
      FailuresAreARun(n, cap, k, j - 1);
      RunSnoc(IDLE, Failures(n, cap, k, j - 1), Spawn(j - 1), cap);
    } else if k > 0 {
      FailuresAreARun(n, cap, k - 1, 0);
      RunSnoc(IDLE, Failures(n, cap, k - 1, 0), Admit(Subscription(n, cap), Completion), cap);
    }
  }

  /** Twice the cap is reached: cap deliveries are admitted and each fails and registers its retry before any
      done-callback has run. The configured cap itself is therefore not a bound. */
  lemma TwiceTheCapIsReached(n: Name, cap: nat)
    ensures |Run(IDLE, Failures(n, cap, cap, cap), cap).tasks.active| == 2 * cap
  {
    FailuresDouble(n, cap, cap, cap);
    FailuresAreARun(n, cap, cap, cap);
  }

  // ---------- when the cap itself holds ----------

  /** A delivery that may still register a retry does so while the runner is full. */
  predicate SpawnsAtCap(r: Runner, a: Action, cap: int)
  {
    a.Spawn? && a.t in r.unspent && a.t in r.tasks.owner && |r.tasks.active| == cap
  }

  /** A step keeps the tasks in flight within the cap if and only if it is not a retry registered at the cap. */
  lemma StepWithinCap(r: Runner, a: Action, cap: int)
    requires Inv(r) && |r.tasks.active| <= cap
    ensures |Step(r, a, cap).tasks.active| <= cap <==> !SpawnsAtCap(r, a, cap)
  {
    match a
    case Admit(sub, kind) => if !kind.Retry? { AdmittedExactly(r, sub, kind, cap); }
    case Spawn(t) => if t in r.unspent { RetryAlwaysRegistered(r, t, cap); }
    case Done(t) => if t in r.tasks.active { DoneFreesRoom(r, t, cap); }
  }

  predicate SomeSpawnAtCap(r: Runner, actions: seq<Action>, cap: int)
    decreases actions
  {
    actions != [] && (SpawnsAtCap(r, actions[0], cap) || SomeSpawnAtCap(Step(r, actions[0], cap), actions[1..], cap))
  }

  /** The cap holds in every state of the run. */
  predicate WithinCapThroughout(r: Runner, actions: seq<Action>, cap: int)
    decreases actions
  {
    |r.tasks.active| <= cap && (actions != [] ==> WithinCapThroughout(Step(r, actions[0], cap), actions[1..], cap))
  }

  lemma {:induction false} RunWithinCap(r: Runner, actions: seq<Action>, cap: int)
    requires Inv(r) && |r.tasks.active| <= cap
    ensures WithinCapThroughout(r, actions, cap) <==> !SomeSpawnAtCap(r, actions, cap)
    decreases actions
  {
    if actions != [] {
      StepWithinCap(r, actions[0], cap);
      StepInv(r, actions[0], cap);
      if |Step(r, actions[0], cap).tasks.active| <= cap {
        RunWithinCap(Step(r, actions[0], cap), actions[1..], cap);
      }
    }
  }

  /** The configured cap bounds the tasks in flight throughout a run if and only if no retry is registered while
      that many are in flight. */
  lemma CapHoldsExactly(actions: seq<Action>, cap: nat)
    ensures WithinCapThroughout(IDLE, actions, cap) <==> !SomeSpawnAtCap(IDLE, actions, cap)
  {
    RunWithinCap(IDLE, actions, cap);
  }

  /** Distinct names, each below its own cap, and room for all of them under the global one. */
  ghost predicate RoomForAll(r: Runner, matching: seq<Subscription>, cap: int)
  {
    && |r.tasks.active| + |matching| <= cap
    && (forall i, j :: 0 <= i < j < |matching| ==> matching[i].name != matching[j].name)
    && (forall i :: 0 <= i < |matching| ==> |InFlight(r.tasks, matching[i].name)| < matching[i].maxConcurrent)
  }

  lemma TailHasRoom(r: Runner, next: Runner, matching: seq<Subscription>, cap: int)
    requires matching != [] && RoomForAll(r, matching, cap)
    requires |next.tasks.active| == |r.tasks.active| + 1
    requires forall m :: m != matching[0].name ==> InFlight(next.tasks, m) == InFlight(r.tasks, m)
    ensures RoomForAll(next, matching[1..], cap)
  {
    var rest := matching[1..];
    forall i | 0 <= i < |rest|
      ensures rest[i] == matching[i + 1] && |InFlight(next.tasks, rest[i].name)| < rest[i].maxConcurrent
    {
      assert matching[0].name != matching[i + 1].name;
    }
  }

  lemma OneAdmitted(r: Runner, sub: Subscription, kind: Kind, cap: int)
    requires Inv(r) && !kind.Retry? && |InFlight(r.tasks, sub.name)| < sub.maxConcurrent && |r.tasks.active| < cap
    ensures var next := Step(r, Admit(sub, kind), cap);
            && Inv(next)
            && |next.tasks.active| == |r.tasks.active| + 1
            && |InFlight(next.tasks, sub.name)| == |InFlight(r.tasks, sub.name)| + 1
            && forall m :: m != sub.name ==> InFlight(next.tasks, m) == InFlight(r.tasks, m)
  {
    AdmittedExactly(r, sub, kind, cap);
    StepInv(r, Admit(sub, kind), cap);
  }

  lemma RoomForRest(r: Runner, matching: seq<Subscription>, kind: Kind, cap: int)
    requires Inv(r) && !kind.Retry? && matching != [] && RoomForAll(r, matching, cap)
    ensures var next := Step(r, Admit(matching[0], kind), cap);
            && Inv(next) && RoomForAll(next, matching[1..], cap)
            && |next.tasks.active| == |r.tasks.active| + 1
            && |InFlight(next.tasks, matching[0].name)| == |InFlight(r.tasks, matching[0].name)| + 1
            && forall m :: m != matching[0].name ==> InFlight(next.tasks, m) == InFlight(r.tasks, m)
  {
    OneAdmitted(r, matching[0], kind, cap);
    TailHasRoom(r, Step(r, Admit(matching[0], kind), cap), matching, cap);
  }

  /** The admissions of one fire call, in subscription order. */
  function AdmitEach(matching: seq<Subscription>, kind: Kind): seq<Action>
  {
    if matching == [] then [] else [Admit(matching[0], kind)] + AdmitEach(matching[1..], kind)
  }

  lemma AdmitCons(r: Runner, matching: seq<Subscription>, kind: Kind, cap: int)
    requires matching != []
    ensures Run(r, AdmitEach(matching, kind), cap)
            == Run(Step(r, Admit(matching[0], kind), cap), AdmitEach(matching[1..], kind), cap)
  {
    assert AdmitEach(matching, kind)[1..] == AdmitEach(matching[1..], kind);
  }

  lemma {:induction false} OthersUntouched(r: Runner, matching: seq<Subscription>, kind: Kind, cap: int, m: Name)
    requires Inv(r) && !kind.Retry? && RoomForAll(r, matching, cap)
    requires forall i :: 0 <= i < |matching| ==> matching[i].name != m
    ensures InFlight(Run(r, AdmitEach(matching, kind), cap).tasks, m) == InFlight(r.tasks, m)
    decreases matching
  {
    if matching != [] {
      RoomForRest(r, matching, kind, cap);
      AdmitCons(r, matching, kind, cap);
      assert matching[0].name != m;
      OthersUntouched(Step(r, Admit(matching[0], kind), cap), matching[1..], kind, cap, m);
    }
  }

  /** With room for all of them, every subscription of a fire call gets its task, ... */
  lemma {:induction false} AllAdmitted(r: Runner, matching: seq<Subscription>, kind: Kind, cap: int)
    requires Inv(r) && !kind.Retry? && RoomForAll(r, matching, cap)
    ensures |Run(r, AdmitEach(matching, kind), cap).tasks.active| == |r.tasks.active| + |matching|
    decreases matching
  {
    if matching != [] {
      RoomForRest(r, matching, kind, cap);
      AdmitCons(r, matching, kind, cap);
      AllAdmitted(Step(r, Admit(matching[0], kind), cap), matching[1..], kind, cap);
    }
  }

  /** ... one more under each of their names. */
  lemma {:induction false} EachAdmitted(r: Runner, matching: seq<Subscription>, kind: Kind, cap: int, i: nat)
    requires Inv(r) && !kind.Retry? && RoomForAll(r, matching, cap) && i < |matching|
    ensures |InFlight(Run(r, AdmitEach(matching, kind), cap).tasks, matching[i].name)|
            == |InFlight(r.tasks, matching[i].name)| + 1
    decreases matching
  {
    var next, rest := Step(r, Admit(matching[0], kind), cap), matching[1..];
    RoomForRest(r, matching, kind, cap);
    AdmitCons(r, matching, kind, cap);
    if i == 0 {
      assert forall j :: 0 <= j < |rest| ==> rest[j].name == matching[j + 1].name;
      OthersUntouched(next, rest, kind, cap, matching[0].name);
    } else {
      assert rest[i - 1] == matching[i];
      EachAdmitted(next, rest, kind, cap, i - 1);
    }
  }

  // ---------- the runner ----------

  class WebhookRunner {
    const cap: int
    var active: set<TaskId>
    var byName: map<Name, set<TaskId>>
    var owner: map<TaskId, Name>
    var next: TaskId
    ghost var unspent: set<TaskId>

    ghost function View(): Runner
      reads this
    {
      Runner(Tracked(active, byName, owner, next), unspent)
    }

    constructor (cap: int)
      ensures View() == IDLE && this.cap == cap
    {
      this.cap := cap;
      active, byName, owner, next, unspent := {}, map[], map[], 0, {};
    }

    /** Create a task and add it to both tracking sets. */
    method Register(n: Name, kind: Kind)
      modifies this
      ensures View() == Create(old(View()), n, kind)
    {
      var t := next;
      next := next + 1;
      owner := owner[t := n];
      active := active + {t};
      var deliveries := if n in byName then byName[n] else {};
      byName := byName[n := deliveries + {t}];
      if kind.Completion? {
        unspent := unspent + {t};
      }
    }

    /** fire (kind Completion) and fire_hook_decision (kind HookDecision) over the subscriptions that match. */
    method Fire(matching: seq<Subscription>, kind: Kind)
      requires !kind.Retry?
      modifies this
      ensures View() == Run(old(View()), AdmitEach(matching, kind), cap)
      ensures Inv(old(View())) && RoomForAll(old(View()), matching, cap) ==> |active| == |old(active)| + |matching|
    {
      if Inv(View()) && RoomForAll(View(), matching, cap) {
        AllAdmitted(View(), matching, kind, cap);
      }
      var i := 0;
      while i < |matching|
        invariant i <= |matching|
        invariant Run(old(View()), AdmitEach(matching, kind), cap) == Run(View(), AdmitEach(matching[i..], kind), cap)
      {
        var sub := matching[i];
        AdmitCons(View(), matching[i..], kind, cap);
        i := i + 1;
        var deliveries := if sub.name in byName then byName[sub.name] else {};
        if |deliveries| >= sub.maxConcurrent {
          continue;
        }
        if |active| >= cap {
          continue;
        }
        Register(sub.name, kind);
      }
    }

    /** on_retry_task, called by delivery t, which calls it at most once. */
    method OnRetryTask(t: TaskId)
      requires t in unspent && t in owner
      modifies this
      ensures View() == Step(old(View()), Spawn(t), cap)
    {
      unspent := unspent - {t};
      Register(owner[t], Retry);
    }

    /** The done-callback bound to task t. */
    method Cleanup(t: TaskId)
      requires t in active && t in owner
      modifies this
      ensures View() == Step(old(View()), Done(t), cap)
    {
      var n := owner[t];
      active := active - {t};
      unspent := unspent - {t};
      if n in byName {
        var deliveries := byName[n] - {t};
        byName := if deliveries == {} then byName - {n} else byName[n := deliveries];
      }
    }
  }
}
