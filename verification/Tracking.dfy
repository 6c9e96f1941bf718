/** The pair of tracking structures that the webhook and continuation runners of the harness both keep: the set of
    tasks in flight and, per name, the set of that name's tasks in flight. Task ids stand for task objects. */
module Tracking {
  type Name = string
  type TaskId = nat

  /** `owner` is the name captured by each task's done-callback; `next` is the id of the next task created. */
  datatype Tracked = Tracked(
    active: set<TaskId>, byName: map<Name, set<TaskId>>, owner: map<TaskId, Name>, next: TaskId)

  const NONE := Tracked({}, map[], map[], 0)

  function InFlight(tr: Tracked, n: Name): set<TaskId>
  {
    if n in tr.byName then tr.byName[n] else {}
  }

  /** A task is created under name n and put into both structures. */
  function Add(tr: Tracked, n: Name): Tracked
  {
    Tracked(tr.active + {tr.next}, tr.byName[n := InFlight(tr, n) + {tr.next}], tr.owner[tr.next := n], tr.next + 1)
  }

  /** The done-callback of task t: discard it everywhere, and drop a per-name set that this empties. */
  function Remove(tr: Tracked, t: TaskId): Tracked
    requires t in tr.owner
  {
    var n := tr.owner[t];
    var left := InFlight(tr, n) - {t};
    tr.(active := tr.active - {t},
    byName := if n !in tr.byName then tr.byName else if left == {} then tr.byName - {n} else tr.byName[n := left])
  }

  /** The per-name sets partition the active set by the name each task was created under. */
  ghost predicate Partition(tr: Tracked)
  {
    && (forall n, t :: t in InFlight(tr, n) ==> t in tr.active && t in tr.owner && tr.owner[t] == n)
    && (forall t :: t in tr.active ==> t in tr.owner && t in InFlight(tr, tr.owner[t]))
  }

  ghost predicate NoEmptySets(tr: Tracked)
  {
    forall n :: n in tr.byName ==> tr.byName[n] != {}
  }

  ghost predicate Sound(tr: Tracked)
  {
    Partition(tr) && forall t :: t in tr.owner ==> t < tr.next
  }

  lemma AddSound(tr: Tracked, n: Name)
    requires Sound(tr)
    ensures Sound(Add(tr, n))
    ensures NoEmptySets(tr) ==> NoEmptySets(Add(tr, n))
    ensures tr.next !in tr.active && tr.next !in InFlight(tr, n)
    ensures forall m :: InFlight(Add(tr, n), m) == InFlight(tr, m) + if m == n then {tr.next} else {}
  {
    assert tr.next !in tr.owner;
    forall m
      ensures InFlight(Add(tr, n), m) == InFlight(tr, m) + if m == n then {tr.next} else {}
      ensures forall t :: t in InFlight(tr, m) ==> t != tr.next
    {
    }
    assert Partition(Add(tr, n));
  }

  lemma RemoveSound(tr: Tracked, t: TaskId)
    requires Sound(tr) && t in tr.active
    ensures Sound(Remove(tr, t))
    ensures NoEmptySets(tr) ==> NoEmptySets(Remove(tr, t))
    ensures forall m :: InFlight(Remove(tr, t), m) == InFlight(tr, m) - {t}
  {
    forall m
      ensures InFlight(Remove(tr, t), m) == InFlight(tr, m) - {t}
    {
      if m != tr.owner[t] {
        assert t !in InFlight(tr, m);
      }
    }
  }

  /** Creating an empty set for a name that has none changes nothing that is in flight. */
  lemma SetDefaultSound(tr: Tracked, n: Name)
    requires Sound(tr)
    ensures Sound(tr.(byName := tr.byName[n := InFlight(tr, n)]))
    ensures forall m :: InFlight(tr.(byName := tr.byName[n := InFlight(tr, n)]), m) == InFlight(tr, m)
  {
    var after := tr.(byName := tr.byName[n := InFlight(tr, n)]);
    assert forall m :: InFlight(after, m) == InFlight(tr, m);
  }
}
