/** The session map of harness/executor.py: an OrderedDict from session id to the time of its last use, least
    recently used first, bounded by MAX_SESSIONS. */
module Sessions {
  import opened Seqs

  /** One use of a session, and one entry of the ordered map. */
  datatype Use = Use(id: string, at: int)

  function Find(order: seq<Use>, id: string): (i: int)
    ensures -1 <= i < |order|
    ensures i >= 0 ==> order[i].id == id
    ensures i < 0 ==> forall j :: 0 <= j < |order| ==> order[j].id != id
  {
    if order == [] then -1
    else if order[0].id == id then 0
    else var i := Find(order[1..], id); if i < 0 then -1 else i + 1
  }

  /** `_track_session`; None is the KeyError of `popitem` on an empty map. */
  function Track(order: seq<Use>, u: Use, max: int): Option<seq<Use>>
  {
    var i := Find(order, u.id);
    if i >= 0 then Some(order[..i] + order[i + 1..] + [u])
    else if |order| < max then Some(order + [u])
    else if order == [] then None
    else Some(order[1..] + [u])
  }

  /** The map after a trace of uses. */
  function Tracked(trace: seq<Use>, max: nat): (order: seq<Use>)
    requires 0 < max
  {
    if trace == [] then []
    else
      var next := Track(Tracked(trace[..|trace| - 1], max), trace[|trace| - 1], max);
      if next.Some? then next.value else []
  }

  predicate UsesId(trace: seq<Use>, id: string)
  {
    exists i :: 0 <= i < |trace| && trace[i].id == id
  }

  /** Reference: the last use of every session in the trace, in the order of those last uses. */
  function LastUses(trace: seq<Use>): seq<Use>
  {
    if trace == [] then []
    else if UsesId(trace[1..], trace[0].id) then LastUses(trace[1..])
    else [trace[0]] + LastUses(trace[1..])
  }

  function Dropped(order: seq<Use>, id: string): seq<Use>
  {
    if order == [] then []
    else (if order[0].id == id then [] else [order[0]]) + Dropped(order[1..], id)
  }

  lemma UsesSnoc(trace: seq<Use>, u: Use, id: string)
    ensures UsesId(trace + [u], id) <==> UsesId(trace, id) || u.id == id
  {
    if UsesId(trace, id) {
      var i :| 0 <= i < |trace| && trace[i].id == id;
      assert (trace + [u])[i].id == id;
    }
    if u.id == id {
      assert (trace + [u])[|trace|].id == id;
    }
  }

  lemma DroppedCons(x: Use, order: seq<Use>, id: string)
    ensures Dropped([x] + order, id) == if x.id == id then Dropped(order, id) else [x] + Dropped(order, id)
  {
    assert ([x] + order)[1..] == order;
  }

  lemma LastUsesCons(x: Use, rest: seq<Use>)
    ensures LastUses([x] + rest) == if UsesId(rest, x.id) then LastUses(rest) else [x] + LastUses(rest)
  {
    assert ([x] + rest)[1..] == rest;
  }

  lemma {:induction false} LastUsesSnoc(trace: seq<Use>, u: Use)
    ensures LastUses(trace + [u]) == Dropped(LastUses(trace), u.id) + [u]
  {
    if trace == [] {
      LastUsesCons(u, []);
      assert [] + [u] == [u] + [];
    } else {
      var x, rest := trace[0], trace[1..];
      LastUsesSnoc(rest, u);
      UsesSnoc(rest, u, x.id);
      LastUsesCons(x, rest);
      LastUsesCons(x, rest + [u]);
      DroppedCons(x, LastUses(rest), u.id);
      Associative([x], rest, [u]);
      Associative([x], Dropped(LastUses(rest), u.id), [u]);
      assert [x] + rest == trace;
    }
  }

  predicate UniqueIds(order: seq<Use>)
  {
    forall i, j :: 0 <= i < j < |order| ==> order[i].id != order[j].id
  }

  lemma UsesCons(x: Use, order: seq<Use>, id: string)
    ensures UsesId([x] + order, id) <==> x.id == id || UsesId(order, id)
  {
    if UsesId(order, id) {
      var i :| 0 <= i < |order| && order[i].id == id;
      assert ([x] + order)[i + 1].id == id;
    }
    if x.id == id {
      assert ([x] + order)[0].id == id;
    }
  }

  /** LastUses lists every session used, once, with a use of the trace. */
  lemma {:induction false} LastUsesUnique(trace: seq<Use>)
    ensures UniqueIds(LastUses(trace))
    ensures forall u :: u in LastUses(trace) ==> u in trace
    ensures forall i :: 0 <= i < |trace| ==> UsesId(LastUses(trace), trace[i].id)
  {
    if trace != [] {
      var rest := trace[1..];
      LastUsesUnique(rest);
      forall i | 0 <= i < |trace|
        ensures UsesId(LastUses(trace), trace[i].id)
      {
        if i > 0 {
          assert UsesId(LastUses(rest), rest[i - 1].id);
        }
        if i == 0 && UsesId(rest, trace[0].id) {
          var j :| 0 <= j < |rest| && rest[j].id == trace[0].id;
          assert UsesId(LastUses(rest), rest[j].id);
        }
        if !UsesId(rest, trace[0].id) {
          UsesCons(trace[0], LastUses(rest), trace[i].id);
        }
      }
      if !UsesId(rest, trace[0].id) {
        forall k | 0 <= k < |LastUses(rest)|
          ensures LastUses(rest)[k].id != trace[0].id
        {
          assert LastUses(rest)[k] in rest;
        }
      }
    }
  }

  /** No later use of the same session. */
  predicate IsLastUse(trace: seq<Use>, i: nat)
    requires i < |trace|
  {
    forall j :: i < j < |trace| ==> trace[j].id != trace[i].id
  }

  lemma IsLastUseCons(x: Use, rest: seq<Use>, i: nat)
    requires i <= |rest|
    ensures IsLastUse([x] + rest, i) <==> if i == 0 then !UsesId(rest, x.id) else IsLastUse(rest, i - 1)
  {
    var trace := [x] + rest;
    forall j | 0 <= j < |rest|
      ensures rest[j] == trace[j + 1]
      ensures IsLastUse(trace, i) && i < j + 1 ==> rest[j].id != trace[i].id
    {
      var next := j + 1;
      assert IsLastUse(trace, i) && i < next ==> trace[next].id != trace[i].id;
    }
  }

  lemma LastUsesAtCons(x: Use, rest: seq<Use>, later: seq<nat>) returns (at: seq<nat>)
    requires Selected(rest, later, LastUses(rest))
    requires forall i :: 0 <= i < |rest| ==> (i in later <==> IsLastUse(rest, i))
    ensures Selected([x] + rest, at, LastUses([x] + rest))
    ensures forall i :: 0 <= i <= |rest| ==> (i in at <==> IsLastUse([x] + rest, i))
  {
    var keep := !UsesId(rest, x.id);
    at := Behind(later, keep);
    LastUsesCons(x, rest);
    SelectedBehind(x, rest, later, LastUses(rest), keep);
    forall i | 0 <= i <= |rest|
      ensures i in at <==> IsLastUse([x] + rest, i)
    {
      IsLastUseCons(x, rest, i);
      BehindIn(later, keep, i);
    }
  }

  /** LastUses without its recursion: in the trace's order, exactly the uses that no later use of the same session
      follows. */
  lemma {:induction false} LastUsesAt(trace: seq<Use>) returns (at: seq<nat>)
    ensures Selected(trace, at, LastUses(trace))
    ensures forall i :: 0 <= i < |trace| ==> (i in at <==> IsLastUse(trace, i))
  {
    if trace == [] {
      at := [];
    } else {
      var later := LastUsesAt(trace[1..]);
      at := LastUsesAtCons(trace[0], trace[1..], later);
      assert trace == [trace[0]] + trace[1..];
    }
  }

  lemma {:induction false} DroppedAbsent(order: seq<Use>, id: string)
    requires Find(order, id) < 0
    ensures Dropped(order, id) == order
  {
    if order != [] {
      DroppedAbsent(order[1..], id);
    }
  }

  lemma {:induction false} DroppedAt(order: seq<Use>, id: string, i: nat)
    requires UniqueIds(order) && i < |order| && order[i].id == id
    ensures Dropped(order, id) == order[..i] + order[i + 1..]
  {
    var rest := order[1..];
    if i == 0 {
      assert Find(rest, id) < 0;
      DroppedAbsent(rest, id);
    } else {
      DroppedAt(rest, id, i - 1);
      assert order[..i] == [order[0]] + rest[..i - 1];
      assert order[i + 1..] == rest[i..];
    }
  }

  lemma CutInside(all: seq<Use>, k: nat, u: Use, max: nat)
    requires 0 < max && k < |all| && |all| - max <= k
    ensures var order := LastN(all, max);
            var i := k - (|all| - |order|);
            LastN(all[..k] + all[k + 1..] + [u], max) == order[..i] + order[i + 1..] + [u]
  {
    var order := LastN(all, max);
    var cut := |all| - |order|;
    var i := k - cut;
    assert all[k + 1..] == order[i + 1..];
    assert all[..k] == all[..cut] + order[..i];
    var after := all[..cut] + (order[..i] + order[i + 1..] + [u]);
    assert all[..k] + all[k + 1..] + [u] == after;
    assert after[cut..] == order[..i] + order[i + 1..] + [u];
  }

  lemma CutBefore(all: seq<Use>, k: nat, u: Use, max: nat)
    requires 0 < max && k < |all| - max
    ensures LastN(all[..k] + all[k + 1..] + [u], max) == LastN(all, max)[1..] + [u]
  {
    var after := all[..k] + all[k + 1..] + [u];
    assert after[|all| - max..] == all[|all| - max + 1..] + [u];
  }

  lemma Appended(all: seq<Use>, u: Use, max: nat)
    requires 0 < max
    ensures LastN(all + [u], max)
            == (if |LastN(all, max)| < max then LastN(all, max) else LastN(all, max)[1..]) + [u]
  {
    if |all| >= max {
      assert (all + [u])[|all| + 1 - max..] == all[|all| + 1 - max..] + [u];
    }
  }

  lemma LastNAt(all: seq<Use>, max: nat, i: nat)
    requires i < |LastN(all, max)|
    ensures LastN(all, max)[i] == all[|all| - |LastN(all, max)| + i]
  {
  }

  /** The session is in the bounded order, at position i. */
  lemma TrackHeld(all: seq<Use>, u: Use, max: nat, i: nat)
    requires 0 < max && UniqueIds(all)
    requires i < |LastN(all, max)| && LastN(all, max)[i].id == u.id
    ensures var order := LastN(all, max);
            LastN(Dropped(all, u.id) + [u], max) == order[..i] + order[i + 1..] + [u]
  {
    var k := |all| - |LastN(all, max)| + i;
    LastNAt(all, max, i);
    DroppedAt(all, u.id, k);
    CutInside(all, k, u, max);
  }

  lemma NotHeld(all: seq<Use>, id: string, max: nat, j: nat)
    requires j < |all| && all[j].id == id && Find(LastN(all, max), id) < 0
    ensures j < |all| - max
  {
    var cut := |all| - |LastN(all, max)|;
    if cut <= j {
      LastNAt(all, max, j - cut);
    }
  }

  /** It is not: it was cut off before, or never used. */
  lemma TrackNew(all: seq<Use>, u: Use, max: nat)
    requires 0 < max && UniqueIds(all) && Find(LastN(all, max), u.id) < 0
    ensures var order := LastN(all, max);
            LastN(Dropped(all, u.id) + [u], max) == (if |order| < max then order else order[1..]) + [u]
  {
    var j := Find(all, u.id);
    if j >= 0 {
      NotHeld(all, u.id, max, j);
      DroppedAt(all, u.id, j);
      CutBefore(all, j, u, max);
    } else {
      DroppedAbsent(all, u.id);
      Appended(all, u, max);
    }
  }

  /** Tracking a use of a bounded suffix is the bounded suffix of the unbounded order. */
  lemma TrackSuffix(all: seq<Use>, u: Use, max: nat)
    requires 0 < max && UniqueIds(all)
    ensures Track(LastN(all, max), u, max) == Some(LastN(Dropped(all, u.id) + [u], max))
  {
    var i := Find(LastN(all, max), u.id);
    if i >= 0 {
      TrackHeld(all, u, max, i);
    } else {
      TrackNew(all, u, max);
    }
  }

  lemma NextInOrder(trace: seq<Use>, init: seq<Use>, u: Use, max: nat)
    requires 0 < max && trace == init + [u] && Tracked(init, max) == LastN(LastUses(init), max)
    ensures Track(Tracked(init, max), u, max) == Some(LastN(LastUses(trace), max))
  {
    LastUsesUnique(init);
    LastUsesSnoc(init, u);
    TrackSuffix(LastUses(init), u, max);
  }

  lemma NextTracked(trace: seq<Use>, max: nat)
    requires 0 < max && trace != []
    requires var init := trace[..|trace| - 1]; Tracked(init, max) == LastN(LastUses(init), max)
    ensures Track(Tracked(trace[..|trace| - 1], max), trace[|trace| - 1], max) == Some(LastN(LastUses(trace), max))
  {
    NextInOrder(trace, trace[..|trace| - 1], trace[|trace| - 1], max);
  }

  /** After any trace the map holds exactly the last min(MAX_SESSIONS, distinct) sessions used, each with its last
      use, in the order of last use; it never raises. */
  lemma {:induction false} TrackedIsRecent(trace: seq<Use>, max: nat)
    requires 0 < max
    ensures Tracked(trace, max) == LastN(LastUses(trace), max)
    ensures trace != [] ==> Track(Tracked(trace[..|trace| - 1], max), trace[|trace| - 1], max).Some?
  {
    if trace != [] {
      TrackedIsRecent(trace[..|trace| - 1], max);
      NextTracked(trace, max);
    }
  }

  /** A smaller map is a suffix of a larger one fed the same trace. */
  lemma SmallerIsSuffix(trace: seq<Use>, small: nat, large: nat)
    requires 0 < small <= large
    ensures IsSuffix(Tracked(trace, small), Tracked(trace, large))
  {
    TrackedIsRecent(trace, small);
    TrackedIsRecent(trace, large);
    LastNOfLastN(LastUses(trace), small, large);
  }

  /** With MAX_SESSIONS not positive the first call raises, and so does every call on the still empty map. */
  lemma NonPositiveBoundRaises(order: seq<Use>, u: Use, max: int)
    ensures Track(order, u, max) == None <==> max <= 0 && order == []
  {
  }

  lemma {:induction false} FindFirst(order: seq<Use>, id: string, i: nat)
    requires i <= |order| && (forall j :: 0 <= j < i ==> order[j].id != id)
    requires i < |order| ==> order[i].id == id
    ensures Find(order, id) == if i < |order| then i else -1
  {
    if order != [] && order[0].id != id {
      assert forall j :: 0 <= j < i - 1 ==> order[1..][j] == order[j + 1];
      FindFirst(order[1..], id, i - 1);
    }
  }

  class SessionMap {
    const max: int
    var entries: seq<Use>

    constructor (max: int)
      ensures entries == [] && this.max == max
    {
      this.max := max;
      entries := [];
    }

    /** The position of a key of the ordered map, or -1. */
    method IndexOf(id: string) returns (i: int)
      ensures i == Find(entries, id)
    {
      i := 0;
      while i < |entries| && entries[i].id != id
        invariant 0 <= i <= |entries|
        invariant forall j :: 0 <= j < i ==> entries[j].id != id
      {
        i := i + 1;
      }
      FindFirst(entries, id, i);
      if i == |entries| {
        i := -1;
      }
    }

    /** `_track_session`; `raised` is the KeyError of popping an empty map. */
    method TrackSession(id: string, now: int) returns (raised: bool)
      modifies this`entries
      ensures raised <==> Track(old(entries), Use(id, now), max) == None
      ensures entries == if raised then old(entries) else Track(old(entries), Use(id, now), max).value
    {
      var i := IndexOf(id);
      if i >= 0 {
        entries := entries[..i] + entries[i + 1..] + [entries[i]];
        entries := entries[|entries| - 1 := Use(id, now)];
        assert entries == old(entries)[..i] + old(entries)[i + 1..] + [Use(id, now)];
        return false;
      }
      if |entries| >= max {
        if entries == [] {
          return true;
        }
        entries := entries[1..];
      }
      entries := entries + [Use(id, now)];
      return false;
    }
  }
}
