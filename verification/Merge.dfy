/** The merge tail of harness/conversations_proxy.py: entries from several backends are deduplicated, sorted by
    timestamp and cut to a limit that was also pushed down to each backend. */
module Merge {
  import opened Seqs
  import opened Sets

  type Key = (int, string)

  /** `rank` is the position of the entry's `_ts_sort_key` in the order of strings; `id` stands for the components of
      its dedup tuple; `body` is the rest of it. The tuple contains the timestamp, so it determines the rank. */
  datatype Entry = Entry(rank: int, id: string, body: string)
  {
    function Key(): Key
    {
      (rank, id)
    }
  }

  /** A backend's answer, or None if it was unreachable or did not return a list. */
  type Answer = Option<seq<Entry>>

  function Listed(a: Answer): seq<Entry>
  {
    if a.Some? then a.value else []
  }

  function Concat(answers: seq<Answer>): seq<Entry>
  {
    if answers == [] then [] else Concat(answers[..|answers| - 1]) + Listed(answers[|answers| - 1])
  }

  function Keys(s: seq<Entry>): set<Key>
  {
    set e | e in s :: e.Key()
  }

  /** First occurrences by dedup key, of keys not seen before. */
  function DedupFrom(seen: set<Key>, s: seq<Entry>): seq<Entry>
    decreases s
  {
    if s == [] then []
    else if s[0].Key() in seen then DedupFrom(seen, s[1..])
    else [s[0]] + DedupFrom(seen + {s[0].Key()}, s[1..])
  }

  function Dedup(s: seq<Entry>): seq<Entry>
  {
    DedupFrom({}, s)
  }

  /** No earlier entry has its key, and it was not seen before. */
  predicate IsNew(seen: set<Key>, s: seq<Entry>, i: nat)
    requires i < |s|
  {
    s[i].Key() !in seen && forall j :: 0 <= j < i ==> s[j].Key() != s[i].Key()
  }

  lemma IsNewCons(seen: set<Key>, x: Entry, rest: seq<Entry>, i: nat)
    requires i <= |rest|
    ensures IsNew(seen, [x] + rest, i)
            <==> if i == 0 then x.Key() !in seen else IsNew(seen + {x.Key()}, rest, i - 1)
  {
    var s := [x] + rest;
    forall j | 0 <= j < |rest|
      ensures rest[j] == s[j + 1]
      ensures IsNew(seen, s, i) && j + 1 < i ==> rest[j].Key() != s[i].Key()
    {
      var next := j + 1;
      assert IsNew(seen, s, i) && next < i ==> s[next].Key() != s[i].Key();
    }
    if i > 0 {
      assert s[i] == rest[i - 1] && s[0] == x;
      assert IsNew(seen, s, i) ==> s[0].Key() != s[i].Key();
    }
  }

  lemma {:induction false} DedupFromAt(seen: set<Key>, s: seq<Entry>) returns (at: seq<nat>)
    ensures Selected(s, at, DedupFrom(seen, s))
    ensures forall i :: 0 <= i < |s| ==> (i in at <==> IsNew(seen, s, i))
    decreases s
  {
    if s == [] {
      at := [];
    } else {
      var x, rest := s[0], s[1..];
      var more := DedupFromAt(seen + {x.Key()}, rest);
      var keep := x.Key() !in seen;
      at := Behind(more, keep);
      assert s == [x] + rest;
      assert !keep ==> seen + {x.Key()} == seen;
      SelectedBehind(x, rest, more, DedupFrom(seen + {x.Key()}, rest), keep);
      forall i | 0 <= i < |s|
        ensures i in at <==> IsNew(seen, s, i)
      {
        IsNewCons(seen, x, rest, i);
        BehindIn(more, keep, i);
      }
    }
  }

  // ---------- stable sorting ----------

  /** Put x after every element that does not rank above it. */
  function Insert(t: seq<Entry>, x: Entry): seq<Entry>
  {
    if t == [] || t[|t| - 1].rank <= x.rank then t + [x]
    else Insert(t[..|t| - 1], x) + [t[|t| - 1]]
  }

  function StableSort(s: seq<Entry>): seq<Entry>
  {
    if s == [] then [] else Insert(StableSort(s[..|s| - 1]), s[|s| - 1])
  }

  predicate Ascending(s: seq<Entry>)
  {
    forall i, j :: 0 <= i < j < |s| ==> s[i].rank <= s[j].rank
  }

  /** The elements of one rank, in order. */
  function OfRank(s: seq<Entry>, rank: int): seq<Entry>
  {
    if s == [] then []
    else
      var init, last := s[..|s| - 1], s[|s| - 1];
      if last.rank == rank then OfRank(init, rank) + [last] else OfRank(init, rank)
  }

  /** What a stable sort is: ascending, and for each rank the same elements in the same order. */
  ghost predicate IsStableSortOf(t: seq<Entry>, s: seq<Entry>)
  {
    Ascending(t) && forall rank :: OfRank(t, rank) == OfRank(s, rank)
  }

  lemma InitOf(a: seq<Entry>, x: Entry)
    ensures (a + [x])[..|a + [x]| - 1] == a
  {
  }

  lemma OfRankSnoc(s: seq<Entry>, x: Entry, rank: int)
    ensures OfRank(s + [x], rank) == if x.rank == rank then OfRank(s, rank) + [x] else OfRank(s, rank)
  {
    InitOf(s, x);
  }

  lemma {:induction false} InsertShape(t: seq<Entry>, x: Entry)
    requires Ascending(t)
    ensures Ascending(Insert(t, x))
    ensures forall y :: y in Insert(t, x) ==> y in t || y == x
  {
    if t != [] && t[|t| - 1].rank > x.rank {
      var init, last := t[..|t| - 1], t[|t| - 1];
      InsertShape(init, x);
      forall y | y in Insert(init, x)
        ensures y.rank <= last.rank
      {
      }
    }
  }

  lemma {:induction false} InsertRank(t: seq<Entry>, x: Entry, rank: int)
    ensures OfRank(Insert(t, x), rank) == if x.rank == rank then OfRank(t, rank) + [x] else OfRank(t, rank)
  {
    if t == [] || t[|t| - 1].rank <= x.rank {
      OfRankSnoc(t, x, rank);
    } else {
      InsertRank(t[..|t| - 1], x, rank);
      OfRankSnoc(Insert(t[..|t| - 1], x), t[|t| - 1], rank);
    }
  }

  lemma {:induction false} SortIsStable(s: seq<Entry>)
    ensures IsStableSortOf(StableSort(s), s)
  {
    if s != [] {
      var sorted := StableSort(s[..|s| - 1]);
      SortIsStable(s[..|s| - 1]);
      InsertShape(sorted, s[|s| - 1]);
      forall rank
        ensures OfRank(StableSort(s), rank) == OfRank(s, rank)
      {
        InsertRank(sorted, s[|s| - 1], rank);
      }
    }
  }

  lemma {:induction false} RankPresent(s: seq<Entry>, rank: int)
    ensures OfRank(s, rank) != [] <==> exists i :: 0 <= i < |s| && s[i].rank == rank
  {
    if s != [] {
      var init := s[..|s| - 1];
      RankPresent(init, rank);
      if exists i :: 0 <= i < |init| && init[i].rank == rank {
        var i :| 0 <= i < |init| && init[i].rank == rank;
        assert s[i].rank == rank;
      }
      if exists i :: 0 <= i < |s| && s[i].rank == rank {
        var i :| 0 <= i < |s| && s[i].rank == rank;
        assert i < |init| ==> init[i].rank == rank;
      }
    }
  }

  lemma SameEnds(a: seq<Entry>, x: Entry, b: seq<Entry>, y: Entry)
    requires a + [x] == b + [y]
    ensures a == b && x == y
  {
    assert (a + [x])[..|a|] == a && (b + [y])[..|b|] == b;
    assert (a + [x])[|a|] == x && (b + [y])[|b|] == y;
  }

  /** Lists with the same elements of each rank, whose last elements have the same rank. */
  lemma SameLast(t: seq<Entry>, x: Entry, u: seq<Entry>, y: Entry)
    requires x.rank == y.rank && forall rank :: OfRank(t + [x], rank) == OfRank(u + [y], rank)
    ensures x == y && forall rank :: OfRank(t, rank) == OfRank(u, rank)
  {
    forall rank
      ensures OfRank(t, rank) == OfRank(u, rank)
      ensures rank == x.rank ==> x == y
    {
      assert OfRank(t + [x], rank) == OfRank(u + [y], rank);
      OfRankSnoc(t, x, rank);
      OfRankSnoc(u, y, rank);
      if rank == x.rank {
        SameEnds(OfRank(t, rank), x, OfRank(u, rank), y);
      }
    }
  }

  lemma LastRankHighest(t: seq<Entry>, u: seq<Entry>)
    requires Ascending(t) && t != [] && u != [] && forall rank :: OfRank(t, rank) == OfRank(u, rank)
    ensures u[|u| - 1].rank <= t[|t| - 1].rank
  {
    var rank := u[|u| - 1].rank;
    assert OfRank(u, rank) != [];
    assert OfRank(t, rank) == OfRank(u, rank);
    RankPresent(t, rank);
    var i :| 0 <= i < |t| && t[i].rank == rank;
    assert i < |t| - 1 ==> t[i].rank <= t[|t| - 1].rank;
  }

  lemma NoRanksNoElements(u: seq<Entry>)
    requires forall rank :: OfRank(u, rank) == OfRank([], rank)
    ensures u == []
  {
    if u != [] {
      RankPresent(u, u[0].rank);
      RankPresent([], u[0].rank);
    }
  }

  /** There is only one stable sort of a list. */
  lemma {:induction false} StableSortUnique(t: seq<Entry>, u: seq<Entry>)
    requires Ascending(t) && Ascending(u) && forall rank :: OfRank(t, rank) == OfRank(u, rank)
    ensures t == u
  {
    if t == [] {
      NoRanksNoElements(u);
    } else if u == [] {
      NoRanksNoElements(t);
    } else {
      var t', x, u', y := t[..|t| - 1], t[|t| - 1], u[..|u| - 1], u[|u| - 1];
      LastRankHighest(t, u);
      LastRankHighest(u, t);
      assert t == t' + [x] && u == u' + [y];
      SameLast(t', x, u', y);
      StableSortUnique(t', u');
    }
  }

  // ---------- limit pushdown ----------

  /** The merged answer: dedup, sort, cut. */
  function Merged(answers: seq<Answer>, limit: Option<int>): seq<Entry>
  {
    var all := StableSort(Dedup(Concat(answers)));
    if limit.Some? then TailSlice(all, limit.value) else all
  }

  /** The merged answer without its helpers: of the listed rows the first of each timestamp and id, in order, then
      stably sorted; with a positive limit the last rows of that. */
  lemma MergedExactly(answers: seq<Answer>, limit: Option<int>) returns (at: seq<nat>, first: seq<Entry>)
    ensures Selected(Concat(answers), at, first)
    ensures var rows := Concat(answers);
            forall i :: 0 <= i < |rows| ==>
              (i in at <==> forall j :: 0 <= j < i ==> rows[j].rank != rows[i].rank || rows[j].id != rows[i].id)
    ensures var all := Merged(answers, None);
            && IsStableSortOf(all, first)
            && (limit.Some? && limit.value > 0 ==>
                  Merged(answers, limit) == if limit.value < |all| then all[|all| - limit.value..] else all)
  {
    at := DedupFromAt({}, Concat(answers));
    first := Dedup(Concat(answers));
    SortIsStable(first);
  }

  lemma {:induction false} ConcatCons(a: Answer, rest: seq<Answer>)
    ensures Concat([a] + rest) == (if a.Some? then a.value else []) + Concat(rest)
    decreases rest
  {
    if rest == [] {
      assert [a] + rest == [a] && [a][..0] == [];
    } else {
      var init, last := rest[..|rest| - 1], rest[|rest| - 1];
      assert ([a] + rest)[..|[a] + rest| - 1] == [a] + init;
      ConcatCons(a, init);
      Associative(Listed(a), Concat(init), Listed(last));
    }
  }

  /** What the backends return when asked for their last `limit` entries. */
  function Pushed(answers: seq<Answer>, limit: nat): seq<Answer>
  {
    if answers == [] then []
    else
      var last := answers[|answers| - 1];
      Pushed(answers[..|answers| - 1], limit)
      + [if last.Some? then Some(LastN(last.value, limit)) else None]
  }

  lemma {:induction false} InsertLength(t: seq<Entry>, x: Entry)
    ensures |Insert(t, x)| == |t| + 1
  {
    if t != [] && t[|t| - 1].rank > x.rank {
      InsertLength(t[..|t| - 1], x);
    }
  }

  lemma InitOfConcat(a: seq<Entry>, b: seq<Entry>)
    requires b != []
    ensures a + b != []
    ensures (a + b)[..|a + b| - 1] == a + b[..|b| - 1] && (a + b)[|a + b| - 1] == b[|b| - 1]
  {
  }

  /** An insertion into a + b whose element does not rank below the last of a lands in b, ... */
  lemma {:induction false} InsertRight(a: seq<Entry>, b: seq<Entry>, x: Entry)
    requires a == [] || a[|a| - 1].rank <= x.rank
    ensures Insert(a + b, x) == a + Insert(b, x)
    decreases |b|
  {
    if b == [] {
      assert a + b == a;
      assert Insert(b, x) == [x];
    } else {
      InitOfConcat(a, b);
      if b[|b| - 1].rank <= x.rank {
        Associative(a, b, [x]);
      } else {
        InsertRight(a, b[..|b| - 1], x);
        Associative(a, Insert(b[..|b| - 1], x), [b[|b| - 1]]);
      }
    }
  }

  /** ... and one whose element ranks below all of b lands in a. */
  lemma {:induction false} InsertLeft(a: seq<Entry>, b: seq<Entry>, x: Entry)
    requires forall i :: 0 <= i < |b| ==> x.rank < b[i].rank
    ensures Insert(a + b, x) == Insert(a, x) + b
    decreases |b|
  {
    if b == [] {
      assert a + b == a && Insert(a, x) + b == Insert(a, x);
    } else {
      var init, last := b[..|b| - 1], b[|b| - 1];
      InitOfConcat(a, b);
      InsertLeft(a, init, x);
      Associative(Insert(a, x), init, [last]);
      assert init + [last] == b;
    }
  }

  /** How many elements rank at least `lo`. */
  function AtLeast(s: seq<Entry>, lo: int): (n: nat)
    ensures n <= |s|
  {
    if s == [] then 0 else AtLeast(s[..|s| - 1], lo) + if s[|s| - 1].rank >= lo then 1 else 0
  }

  lemma {:induction false} AtLeastConcat(a: seq<Entry>, b: seq<Entry>, lo: int)
    ensures AtLeast(a + b, lo) == AtLeast(a, lo) + AtLeast(b, lo)
    decreases |b|
  {
    if b == [] {
      assert a + b == a;
    } else {
      InitOfConcat(a, b);
      AtLeastConcat(a, b[..|b| - 1], lo);
    }
  }

  lemma {:induction false} AtLeastFalls(s: seq<Entry>, lo: int, higher: int)
    requires lo <= higher
    ensures AtLeast(s, higher) <= AtLeast(s, lo)
  {
    if s != [] {
      AtLeastFalls(s[..|s| - 1], lo, higher);
    }
  }

  lemma {:induction false} AtLeastInsert(t: seq<Entry>, x: Entry, lo: int)
    ensures AtLeast(Insert(t, x), lo) == AtLeast(t, lo) + if x.rank >= lo then 1 else 0
  {
    if t == [] || t[|t| - 1].rank <= x.rank {
      InitOf(t, x);
    } else {
      AtLeastInsert(t[..|t| - 1], x, lo);
      InitOf(Insert(t[..|t| - 1], x), t[|t| - 1]);
    }
  }

  lemma {:induction false} AtLeastSorted(s: seq<Entry>, lo: int)
    ensures AtLeast(StableSort(s), lo) == AtLeast(s, lo)
  {
    if s != [] {
      AtLeastSorted(s[..|s| - 1], lo);
      AtLeastInsert(StableSort(s[..|s| - 1]), s[|s| - 1], lo);
    }
  }

  lemma {:induction false} NoneAtLeast(s: seq<Entry>, lo: int)
    requires forall i :: 0 <= i < |s| ==> s[i].rank < lo
    ensures AtLeast(s, lo) == 0
  {
    if s != [] {
      NoneAtLeast(s[..|s| - 1], lo);
    }
  }

  lemma {:induction false} InsertAt(t: seq<Entry>, x: Entry) returns (a: seq<Entry>, b: seq<Entry>)
    requires Ascending(t)
    ensures t == a + b && Insert(t, x) == a + [x] + b
    ensures forall i :: 0 <= i < |a| ==> a[i].rank <= x.rank
    ensures forall i :: 0 <= i < |b| ==> x.rank < b[i].rank
  {
    if t == [] || t[|t| - 1].rank <= x.rank {
      a, b := t, [];
    } else {
      a, b := InsertAt(t[..|t| - 1], x);
      b := b + [t[|t| - 1]];
    }
  }

  lemma {:induction false} InsertedRanks(t: seq<Entry>, x: Entry)
    ensures forall y :: y in Insert(t, x) ==> y in t || y == x
  {
    if t != [] && t[|t| - 1].rank > x.rank {
      InsertedRanks(t[..|t| - 1], x);
    }
  }

  lemma InsertBehind(a: seq<Entry>, x: Entry, b: seq<Entry>, l: Entry)
    requires x.rank <= l.rank && forall i :: 0 <= i < |a| ==> a[i].rank <= x.rank
    ensures Insert(a + b, l) == a + Insert(b, l)
    ensures Insert(a + [x] + b, l) == a + [x] + Insert(b, l)
  {
    InsertRight(a, b, l);
    InsertRight(a + [x], b, l);
  }

  lemma InsertAhead(a: seq<Entry>, x: Entry, b: seq<Entry>, l: Entry)
    requires l.rank < x.rank && forall i :: 0 <= i < |b| ==> x.rank <= b[i].rank
    ensures Insert(a + b, l) == Insert(a, l) + b
    ensures Insert(a + [x] + b, l) == Insert(a, l) + [x] + b
  {
    InsertLeft(a, b, l);
    InsertLeft(a, [x] + b, l);
    Associative(a, [x], b);
    Associative(Insert(a, l), [x], b);
  }

  lemma SortSnoc(s: seq<Entry>, q: seq<Entry>)
    requires q != []
    ensures StableSort(s + q) == Insert(StableSort(s + q[..|q| - 1]), q[|q| - 1])
  {
    InitOfConcat(s, q);
  }

  lemma SortWithLast(p: seq<Entry>, x: Entry) returns (a: seq<Entry>, b: seq<Entry>)
    ensures StableSort(p) == a + b && StableSort(p + [x]) == a + [x] + b
    ensures forall i :: 0 <= i < |a| ==> a[i].rank <= x.rank
    ensures forall i :: 0 <= i < |b| ==> x.rank <= b[i].rank
    ensures |b| >= AtLeast(p, x.rank + 1)
  {
    InitOf(p, x);
    SortIsStable(p);
    a, b := InsertAt(StableSort(p), x);
    AtLeastSorted(p, x.rank + 1);
    AtLeastConcat(a, b, x.rank + 1);
    NoneAtLeast(a, x.rank + 1);
  }

  /** One more insertion around x. */
  lemma InsertAround(a0: seq<Entry>, x: Entry, b0: seq<Entry>, l: Entry) returns (a: seq<Entry>, b: seq<Entry>)
    requires forall i :: 0 <= i < |a0| ==> a0[i].rank <= x.rank
    requires forall i :: 0 <= i < |b0| ==> x.rank <= b0[i].rank
    ensures Insert(a0 + b0, l) == a + b && Insert(a0 + [x] + b0, l) == a + [x] + b
    ensures forall i :: 0 <= i < |a| ==> a[i].rank <= x.rank
    ensures forall i :: 0 <= i < |b| ==> x.rank <= b[i].rank
    ensures |b| == |b0| + if l.rank >= x.rank then 1 else 0
  {
    if x.rank <= l.rank {
      InsertBehind(a0, x, b0, l);
      InsertLength(b0, l);
      InsertedRanks(b0, l);
      a, b := a0, Insert(b0, l);
      assert forall i :: 0 <= i < |b| ==> b[i] in b;
    } else {
      InsertAhead(a0, x, b0, l);
      InsertedRanks(a0, l);
      a, b := Insert(a0, l), b0;
      assert forall i :: 0 <= i < |a| ==> a[i] in a;
    }
  }

  /** Sorting with and without x between p and q: the rest of the order does not notice it, and behind x come all
      elements of p that rank above it and all of q that do not rank below it. */
  lemma {:induction false} SortWith(p: seq<Entry>, x: Entry, q: seq<Entry>) returns (a: seq<Entry>, b: seq<Entry>)
    ensures StableSort(p + q) == a + b
    ensures StableSort(p + [x] + q) == a + [x] + b
    ensures forall i :: 0 <= i < |a| ==> a[i].rank <= x.rank
    ensures forall i :: 0 <= i < |b| ==> x.rank <= b[i].rank
    ensures |b| >= AtLeast(p, x.rank + 1) + AtLeast(q, x.rank)
    decreases |q|
  {
    if q == [] {
      AppendNothing(p);
      AppendNothing(p + [x]);
      a, b := SortWithLast(p, x);
    } else {
      var a0, b0 := SortWith(p, x, q[..|q| - 1]);
      SortSnoc(p, q);
      SortSnoc(p + [x], q);
      a, b := InsertAround(a0, x, b0, q[|q| - 1]);
    }
  }

  /** An element with n others ahead of it is not among the top n. */
  lemma OneRowOut(p: seq<Entry>, x: Entry, q: seq<Entry>, n: nat)
    requires n <= AtLeast(p, x.rank + 1) + AtLeast(q, x.rank)
    ensures LastN(StableSort(p + [x] + q), n) == LastN(StableSort(p + q), n)
  {
    var a, b := SortWith(p, x, q);
    LastNConcat(a, b, n);
    LastNConcat(a + [x], b, n);
  }

  predicate DistinctKeys(s: seq<Entry>)
  {
    forall i, j :: 0 <= i < j < |s| ==> s[i].Key() != s[j].Key()
  }

  lemma KeysConcat(a: seq<Entry>, b: seq<Entry>)
    ensures Keys(a + b) == Keys(a) + Keys(b)
  {
    forall k | k in Keys(a) + Keys(b)
      ensures k in Keys(a + b)
    {
      var e :| (e in a || e in b) && e.Key() == k;
      assert e in a + b;
    }
  }

  lemma DistinctConcat(a: seq<Entry>, b: seq<Entry>)
    ensures DistinctKeys(a + b) <==> DistinctKeys(a) && DistinctKeys(b) && Keys(a) !! Keys(b)
  {
    var s := a + b;
    if DistinctKeys(s) {
      forall i, j | 0 <= i < |a| && 0 <= j < |b|
        ensures a[i].Key() != b[j].Key()
      {
        assert s[i] == a[i] && s[|a| + j] == b[j];
      }
      forall i, j | 0 <= i < j < |b|
        ensures b[i].Key() != b[j].Key()
      {
        assert s[|a| + i] == b[i] && s[|a| + j] == b[j];
      }
      assert forall i, j :: 0 <= i < j < |a| ==> s[i] == a[i] && s[j] == a[j];
    }
    if DistinctKeys(a) && DistinctKeys(b) && Keys(a) !! Keys(b) {
      forall i, j | 0 <= i < j < |s|
        ensures s[i].Key() != s[j].Key()
      {
        assert i < |a| ==> a[i].Key() in Keys(a);
        assert j >= |a| ==> b[j - |a|].Key() in Keys(b);
      }
    }
  }

  // ---------- dedup ----------

  lemma {:induction false} DedupKeys(seen: set<Key>, s: seq<Entry>)
    ensures Keys(DedupFrom(seen, s)) == Keys(s) - seen
    ensures forall e :: e in DedupFrom(seen, s) ==> e in s
    decreases s
  {
    if s != [] {
      var k, rest := s[0].Key(), s[1..];
      assert s == [s[0]] + rest;
      KeysConcat([s[0]], rest);
      assert s[0] in [s[0]];
      if k in seen {
        DedupKeys(seen, rest);
      } else {
        DedupKeys(seen + {k}, rest);
        KeysConcat([s[0]], DedupFrom(seen + {k}, rest));
      }
    }
  }

  lemma {:induction false} DedupConcat(seen: set<Key>, a: seq<Entry>, b: seq<Entry>)
    ensures DedupFrom(seen, a + b) == DedupFrom(seen, a) + DedupFrom(seen + Keys(a), b)
    decreases a
  {
    if a == [] {
      assert a + b == b && seen + Keys(a) == seen;
    } else {
      var k, rest := a[0].Key(), a[1..];
      assert (a + b)[1..] == rest + b;
      assert a == [a[0]] + rest && a[0] in [a[0]];
      KeysConcat([a[0]], rest);
      if k in seen {
        DedupConcat(seen, rest, b);
        assert seen + Keys(rest) == seen + Keys(a);
      } else {
        DedupConcat(seen + {k}, rest, b);
        assert seen + {k} + Keys(rest) == seen + Keys(a);
      }
    }
  }

  lemma {:induction false} DistinctDedup(seen: set<Key>, s: seq<Entry>)
    requires DistinctKeys(s) && Keys(s) !! seen
    ensures DedupFrom(seen, s) == s
    decreases s
  {
    if s != [] {
      var k, rest := s[0].Key(), s[1..];
      assert s == [s[0]] + rest && s[0] in [s[0]];
      KeysConcat([s[0]], rest);
      DistinctConcat([s[0]], rest);
      DistinctDedup(seen + {k}, rest);
    }
  }

  /** Having seen one more key k removes exactly the first element with it, if there is one. */
  lemma {:induction false} SeenOneMore(seen: set<Key>, k: Key, s: seq<Entry>)
      returns (u: seq<Entry>, y: seq<Entry>, v: seq<Entry>)
    requires k !in seen
    ensures DedupFrom(seen, s) == u + y + v && DedupFrom(seen + {k}, s) == u + v
    ensures if k in Keys(s) then |y| == 1 && y[0].Key() == k else y == []
    decreases s
  {
    if s == [] {
      u, y, v := [], [], [];
    } else {
      var first, rest := s[0], s[1..];
      assert s == [first] + rest && first in [first];
      KeysConcat([first], rest);
      if first.Key() in seen {
        u, y, v := SeenOneMore(seen, k, rest);
      } else if first.Key() == k {
        u, y, v := [], [first], DedupFrom(seen + {k}, rest);
      } else {
        u, y, v := SeenOneMore(seen + {first.Key()}, k, rest);
        assert seen + {first.Key()} + {k} == seen + {k} + {first.Key()};
        u := [first] + u;
      }
    }
  }

  // ---------- counting keys ----------

  function KeysFrom(s: seq<Entry>, lo: int): set<Key>
  {
    set e | e in s && e.rank >= lo :: e.Key()
  }

  lemma {:induction false} KeysFromSize(s: seq<Entry>, lo: int)
    ensures |KeysFrom(s, lo)| <= AtLeast(s, lo)
  {
    if s != [] {
      var init, last := s[..|s| - 1], s[|s| - 1];
      KeysFromSize(init, lo);
      assert s == init + [last];
      if last.rank >= lo {
        assert KeysFrom(s, lo) == KeysFrom(init, lo) + {last.Key()};
      } else {
        assert KeysFrom(s, lo) == KeysFrom(init, lo);
      }
    }
  }

  lemma {:induction false} DistinctKeysSize(s: seq<Entry>)
    requires DistinctKeys(s)
    ensures |Keys(s)| == |s|
  {
    if s != [] {
      var init, last := s[..|s| - 1], s[|s| - 1];
      assert s == init + [last] && last in [last];
      DistinctConcat(init, [last]);
      KeysConcat(init, [last]);
      assert Keys([last]) == {last.Key()};
      DistinctKeysSize(init);
    }
  }

  /** Distinct rows whose keys are found in p at or above `lo` or in q at or above `lo'` are no more than those. */
  lemma RowsCovered(rows: seq<Entry>, p: seq<Entry>, lo: int, q: seq<Entry>, lo': int)
    requires DistinctKeys(rows) && Keys(rows) <= KeysFrom(p, lo) + KeysFrom(q, lo')
    ensures |rows| <= AtLeast(p, lo) + AtLeast(q, lo')
  {
    DistinctKeysSize(rows);
    SubsetSize(Keys(rows), KeysFrom(p, lo) + KeysFrom(q, lo'));
    UnionSize(KeysFrom(p, lo), KeysFrom(q, lo'));
    KeysFromSize(p, lo);
    KeysFromSize(q, lo');
  }

  // ---------- dropping a row below the cut ----------

  /** Rows of one list that tie do not occur in any other. */
  ghost predicate TiesUnshared(list: seq<Entry>, others: set<Key>)
  {
    forall i, j :: 0 <= i < j < |list| && list[i].rank == list[j].rank ==>
                     list[i].Key() !in others && list[j].Key() !in others
  }

  /** A backend's list as it is expected: in timestamp order, each row once, and its ties its own. */
  ghost predicate Orderly(list: seq<Entry>, others: set<Key>)
  {
    Ascending(list) && DistinctKeys(list) && TiesUnshared(list, others)
  }

  lemma OrderlyTail(list: seq<Entry>, others: set<Key>, fewer: set<Key>, k: nat)
    requires Orderly(list, others) && k <= |list| && fewer <= others
    ensures Orderly(list[k..], fewer)
  {
    assert forall i :: 0 <= i < |list| - k ==> list[k..][i] == list[i + k];
  }

  /** The rows behind x in its list are represented among the elements that come behind x in the merge. */
  lemma RestIsBehind(x: Entry, rest: seq<Entry>, p: seq<Entry>, q: seq<Entry>, others: set<Key>)
    requires Orderly([x] + rest, others)
    requires Keys(p) <= others && Keys(rest) <= Keys(p) + Keys(q)
    ensures |rest| <= AtLeast(p, x.rank + 1) + AtLeast(q, x.rank)
    ensures x.Key() in others ==> |rest| <= AtLeast(p, x.rank + 1) + AtLeast(q, x.rank + 1)
  {
    var list := [x] + rest;
    forall z | z in rest
      ensures z.Key() in KeysFrom(p, x.rank + 1) + KeysFrom(q, x.rank)
      ensures x.Key() in others ==> z.Key() in KeysFrom(p, x.rank + 1) + KeysFrom(q, x.rank + 1)
    {
      var i :| 0 <= i < |rest| && rest[i] == z;
      assert list[0] == x && list[i + 1] == z;
      assert z.Key() in Keys(rest);
      if z.Key() in Keys(p) {
        var e :| e in p && e.Key() == z.Key();
      } else {
        var e :| e in q && e.Key() == z.Key();
      }
    }
    assert DistinctKeys(rest) by {
      DistinctConcat([x], rest);
    }
    RowsCovered(rest, p, x.rank + 1, q, x.rank);
    if x.Key() in others {
      RowsCovered(rest, p, x.rank + 1, q, x.rank + 1);
    }
  }

  lemma FirstOut(p: seq<Entry>, x: Entry, q: seq<Entry>, n: nat)
    requires n <= AtLeast(p, x.rank + 1) + AtLeast(q, x.rank + 1)
    ensures LastN(StableSort(p + [x] + q), n) == LastN(StableSort(p + q), n)
  {
    AtLeastFalls(q, x.rank, x.rank + 1);
    OneRowOut(p, x, q, n);
  }

  lemma AtLeastMoved(p: seq<Entry>, u: seq<Entry>, v: seq<Entry>, lo: int)
    ensures AtLeast(p, lo + 1) + AtLeast(u + v, lo + 1) <= AtLeast(p + u, lo + 1) + AtLeast(v, lo)
  {
    AtLeastConcat(u, v, lo + 1);
    AtLeastConcat(p, u, lo + 1);
    AtLeastFalls(v, lo, lo + 1);
  }

  lemma SecondOut(p: seq<Entry>, u: seq<Entry>, y: Entry, v: seq<Entry>, n: nat)
    requires n <= AtLeast(p, y.rank + 1) + AtLeast(u + v, y.rank + 1)
    ensures LastN(StableSort((p + u) + [y] + v), n) == LastN(StableSort(p + (u + v)), n)
  {
    Associative(p, u, v);
    AtLeastMoved(p, u, v, y.rank);
    OneRowOut(p + u, y, v, n);
  }

  /** Either of two elements of one rank, x ahead of u or y behind it, may be left out. */
  lemma EitherOut(p: seq<Entry>, x: Entry, u: seq<Entry>, y: Entry, v: seq<Entry>, n: nat)
    requires y.rank == x.rank && n <= AtLeast(p, x.rank + 1) + AtLeast(u + v, x.rank + 1)
    ensures LastN(StableSort(p + [x] + (u + v)), n) == LastN(StableSort((p + u) + [y] + v), n)
  {
    FirstOut(p, x, u + v, n);
    SecondOut(p, u, y, v, n);
  }

  /** Both ways of losing x: nothing has its key later, or a later element with its key moves up. */
  lemma RowOut(p: seq<Entry>, x: Entry, u: seq<Entry>, y: seq<Entry>, v: seq<Entry>, n: nat)
    requires |y| == 0 || (|y| == 1 && y[0].rank == x.rank)
    requires n <= AtLeast(p, x.rank + 1) + AtLeast(u + v, if |y| == 0 then x.rank else x.rank + 1)
    ensures LastN(StableSort(p + [x] + (u + v)), n) == LastN(StableSort(p + (u + y + v)), n)
  {
    if |y| == 0 {
      AppendNothing(u);
      assert y == [];
      OneRowOut(p, x, u + v, n);
    } else {
      assert y == [y[0]];
      EitherOut(p, x, u, y[0], v, n);
      Associative(p, u + y, v);
      Associative(p, u, y);
    }
  }

  lemma KeyNotInRest(x: Entry, rest: seq<Entry>)
    requires DistinctKeys([x] + rest)
    ensures x.Key() !in Keys(rest)
  {
    DistinctConcat([x], rest);
    assert x in [x];
  }

  lemma FrontRow(before: seq<Entry>, x: Entry, rest: seq<Entry>, after: seq<Entry>, n: nat)
    requires n <= |rest| && Orderly([x] + rest, Keys(before) + Keys(after))
    ensures LastN(StableSort(Dedup(before + ([x] + rest) + after)), n)
            == LastN(StableSort(Dedup(before + rest + after)), n)
  {
    var seen, k, p := Keys(before), x.Key(), Dedup(before);
    DedupKeys({}, before);
    DedupConcat({}, before, ([x] + rest) + after);
    DedupConcat({}, before, rest + after);
    Associative(before, [x] + rest, after);
    Associative(before, rest, after);
    Associative([x], rest, after);
    assert {} + seen == seen;
    assert ([x] + (rest + after))[1..] == rest + after;
    if k !in seen {
      var u, y, v := SeenOneMore(seen, k, rest + after);
      DedupKeys(seen + {k}, rest + after);
      KeysConcat(rest, after);
      KeyNotInRest(x, rest);
      RestIsBehind(x, rest, p, u + v, seen + Keys(after));
      RowOut(p, x, u, y, v, n);
      Associative(p, [x], u + v);
    }
  }

  /** Dropping from an orderly list everything before its last n changes no top n. */
  lemma {:induction false} DropFront(before: seq<Entry>, list: seq<Entry>, after: seq<Entry>, n: nat)
    requires Orderly(list, Keys(before) + Keys(after))
    ensures LastN(StableSort(Dedup(before + list + after)), n)
            == LastN(StableSort(Dedup(before + LastN(list, n) + after)), n)
    decreases |list|
  {
    if |list| > n {
      var x, rest := list[0], list[1..];
      assert list == [x] + rest;
      OrderlyTail(list, Keys(before) + Keys(after), Keys(before) + Keys(after), 1);
      FrontRow(before, x, rest, after, n);
      DropFront(before, rest, after, n);
      LastNConcat([x], rest, n);
    }
  }

  /** Each backend's list is orderly with respect to all the others; `after` holds the keys of those not listed. */
  ghost predicate AllOrderly(answers: seq<Answer>, after: set<Key>)
  {
    answers == [] ||
    (var init, last := answers[..|answers| - 1], Listed(answers[|answers| - 1]);
     Orderly(last, Keys(Concat(init)) + after) && AllOrderly(init, after + Keys(last)))
  }

  lemma {:induction false} FewerOthers(answers: seq<Answer>, after: set<Key>, fewer: set<Key>)
    requires AllOrderly(answers, after) && fewer <= after
    ensures AllOrderly(answers, fewer)
  {
    if answers != [] {
      var init, last := answers[..|answers| - 1], Listed(answers[|answers| - 1]);
      OrderlyTail(last, Keys(Concat(init)) + after, Keys(Concat(init)) + fewer, 0);
      assert last[0..] == last;
      FewerOthers(init, after + Keys(last), fewer + Keys(last));
    }
  }

  lemma TailKeys(list: seq<Entry>, n: nat)
    ensures Keys(LastN(list, n)) <= Keys(list)
  {
  }

  lemma PushedSnoc(answers: seq<Answer>, n: nat)
    requires answers != []
    ensures Concat(Pushed(answers, n))
            == Concat(Pushed(answers[..|answers| - 1], n)) + LastN(Listed(answers[|answers| - 1]), n)
  {
    var pushed := Pushed(answers, n);
    assert pushed[..|pushed| - 1] == Pushed(answers[..|answers| - 1], n);
  }

  lemma {:induction false} PushedTop(answers: seq<Answer>, after: seq<Entry>, n: nat)
    requires AllOrderly(answers, Keys(after))
    ensures LastN(StableSort(Dedup(Concat(answers) + after)), n)
            == LastN(StableSort(Dedup(Concat(Pushed(answers, n)) + after)), n)
  {
    if answers != [] {
      var init, last := answers[..|answers| - 1], Listed(answers[|answers| - 1]);
      var cut := LastN(last, n);
      DropFront(Concat(init), last, after, n);
      TailKeys(last, n);
      KeysConcat(cut, after);
      FewerOthers(init, Keys(after) + Keys(last), Keys(cut + after));
      PushedTop(init, cut + after, n);
      PushedSnoc(answers, n);
      Associative(Concat(init), cut, after);
      Associative(Concat(Pushed(init, n)), cut, after);
    }
  }

  /** Pushing the limit down to the backends does not change the answer, for a limit of at least one: when each
      backend lists its rows in timestamp order and once each, and rows that tie within a backend are that
      backend's own. Backends may share rows, and ties between backends do no harm. */
  lemma PushdownPreservesAnswer(answers: seq<Answer>, limit: nat)
    requires 1 <= limit && AllOrderly(answers, {})
    ensures Merged(Pushed(answers, limit), Some(limit)) == Merged(answers, Some(limit))
  {
    assert Keys([]) == {};
    PushedTop(answers, [], limit);
    AppendNothing(Concat(answers));
    AppendNothing(Concat(Pushed(answers, limit)));
  }

  /** Sorted lists without any repeated key, whatever their ties, are orderly. */
  lemma {:induction false} DistinctIsOrderly(answers: seq<Answer>, after: set<Key>)
    requires forall i :: 0 <= i < |answers| ==> Ascending(Listed(answers[i]))
    requires DistinctKeys(Concat(answers)) && Keys(Concat(answers)) !! after
    ensures AllOrderly(answers, after)
  {
    if answers != [] {
      var init, last := answers[..|answers| - 1], Listed(answers[|answers| - 1]);
      DistinctConcat(Concat(init), last);
      KeysConcat(Concat(init), last);
      assert forall i :: 0 <= i < |last| ==> last[i].Key() in Keys(last);
      DistinctIsOrderly(init, after + Keys(last));
    }
  }

  // ---------- which backends may be asked for less ----------

  /** Asking one backend for its last n rows does not change the merged answer; `before` and `after` are the rows of
      its peers. */
  predicate CutHarmless(list: seq<Entry>, before: seq<Entry>, after: seq<Entry>, n: nat)
  {
    LastN(StableSort(Dedup(before + list + after)), n)
    == LastN(StableSort(Dedup(before + LastN(list, n) + after)), n)
  }

  predicate StrictlyAscending(s: seq<Entry>)
  {
    forall i, j :: 0 <= i < j < |s| ==> s[i].rank < s[j].rank
  }

  lemma {:induction false} OfRankConcat(a: seq<Entry>, b: seq<Entry>, rank: int)
    ensures OfRank(a + b, rank) == OfRank(a, rank) + OfRank(b, rank)
    decreases |b|
  {
    if b == [] {
      AppendNothing(a);
      AppendNothing(OfRank(a, rank));
    } else {
      var init, last := b[..|b| - 1], b[|b| - 1];
      OfRankConcat(a, init, rank);
      Associative(a, init, [last]);
      assert init + [last] == b;
      OfRankSnoc(a + init, last, rank);
      OfRankSnoc(init, last, rank);
      Associative(OfRank(a, rank), OfRank(init, rank), [last]);
    }
  }

  lemma {:induction false} OfRankMembers(s: seq<Entry>, rank: int)
    ensures forall e :: e in OfRank(s, rank) <==> e in s && e.rank == rank
  {
    if s != [] {
      var init, last := s[..|s| - 1], s[|s| - 1];
      OfRankMembers(init, rank);
      assert s == init + [last];
    }
  }

  lemma SortMembers(s: seq<Entry>, e: Entry)
    ensures e in StableSort(s) <==> e in s
  {
    SortIsStable(s);
    OfRankMembers(s, e.rank);
    OfRankMembers(StableSort(s), e.rank);
    assert OfRank(StableSort(s), e.rank) == OfRank(s, e.rank);
  }

  lemma {:induction false} SortLength(s: seq<Entry>)
    ensures |StableSort(s)| == |s|
  {
    if s != [] {
      SortLength(s[..|s| - 1]);
      InsertLength(StableSort(s[..|s| - 1]), s[|s| - 1]);
    }
  }

  lemma CutToRest(p: seq<Entry>, x: Entry, rest: seq<Entry>)
    requires DistinctKeys(p + ([x] + rest))
    ensures LastN(p + ([x] + rest), |rest|) == rest
    ensures DistinctKeys(rest) && x !in rest && x.Key() !in Keys(rest)
  {
    LastNConcat(p, [x] + rest, |rest|);
    LastNConcat([x], rest, |rest|);
    DistinctConcat(p, [x] + rest);
    DistinctConcat([x], rest);
    KeyNotInRest(x, rest);
  }

  lemma DedupAlone(list: seq<Entry>)
    requires DistinctKeys(list)
    ensures Dedup([] + list + []) == list
  {
    DistinctDedup({}, list);
    AppendNothing([] + list);
    assert [] + list == list;
  }

  lemma SplitLastN(s: seq<Entry>, n: nat)
    requires n <= |s|
    ensures s == s[..|s| - n] + LastN(s, n)
  {
  }

  /** An ascending list does not have x in its front part and z, ranking below it, behind. */
  lemma OutOfOrder(front: seq<Entry>, back: seq<Entry>, x: Entry, z: Entry)
    requires x in front + back && x !in back && z in back && z.rank < x.rank
    ensures !Ascending(front + back)
  {
    var i :| 0 <= i < |front| && front[i] == x;
    var j :| 0 <= j < |back| && back[j] == z;
    assert (front + back)[i] == x && (front + back)[|front| + j] == z;
  }

  /** x ahead of a row that ranks below it: cut off with the rows ahead of it, although it is among the top. */
  lemma DescentUnsafe(p: seq<Entry>, x: Entry, rest: seq<Entry>, z: Entry)
    requires DistinctKeys(p + ([x] + rest)) && z in rest && z.rank < x.rank
    ensures !CutHarmless(p + ([x] + rest), [], [], |rest|)
  {
    var list, n := p + ([x] + rest), |rest|;
    var sorted := StableSort(list);
    CutToRest(p, x, rest);
    DedupAlone(list);
    DedupAlone(rest);
    SortLength(list);
    SortLength(rest);
    SortMembers(list, x);
    SortMembers(rest, z);
    SortMembers(rest, x);
    if LastN(sorted, n) == StableSort(rest) {
      SplitLastN(sorted, n);
      SortIsStable(list);
      assert x in list by {
        assert list[|p|] == x;
      }
      OutOfOrder(sorted[..|sorted| - n], LastN(sorted, n), x, z);
    }
  }

  /** The last element of one rank. */
  function LastOfRank(s: seq<Entry>, rank: int): Option<Entry>
  {
    var same := OfRank(s, rank);
    if same == [] then None else Some(same[|same| - 1])
  }

  /** The last element of a rank is found in any suffix that has one. */
  lemma LastOfRankBehind(front: seq<Entry>, back: seq<Entry>, rank: int)
    requires OfRank(back, rank) != []
    ensures LastOfRank(front + back, rank) == LastOfRank(back, rank)
  {
    OfRankConcat(front, back, rank);
  }

  lemma LastOfRankSorted(s: seq<Entry>, rank: int)
    ensures LastOfRank(StableSort(s), rank) == LastOfRank(s, rank)
  {
    SortIsStable(s);
    assert OfRank(StableSort(s), rank) == OfRank(s, rank);
  }

  /** Leaving out the first of a sorted list leaves a row of any rank that has two. */
  lemma OneShort(all: seq<Entry>, s: seq<Entry>, rank: int)
    requires all == StableSort(s) && |all| >= 1 && |OfRank(s, rank)| >= 2
    ensures OfRank(LastN(all, |all| - 1), rank) != []
  {
    SortIsStable(s);
    assert OfRank(all, rank) == OfRank(s, rank);
    SplitLastN(all, |all| - 1);
    OfRankConcat(all[..1], all[1..], rank);
    OfRankSnoc([], all[0], rank);
    assert all[..1] == [] + [all[0]];
  }

  /** The top |rest| of rest and one more row of rank r, when rest has a row of that rank: it ends, among the rows of
      that rank, as the whole does. */
  lemma TopHasRank(rest: seq<Entry>, x: Entry, z: Entry)
    requires z in rest && z.rank == x.rank
    ensures var top := LastN(StableSort(rest + [x]), |rest|);
            OfRank(top, x.rank) != [] && LastOfRank(top, x.rank) == Some(x)
  {
    var all := StableSort(rest + [x]);
    var top, r := LastN(all, |rest|), x.rank;
    SortLength(rest + [x]);
    SplitLastN(all, |rest|);
    LastOfRankSorted(rest + [x], r);
    OfRankSnoc(rest, x, r);
    OfRankMembers(rest, r);
    OneShort(all, rest + [x], r);
    LastOfRankBehind(all[..|all| - |rest|], top, r);
  }

  lemma DedupSnoc(s: seq<Entry>, e: Entry)
    ensures Dedup(s + [e]) == if e.Key() in Keys(s) then Dedup(s) else Dedup(s) + [e]
    ensures Keys(s + [e]) == Keys(s) + {e.Key()}
  {
    DedupConcat({}, s, [e]);
    KeysConcat(s, [e]);
    assert e in [e] && {} + Keys(s) == Keys(s);
    assert [e][1..] == [];
    AppendNothing(Dedup(s));
  }

  lemma DedupWithPeer(p: seq<Entry>, x: Entry, rest: seq<Entry>)
    requires DistinctKeys(p + ([x] + rest))
    ensures Dedup([] + (p + ([x] + rest)) + [x]) == p + ([x] + rest)
    ensures Dedup([] + rest + [x]) == rest + [x]
  {
    var list := p + ([x] + rest);
    CutToRest(p, x, rest);
    assert [] + list == list && [] + rest == rest;
    DistinctDedup({}, list);
    assert list[|p|] == x;
    DedupSnoc(list, x);
    DistinctDedup({}, rest);
    DedupSnoc(rest, x);
  }

  /** Behind x its list ends the rank with another row. */
  lemma EndsWithAnother(p: seq<Entry>, x: Entry, rest: seq<Entry>, z: Entry)
    requires x !in rest && z in rest && z.rank == x.rank
    ensures LastOfRank(p + ([x] + rest), x.rank) != Some(x)
  {
    OfRankMembers(rest, x.rank);
    LastOfRankBehind(p + [x], rest, x.rank);
    Associative(p, [x], rest);
  }

  /** x ahead of a row that ties with it, and one peer that lists x as well: the full answer drops the peer's x and
      ends that rank with another row; the pushed-down one ends it with x. */
  lemma TieUnsafe(p: seq<Entry>, x: Entry, rest: seq<Entry>, z: Entry)
    requires DistinctKeys(p + ([x] + rest)) && z in rest && z.rank == x.rank
    ensures !CutHarmless(p + ([x] + rest), [], [x], |rest|)
  {
    var list, n, r := p + ([x] + rest), |rest|, x.rank;
    CutToRest(p, x, rest);
    DedupWithPeer(p, x, rest);
    TopHasRank(rest, x, z);
    var top := LastN(StableSort(rest + [x]), n);
    if LastN(StableSort(list), n) == top {
      SortLength(list);
      SplitLastN(StableSort(list), n);
      LastOfRankBehind(StableSort(list)[..|list| - n], top, r);
      LastOfRankSorted(list, r);
      EndsWithAnother(p, x, rest, z);
    }
  }

  lemma SplitAround(list: seq<Entry>, i: nat)
    requires i < |list|
    ensures list == list[..i] + ([list[i]] + list[i + 1..])
  {
  }

  lemma UnsafePair(list: seq<Entry>, i: nat, j: nat) returns (after: seq<Entry>, n: nat)
    requires DistinctKeys(list) && i < j < |list| && list[i].rank >= list[j].rank
    ensures 1 <= n && !CutHarmless(list, [], after, n)
  {
    var p, x, rest, z := list[..i], list[i], list[i + 1..], list[j];
    SplitAround(list, i);
    assert rest[j - i - 1] == z;
    n := |rest|;
    if z.rank < x.rank {
      after := [];
      DescentUnsafe(p, x, rest, z);
    } else {
      after := [x];
      TieUnsafe(p, x, rest, z);
    }
  }

  /** A backend that lists each row once may be asked for its last n rows whatever n is and whatever its peers hold,
      if and only if its timestamps are strictly ascending. */
  lemma SafeAmongAnyPeers(list: seq<Entry>)
    requires DistinctKeys(list)
    ensures (forall before, after, n: nat :: 1 <= n ==> CutHarmless(list, before, after, n))
            <==> StrictlyAscending(list)
  {
    if StrictlyAscending(list) {
      forall before, after, n: nat | 1 <= n
        ensures CutHarmless(list, before, after, n)
      {
        DropFront(before, list, after, n);
      }
    } else {
      var i, j :| 0 <= i < j < |list| && list[i].rank >= list[j].rank;
      var after, n := UnsafePair(list, i, j);
      assert !CutHarmless(list, [], after, n);
    }
  }

  /** A limit of zero is different: the backends then return nothing, but the slice here would cut nothing. */
  lemma {:induction false} ZeroLimitReturnsNothing(answers: seq<Answer>)
    ensures Concat(Pushed(answers, 0)) == []
    ensures Merged(Pushed(answers, 0), Some(0)) == []
    ensures Merged(answers, Some(0)) == Merged(answers, None)
  {
    if answers != [] {
      var init, pushed := answers[..|answers| - 1], Pushed(answers, 0);
      ZeroLimitReturnsNothing(init);
      assert pushed[..|pushed| - 1] == Pushed(init, 0);
    }
  }

  lemma SortedStays(s: seq<Entry>)
    requires Ascending(s)
    ensures StableSort(s) == s
  {
    SortIsStable(s);
    StableSortUnique(StableSort(s), s);
  }

  /** A row repeated at the end of an already merged list vanishes. */
  lemma RepeatedRow(s: seq<Entry>, row: Entry)
    requires Ascending(s) && DistinctKeys(s) && row in s
    ensures StableSort(Dedup(s + [row])) == s
  {
    DistinctDedup({}, s);
    DedupSnoc(s, row);
    SortedStays(s);
  }

  lemma ConcatOne(s: seq<Entry>)
    ensures Concat([Some(s)]) == s
  {
    assert [Some(s)][..0] == [];
    assert [] + s == s;
  }

  lemma PushedOne(s: seq<Entry>, n: nat)
    ensures Pushed([Some(s)], n) == [Some(LastN(s, n))]
  {
    assert [Some(s)][..0] == [];
    assert [] + [Some(LastN(s, n))] == [Some(LastN(s, n))];
  }

  /** One backend's merged answer. */
  lemma MergedOne(s: seq<Entry>, n: nat)
    requires 0 < n
    ensures Merged([Some(s)], Some(n)) == LastN(StableSort(Dedup(s)), n)
  {
    ConcatOne(s);
  }

  lemma TailOfRepeat(rows: seq<Entry>)
    requires rows != []
    ensures LastN(rows + [rows[|rows| - 1]], |rows|) == rows[1..] + [rows[|rows| - 1]]
  {
  }

  lemma DistinctTail(rows: seq<Entry>)
    requires Ascending(rows) && DistinctKeys(rows) && |rows| >= 2
    ensures Ascending(rows[1..]) && DistinctKeys(rows[1..]) && rows[|rows| - 1] in rows[1..]
  {
    assert rows[1..][|rows| - 2] == rows[|rows| - 1];
  }

  /** One backend whose rows are in order and distinct but for a repeat of the last one. */
  lemma RepeatAnswer(rows: seq<Entry>, last: Entry, n: nat)
    requires Ascending(rows) && DistinctKeys(rows) && last in rows && |rows| <= n
    ensures Merged([Some(rows + [last])], Some(n)) == rows
  {
    MergedOne(rows + [last], n);
    RepeatedRow(rows, last);
  }

  /** Each row once is needed: when a backend holds its last row twice, asking it for its last n rows cuts
      off a row that the full answer, where the repeat is dropped first, contains. */
  lemma DuplicatesBreakPushdown(rows: seq<Entry>)
    requires Ascending(rows) && DistinctKeys(rows) && |rows| >= 2
    ensures var n, stored := |rows|, rows + [rows[|rows| - 1]];
            && Merged([Some(stored)], Some(n)) == rows
            && Merged(Pushed([Some(stored)], n), Some(n)) == rows[1..]
  {
    var n, last := |rows|, rows[|rows| - 1];
    RepeatAnswer(rows, last, n);
    PushedOne(rows + [last], n);
    TailOfRepeat(rows);
    DistinctTail(rows);
    RepeatAnswer(rows[1..], last, n);
  }

  lemma SortTwo(x: Entry, z: Entry)
    requires x.rank <= z.rank
    ensures StableSort([x, z]) == [x, z]
  {
    SortedStays([x, z]);
  }

  lemma ConcatTwo(a: seq<Entry>, b: seq<Entry>)
    ensures Concat([Some(a), Some(b)]) == a + b
  {
    assert [Some(a), Some(b)][..1] == [Some(a)];
    ConcatOne(a);
  }

  lemma PushedTwo(a: seq<Entry>, b: seq<Entry>, n: nat)
    ensures Pushed([Some(a), Some(b)], n) == [Some(LastN(a, n)), Some(LastN(b, n))]
  {
    assert [Some(a), Some(b)][..1] == [Some(a)];
    PushedOne(a, n);
  }

  lemma DedupTwo(x: Entry, z: Entry)
    requires x.Key() != z.Key()
    ensures Dedup([x, z]) == [x, z]
    ensures Dedup([x, z] + [x]) == [x, z]
  {
    DistinctDedup({}, [x, z]);
    assert x in [x, z];
    DedupSnoc([x, z], x);
  }

  /** Ties of one's own are needed: a backend that lists x before z, of the same timestamp, and another that has x
      too. The full answer drops the second x and ends with z; asked for one row each, the first backend sends z and
      the second x, which is then the last. */
  lemma SharedTieBreaksPushdown(x: Entry, z: Entry)
    requires x.rank == z.rank && x.id != z.id
    ensures Merged([Some([x, z]), Some([x])], Some(1)) == [z]
    ensures Merged(Pushed([Some([x, z]), Some([x])], 1), Some(1)) == [x]
  {
    ConcatTwo([x, z], [x]);
    DedupTwo(x, z);
    SortTwo(x, z);
    PushedTwo([x, z], [x], 1);
    ConcatTwo([z], [x]);
    assert [z] + [x] == [z, x];
    DedupTwo(z, x);
    SortTwo(z, x);
  }

  // ---------- the merge ----------

  lemma NextEntry(before: seq<Entry>, result: seq<Entry>, i: nat)
    requires i < |result|
    ensures var read, entry := before + result[..i], result[i];
            var (all, seen) := (Dedup(before + result[..i + 1]), Keys(before + result[..i + 1]));
            if entry.Key() in Keys(read) then all == Dedup(read) && seen == Keys(read)
            else all == Dedup(read) + [entry] && seen == Keys(read) + {entry.Key()}
  {
    DedupSnoc(before + result[..i], result[i]);
    assert before + result[..i + 1] == (before + result[..i]) + [result[i]];
  }

  /** The loop over one backend's entries. */
  method AddEntries(seen0: set<Key>, all0: seq<Entry>, result: seq<Entry>, ghost before: seq<Entry>)
      returns (seen: set<Key>, all: seq<Entry>)
    requires all0 == Dedup(before) && seen0 == Keys(before)
    ensures all == Dedup(before + result) && seen == Keys(before + result)
  {
    seen, all := seen0, all0;
    var i := 0;
    assert before + result[..0] == before;
    while i < |result|
      invariant i <= |result|
      invariant all == Dedup(before + result[..i]) && seen == Keys(before + result[..i])
    {
      var entry := result[i];
      NextEntry(before, result, i);
      if entry.Key() !in seen {
        seen := seen + {entry.Key()};
        all := all + [entry];
      }
      i := i + 1;
    }
    assert result[..i] == result;
  }

  /** The loop over the backends' answers, then the sort and the slice. */
  method MergeBackends(answers: seq<Answer>, limit: Option<int>) returns (merged: seq<Entry>)
    ensures merged == Merged(answers, limit)
  {
    var seen, all := {}, [];
    var i := 0;
    while i < |answers|
      invariant i <= |answers|
      invariant all == Dedup(Concat(answers[..i])) && seen == Keys(Concat(answers[..i]))
    {
      seen, all := AddEntries(seen, all, Listed(answers[i]), Concat(answers[..i]));
      assert answers[..i + 1][..i] == answers[..i];
      i := i + 1;
    }
    assert answers[..i] == answers;
    merged := StableSort(all);
    if limit.Some? {
      merged := TailSlice(merged, limit.value);
    }
  }
}
