/** Continuation fan-in of harness/continuations.py: which upstream completions make a continuation fire, what
    shedding, eviction and re-registration do to partly satisfied fan-ins, and how long those live. */
module Continuations {
  import opened Seqs
  import opened Sets
  import opened Tracking

  type Kind = string
  type Pattern = string

  datatype Item = Item(
    path: string, name: Name, patterns: seq<Pattern>, enabled: bool, onSuccess: bool, onError: bool,
    triggerWhen: Option<string>, maxFires: int)

  datatype Event = Event(kind: Kind, session: string, success: bool, response: string)

  /** Configuration, and the two foreign predicates: `fnmatch(kind, pattern)` and `needle in response`. A cap or
      a TTL that is not positive is switched off. */
  datatype Config = Config(
    globalCap: int, ttl: int, fnmatch: (Kind, Pattern) -> bool, contains: (string, string) -> bool)

  datatype Key = Key(path: string, session: string)

  /** A fan-in entry. `created` is bookkeeping no branch reads. */
  datatype Entry = Entry(ts: int, seen: set<Kind>, created: int)

  /** What the runner did, in order: an eligible event was matched to a continuation, a fire was scheduled, a path
      was (un)registered, entries were evicted. */
  datatype Obs = Saw(key: Key, kind: Kind) | Fired(key: Key) | Reset(path: string) | Aged(keys: set<Key>)

  /** `items` is in registration order, as the dict is; `history` is bookkeeping. */
  datatype Runner = Runner(items: seq<Item>, fanin: map<Key, Entry>, tasks: Tracked, history: seq<Obs>)

  const START := Runner([], map[], NONE, [])

  // ---------- notify ----------

  predicate Matches(cfg: Config, kind: Kind, p: Pattern)
  {
    p == "*" || cfg.fnmatch(kind, p)
  }

  /** The event passes the item's enabled, outcome and content filters and satisfies one of its patterns. */
  predicate Eligible(cfg: Config, it: Item, ev: Event)
  {
    && it.enabled
    && (exists i :: 0 <= i < |it.patterns| && Matches(cfg, ev.kind, it.patterns[i]))
    && (if ev.success then it.onSuccess else it.onError)
    && (it.triggerWhen.None? || cfg.contains(it.triggerWhen.value, ev.response))
  }

  predicate Satisfied(cfg: Config, seen: set<Kind>, p: Pattern)
  {
    exists k :: k in seen && Matches(cfg, k, p)
  }

  /** Every configured pattern is satisfied by one of these kinds. */
  predicate Ready(cfg: Config, it: Item, seen: set<Kind>)
  {
    forall i :: 0 <= i < |it.patterns| ==> Satisfied(cfg, seen, it.patterns[i])
  }

  /** A new kind refreshes the timestamp, a repeated one does not. */
  function Record(fanin: map<Key, Entry>, key: Key, kind: Kind, now: int): Entry
  {
    if key !in fanin then Entry(now, {kind}, now)
    else
      var e := fanin[key];
      if kind in e.seen then e else Entry(now, e.seen + {kind}, e.created)
  }

  predicate Room(cfg: Config, tasks: Tracked, it: Item)
  {
    && (cfg.globalCap > 0 ==> |tasks.active| < cfg.globalCap)
    && |InFlight(tasks, it.name)| < it.maxFires
  }

  /** Fire if both caps have room. A shed fire leaves the fan-in state alone; when it is the item's own cap that
      sheds, the `setdefault` before the check has left a per-name set behind. */
  function TryFire(cfg: Config, r: Runner, it: Item, key: Key): Runner
  {
    if Room(cfg, r.tasks, it) then
      Runner(r.items, if |it.patterns| == 1 then r.fanin else r.fanin - {key}, Add(r.tasks, it.name),
             r.history + [Fired(key)])
    else if cfg.globalCap > 0 && |r.tasks.active| >= cfg.globalCap then r
    else r.(tasks := r.tasks.(byName := r.tasks.byName[it.name := InFlight(r.tasks, it.name)]))
  }

  function NotifyItem(cfg: Config, r: Runner, it: Item, ev: Event, now: int): Runner
  {
    if !Eligible(cfg, it, ev) then r
    else
      var key := Key(it.path, ev.session);
      var seen := r.(history := r.history + [Saw(key, ev.kind)]);
      if |it.patterns| == 1 then TryFire(cfg, seen, it, key)
      else
        var entry := Record(r.fanin, key, ev.kind, now);
        var kept := seen.(fanin := r.fanin[key := entry]);
        if Ready(cfg, it, entry.seen) then TryFire(cfg, kept, it, key) else kept
  }

  /** `clock(i)` is the clock reading for the i-th registered item; `items` are those from the i-th on. */
  function NotifyAll(cfg: Config, r: Runner, items: seq<Item>, ev: Event, clock: nat -> int, i: nat): Runner
    decreases items
  {
    if items == [] then r else NotifyAll(cfg, NotifyItem(cfg, r, items[0], ev, clock(i)), items[1..], ev, clock, i + 1)
  }

  /** Drop the entries last refreshed before now - ttl. */
  function Evict(cfg: Config, r: Runner, now: int): Runner
  {
    if cfg.ttl <= 0 then r
    else r.(fanin := map k | k in r.fanin && r.fanin[k].ts >= now - cfg.ttl :: r.fanin[k],
            history := r.history + [Aged(set k | k in r.fanin && r.fanin[k].ts < now - cfg.ttl)])
  }

  // ---------- registration ----------

  function Without(items: seq<Item>, path: string): seq<Item>
  {
    if items == [] then []
    else (if items[0].path == path then [] else [items[0]]) + Without(items[1..], path)
  }

  function Unregistered(r: Runner, path: string): Runner
  {
    r.(items := Without(r.items, path),
    fanin := if exists i :: 0 <= i < |r.items| && r.items[i].path == path
             then map k | k in r.fanin && k.path != path :: r.fanin[k] else r.fanin,
    history := r.history + [Reset(path)])
  }

  // ---------- runs ----------

  /** A notify reads the clock at `now` to evict, and again for each item whose entry it stamps. */
  datatype Action =
    | Notify(ev: Event, now: int, clock: nat -> int)
    | Done(t: TaskId)
    | Register(it: Item)
    | Unregister(path: string)

  function Step(cfg: Config, r: Runner, a: Action): Runner
  {
    match a
    case Notify(ev, now, clock) => NotifyAll(cfg, Evict(cfg, r, now), r.items, ev, clock, 0)
    case Done(t) =>
      if t in r.tasks.active && t in r.tasks.owner then r.(tasks := Remove(r.tasks, t)) else r
    case Register(it) => var u := Unregistered(r, it.path); u.(items := u.items + [it])
    case Unregister(path) => Unregistered(r, path)
  }

  function Run(cfg: Config, r: Runner, actions: seq<Action>): Runner
    decreases actions
  {
    if actions == [] then r else Run(cfg, Step(cfg, r, actions[0]), actions[1..])
  }

  // ---------- reading the history ----------

  /** The kinds matched to this key since it last fired, was evicted, or its path was last (un)registered. */
  function Recent(h: seq<Obs>, key: Key): set<Kind>
  {
    if h == [] then {}
    else
      var init := h[..|h| - 1];
      match h[|h| - 1]
      case Saw(k, kind) => if k == key then Recent(init, key) + {kind} else Recent(init, key)
      case Fired(k) => if k == key then {} else Recent(init, key)
      case Reset(path) => if path == key.path then {} else Recent(init, key)
      case Aged(keys) => if key in keys then {} else Recent(init, key)
  }

  /** Fires of this key since its path was last (un)registered. */
  function FireCount(h: seq<Obs>, key: Key): nat
  {
    if h == [] then 0
    else
      var init := h[..|h| - 1];
      match h[|h| - 1]
      case Saw(_, _) => FireCount(init, key)
      case Fired(k) => if k == key then FireCount(init, key) + 1 else FireCount(init, key)
      case Reset(path) => if path == key.path then 0 else FireCount(init, key)
      case Aged(_) => FireCount(init, key)
  }

  /** Eligible events of this key whose kind matches p, since its path was last (un)registered. */
  function MatchCount(cfg: Config, h: seq<Obs>, key: Key, p: Pattern): nat
  {
    if h == [] then 0
    else
      var init := h[..|h| - 1];
      match h[|h| - 1]
      case Saw(k, kind) => MatchCount(cfg, init, key, p) + if k == key && Matches(cfg, kind, p) then 1 else 0
      case Fired(_) => MatchCount(cfg, init, key, p)
      case Reset(path) => if path == key.path then 0 else MatchCount(cfg, init, key, p)
      case Aged(_) => MatchCount(cfg, init, key, p)
  }

  /** One of the kinds matched since the last fire satisfies p. */
  predicate Pending(cfg: Config, h: seq<Obs>, key: Key, p: Pattern)
  {
    Satisfied(cfg, Recent(h, key), p)
  }

  /** Each fire of this key since its path was last (un)registered came after a match of p of its own, later than
      the fire before it. */
  ghost predicate Witnessed(cfg: Config, h: seq<Obs>, key: Key, p: Pattern)
  {
    if h == [] then true
    else
      var init, last := h[..|h| - 1], h[|h| - 1];
      if last == Reset(key.path) then true
      else Witnessed(cfg, init, key, p) && (last == Fired(key) ==> Pending(cfg, init, key, p))
  }

  /** Fires with witnesses of their own are no more than the matches. */
  lemma {:induction false} WitnessedCount(cfg: Config, h: seq<Obs>, key: Key, p: Pattern)
    requires Witnessed(cfg, h, key, p)
    ensures FireCount(h, key) + (if Pending(cfg, h, key, p) then 1 else 0) <= MatchCount(cfg, h, key, p)
  {
    if h != [] && h[|h| - 1] != Reset(key.path) {
      WitnessedCount(cfg, h[..|h| - 1], key, p);
    }
  }

  // ---------- fan-in counting ----------

  ghost predicate PathsUnique(items: seq<Item>)
  {
    forall x, y :: x in items && y in items && x.path == y.path ==> x == y
  }

  /** Entries belong to registered fan-in items and hold only kinds matched since the last fire. */
  ghost predicate FaninInv(r: Runner)
  {
    && PathsUnique(r.items)
    && (forall key :: key in r.fanin ==>
          && r.fanin[key].seen <= Recent(r.history, key)
          && exists x :: x in r.items && x.path == key.path && |x.patterns| != 1)
  }

  ghost predicate WitnessInv(cfg: Config, r: Runner)
  {
    forall it, s, p :: it in r.items && p in it.patterns ==> Witnessed(cfg, r.history, Key(it.path, s), p)
  }

  lemma Snoc(cfg: Config, h: seq<Obs>, o: Obs, key: Key, p: Pattern)
    ensures Recent(h + [o], key)
            == (match o
                case Saw(k, kind) => if k == key then Recent(h, key) + {kind} else Recent(h, key)
                case Fired(k) => if k == key then {} else Recent(h, key)
                case Reset(path) => if path == key.path then {} else Recent(h, key)
                case Aged(keys) => if key in keys then {} else Recent(h, key))
    ensures Witnessed(cfg, h + [o], key, p)
            == (o == Reset(key.path)
                || (Witnessed(cfg, h, key, p) && (o == Fired(key) ==> Pending(cfg, h, key, p))))
  {
    assert (h + [o])[..|h|] == h;
  }

  /** Observations that keep every fan-in invariant: a match, a fire of a key whose patterns are all pending and whose
      entry is gone, or an eviction of entries that are gone. */
  lemma ObserveInv(cfg: Config, r: Runner, o: Obs)
    requires FaninInv(r) && WitnessInv(cfg, r) && !o.Reset?
    requires o.Aged? ==> forall key :: key in o.keys ==> key !in r.fanin
    requires o.Fired? ==>
               && o.key !in r.fanin
               && forall it, p :: it in r.items && it.path == o.key.path && p in it.patterns ==>
                                    Pending(cfg, r.history, o.key, p)
    ensures FaninInv(r.(history := r.history + [o])) && WitnessInv(cfg, r.(history := r.history + [o]))
  {
    forall key | key in r.fanin
      ensures r.fanin[key].seen <= Recent(r.history + [o], key)
    {
      Snoc(cfg, r.history, o, key, "");
    }
    forall it, s, p | it in r.items && p in it.patterns
      ensures Witnessed(cfg, r.history + [o], Key(it.path, s), p)
    {
      Snoc(cfg, r.history, o, Key(it.path, s), p);
    }
  }

  lemma FireInv(cfg: Config, r: Runner, it: Item, key: Key)
    requires FaninInv(r) && WitnessInv(cfg, r) && it in r.items && key.path == it.path
    requires forall p :: p in it.patterns ==> Pending(cfg, r.history, key, p)
    ensures FaninInv(TryFire(cfg, r, it, key)) && WitnessInv(cfg, TryFire(cfg, r, it, key))
  {
    if Room(cfg, r.tasks, it) {
      var cleared := r.(fanin := r.fanin - {key});
      assert |it.patterns| == 1 ==> key !in r.fanin;
      assert FaninInv(cleared);
      assert WitnessInv(cfg, cleared);
      ObserveInv(cfg, cleared, Fired(key));
      assert |it.patterns| == 1 ==> r.fanin - {key} == r.fanin;
      var fired := cleared.(history := r.history + [Fired(key)]);
      assert TryFire(cfg, r, it, key) == fired.(tasks := Add(r.tasks, it.name));
    }
  }

  lemma ReadyIsPending(cfg: Config, h: seq<Obs>, it: Item, key: Key, seen: set<Kind>)
    requires Ready(cfg, it, seen) && seen <= Recent(h, key)
    ensures forall p :: p in it.patterns ==> Pending(cfg, h, key, p)
  {
    forall p | p in it.patterns
      ensures Pending(cfg, h, key, p)
    {
      var i :| 0 <= i < |it.patterns| && it.patterns[i] == p;
      assert Satisfied(cfg, seen, it.patterns[i]);
    }
  }

  lemma RecordInv(cfg: Config, r: Runner, it: Item, key: Key, kind: Kind, now: int)
    requires FaninInv(r) && WitnessInv(cfg, r) && it in r.items && key.path == it.path && |it.patterns| != 1
    ensures var kept := Runner(r.items, r.fanin[key := Record(r.fanin, key, kind, now)], r.tasks,
                               r.history + [Saw(key, kind)]);
            && FaninInv(kept) && WitnessInv(cfg, kept)
            && kept.fanin[key].seen <= Recent(kept.history, key)
  {
    ObserveInv(cfg, r, Saw(key, kind));
    Snoc(cfg, r.history, Saw(key, kind), key, "");
  }

  lemma NotifyItemInv(cfg: Config, r: Runner, it: Item, ev: Event, now: int)
    requires FaninInv(r) && WitnessInv(cfg, r) && it in r.items
    ensures FaninInv(NotifyItem(cfg, r, it, ev, now)) && WitnessInv(cfg, NotifyItem(cfg, r, it, ev, now))
  {
    if Eligible(cfg, it, ev) {
      var key := Key(it.path, ev.session);
      if |it.patterns| == 1 {
        var seen := r.(history := r.history + [Saw(key, ev.kind)]);
        ObserveInv(cfg, r, Saw(key, ev.kind));
        Snoc(cfg, r.history, Saw(key, ev.kind), key, "");
        ReadyIsPending(cfg, seen.history, it, key, {ev.kind});
        FireInv(cfg, seen, it, key);
      } else {
        var entry := Record(r.fanin, key, ev.kind, now);
        var kept := Runner(r.items, r.fanin[key := entry], r.tasks, r.history + [Saw(key, ev.kind)]);
        RecordInv(cfg, r, it, key, ev.kind, now);
        if Ready(cfg, it, entry.seen) {
          ReadyIsPending(cfg, kept.history, it, key, entry.seen);
          FireInv(cfg, kept, it, key);
        }
      }
    }
  }

  lemma {:induction false} NotifyAllInv(
    cfg: Config, r: Runner, items: seq<Item>, ev: Event, clock: nat -> int, i: nat)
    requires FaninInv(r) && WitnessInv(cfg, r) && forall x :: x in items ==> x in r.items
    ensures FaninInv(NotifyAll(cfg, r, items, ev, clock, i))
    ensures WitnessInv(cfg, NotifyAll(cfg, r, items, ev, clock, i))
    ensures NotifyAll(cfg, r, items, ev, clock, i).items == r.items
    decreases items
  {
    if items != [] {
      NotifyItemInv(cfg, r, items[0], ev, clock(i));
      NotifyAllInv(cfg, NotifyItem(cfg, r, items[0], ev, clock(i)), items[1..], ev, clock, i + 1);
    }
  }

  lemma {:induction false} WithoutIn(items: seq<Item>, path: string, x: Item)
    ensures x in Without(items, path) <==> x in items && x.path != path
  {
    if items != [] {
      WithoutIn(items[1..], path, x);
    }
  }

  lemma UnregisteredInv(cfg: Config, r: Runner, path: string)
    requires FaninInv(r) && WitnessInv(cfg, r)
    ensures FaninInv(Unregistered(r, path)) && WitnessInv(cfg, Unregistered(r, path))
    ensures forall x :: x in Unregistered(r, path).items <==> x in r.items && x.path != path
    ensures forall key :: key in Unregistered(r, path).fanin <==> key in r.fanin && key.path != path
  {
    var u := Unregistered(r, path);
    forall x
      ensures x in u.items <==> x in r.items && x.path != path
    {
      WithoutIn(r.items, path, x);
    }
    forall key | key in r.fanin && key.path == path
      ensures key !in u.fanin
    {
      var x :| x in r.items && x.path == key.path;
      var i :| 0 <= i < |r.items| && r.items[i] == x;
    }
    forall key | key in u.fanin
      ensures u.fanin[key].seen <= Recent(u.history, key)
    {
      Snoc(cfg, r.history, Reset(path), key, "");
    }
    forall it, s, p | it in u.items && p in it.patterns
      ensures Witnessed(cfg, u.history, Key(it.path, s), p)
    {
      Snoc(cfg, r.history, Reset(path), Key(it.path, s), p);
    }
  }

  lemma RegisterInv(cfg: Config, r: Runner, it: Item)
    requires FaninInv(r) && WitnessInv(cfg, r)
    ensures FaninInv(Step(cfg, r, Register(it))) && WitnessInv(cfg, Step(cfg, r, Register(it)))
  {
    UnregisteredInv(cfg, r, it.path);
    var u := Unregistered(r, it.path);
    forall s, p
      ensures Witnessed(cfg, u.history, Key(it.path, s), p)
    {
      Snoc(cfg, r.history, Reset(it.path), Key(it.path, s), p);
    }
  }

  lemma EvictInv(cfg: Config, r: Runner, now: int)
    requires FaninInv(r) && WitnessInv(cfg, r)
    ensures FaninInv(Evict(cfg, r, now)) && WitnessInv(cfg, Evict(cfg, r, now))
  {
    if cfg.ttl > 0 {
      var kept := r.(fanin := Evict(cfg, r, now).fanin);
      assert FaninInv(kept) && WitnessInv(cfg, kept);
      ObserveInv(cfg, kept, Evict(cfg, r, now).history[|r.history|]);
    }
  }

  lemma {:induction false} RunFaninInv(cfg: Config, r: Runner, actions: seq<Action>)
    requires FaninInv(r) && WitnessInv(cfg, r)
    ensures FaninInv(Run(cfg, r, actions)) && WitnessInv(cfg, Run(cfg, r, actions))
    decreases actions
  {
    if actions != [] {
      match actions[0] {
        case Notify(ev, now, clock) =>
          EvictInv(cfg, r, now);
          NotifyAllInv(cfg, Evict(cfg, r, now), r.items, ev, clock, 0);
        case Done(_) =>
        case Register(it) => RegisterInv(cfg, r, it);
        case Unregister(path) => UnregisteredInv(cfg, r, path);
      }
      RunFaninInv(cfg, Step(cfg, r, actions[0]), actions[1..]);
    }
  }

  /** In every run and for every session, each fire of a registered continuation since its registration has, for
      each of its patterns, an eligible event of its own that matches it and is later than the fire before; so
      it has fired no more often than any one of its patterns was matched. */
  lemma FiresNeverExceedMatches(cfg: Config, actions: seq<Action>, it: Item, session: string, p: Pattern)
    requires it in Run(cfg, START, actions).items && p in it.patterns
    ensures var h, key := Run(cfg, START, actions).history, Key(it.path, session);
            Witnessed(cfg, h, key, p) && FireCount(h, key) <= MatchCount(cfg, h, key, p)
  {
    RunFaninInv(cfg, START, actions);
    WitnessedCount(cfg, Run(cfg, START, actions).history, Key(it.path, session), p);
  }

  /** The history tells the truth about a notify: one match per eligible item, and a fire exactly when a task was
      created, under that item's name. */
  lemma NotifyItemRecords(cfg: Config, r: Runner, it: Item, ev: Event, now: int)
    ensures var r' := NotifyItem(cfg, r, it, ev, now);
            var key := Key(it.path, ev.session);
            && r'.history == r.history + (if Eligible(cfg, it, ev) then [Saw(key, ev.kind)] else [])
                             + (if r'.tasks.next != r.tasks.next then [Fired(key)] else [])
            && (r'.tasks.next != r.tasks.next ==> Eligible(cfg, it, ev) && r'.tasks == Add(r.tasks, it.name))
  {
  }

  // ---------- lifetime ----------

  /** An entry's timestamp is at most one TTL (and one notify's lag) past its creation for every kind beyond the
      first that it has seen. */
  ghost predicate LifeInv(cfg: Config, r: Runner, lag: nat)
  {
    forall key :: key in r.fanin ==>
      && r.fanin[key].seen != {}
      && r.fanin[key].ts <= r.fanin[key].created + (|r.fanin[key].seen| - 1) * (cfg.ttl + lag)
  }

  ghost predicate NoneBefore(r: Runner, t: int)
  {
    forall key :: key in r.fanin ==> r.fanin[key].ts >= t
  }

  /** All readings of one notify are within `lag` of the one that evicts. */
  ghost predicate WithinLag(clock: nat -> int, now: int, lag: nat)
  {
    forall i :: now <= clock(i) <= now + lag
  }

  lemma RecordLife(cfg: Config, r: Runner, key: Key, kind: Kind, stamp: int, now: int, lag: nat)
    requires cfg.ttl > 0 && LifeInv(cfg, r, lag) && NoneBefore(r, now - cfg.ttl) && now <= stamp <= now + lag
    ensures var e := Record(r.fanin, key, kind, stamp);
            && e.seen != {} && e.ts <= e.created + (|e.seen| - 1) * (cfg.ttl + lag)
            && e.ts >= now - cfg.ttl
  {
    if key in r.fanin && kind !in r.fanin[key].seen {
      var e, w := r.fanin[key], cfg.ttl + lag;
      assert |e.seen + {kind}| == |e.seen| + 1;
      assert (|e.seen| - 1) * w + w == |e.seen| * w;
    }
  }

  lemma NotifyItemLife(cfg: Config, r: Runner, it: Item, ev: Event, stamp: int, now: int, lag: nat)
    requires cfg.ttl > 0 && LifeInv(cfg, r, lag) && NoneBefore(r, now - cfg.ttl) && now <= stamp <= now + lag
    ensures LifeInv(cfg, NotifyItem(cfg, r, it, ev, stamp), lag)
    ensures NoneBefore(NotifyItem(cfg, r, it, ev, stamp), now - cfg.ttl)
  {
    var key := Key(it.path, ev.session);
    var r' := NotifyItem(cfg, r, it, ev, stamp);
    RecordLife(cfg, r, key, ev.kind, stamp, now, lag);
    forall k | k in r'.fanin
      ensures || (k == key && r'.fanin[k] == Record(r.fanin, key, ev.kind, stamp))
              || (k in r.fanin && r'.fanin[k] == r.fanin[k])
    {
    }
  }

  lemma {:induction false} NotifyAllLife(
    cfg: Config, r: Runner, items: seq<Item>, ev: Event, clock: nat -> int, i: nat, now: int, lag: nat)
    requires cfg.ttl > 0 && LifeInv(cfg, r, lag) && NoneBefore(r, now - cfg.ttl) && WithinLag(clock, now, lag)
    ensures LifeInv(cfg, NotifyAll(cfg, r, items, ev, clock, i), lag)
    decreases items
  {
    if items != [] {
      NotifyItemLife(cfg, r, items[0], ev, clock(i), now, lag);
      NotifyAllLife(cfg, NotifyItem(cfg, r, items[0], ev, clock(i)), items[1..], ev, clock, i + 1, now, lag);
    }
  }

  lemma {:induction false} RunLife(cfg: Config, r: Runner, actions: seq<Action>, lag: nat)
    requires cfg.ttl > 0 && LifeInv(cfg, r, lag)
    requires forall a :: a in actions && a.Notify? ==> WithinLag(a.clock, a.now, lag)
    ensures LifeInv(cfg, Run(cfg, r, actions), lag)
    decreases actions
  {
    if actions != [] {
      assert actions[0] in actions;
      if actions[0].Notify? {
        var a := actions[0];
        var e := Evict(cfg, r, a.now);
        assert LifeInv(cfg, e, lag) && NoneBefore(e, a.now - cfg.ttl);
        NotifyAllLife(cfg, e, r.items, a.ev, a.clock, 0, a.now, lag);
      }
      assert LifeInv(cfg, Step(cfg, r, actions[0]), lag);
      RunLife(cfg, Step(cfg, r, actions[0]), actions[1..], lag);
    }
  }

  /** However often kinds it has already seen repeat, an entry that has seen d kinds is evicted by the first
      notify later than its creation plus d TTLs, when each notify reads the clock once; with readings up to
      `lag` apart, plus d - 1 lags. */
  lemma FaninLifetime(cfg: Config, actions: seq<Action>, lag: nat, key: Key, now: int)
    requires cfg.ttl > 0
    requires forall a :: a in actions && a.Notify? ==> WithinLag(a.clock, a.now, lag)
    requires key in Run(cfg, START, actions).fanin
    requires var e := Run(cfg, START, actions).fanin[key];
             now > e.created + |e.seen| * cfg.ttl + (|e.seen| - 1) * lag
    ensures key !in Evict(cfg, Run(cfg, START, actions), now).fanin
  {
    RunLife(cfg, START, actions, lag);
    var e := Run(cfg, START, actions).fanin[key];
    var d, t := |e.seen|, cfg.ttl;
    assert (d - 1) * (t + lag) == (d - 1) * t + (d - 1) * lag;
    assert (d - 1) * t == d * t - t;
  }

  // ---------- caps ----------

  ghost predicate CapsHold(cfg: Config, tasks: Tracked, n: Name, c: nat)
  {
    && Sound(tasks)
    && (cfg.globalCap > 0 ==> |tasks.active| <= cfg.globalCap)
    && |InFlight(tasks, n)| <= c
  }

  lemma TryFireCaps(cfg: Config, r: Runner, it: Item, key: Key, n: Name, c: nat)
    requires CapsHold(cfg, r.tasks, n, c) && (it.name == n ==> it.maxFires <= c)
    ensures CapsHold(cfg, TryFire(cfg, r, it, key).tasks, n, c)
  {
    if Room(cfg, r.tasks, it) {
      AddSound(r.tasks, it.name);
    } else {
      SetDefaultSound(r.tasks, it.name);
    }
  }

  /** What the caps promise: a positive global cap bounds the fires in flight, and a name whose registrations all
      ask for at most c has at most c. */
  ghost predicate CapInv(cfg: Config, r: Runner, n: Name, c: nat)
  {
    CapsHold(cfg, r.tasks, n, c) && forall it :: it in r.items && it.name == n ==> it.maxFires <= c
  }

  lemma NotifyItemCaps(cfg: Config, r: Runner, it: Item, ev: Event, now: int, n: Name, c: nat)
    requires CapInv(cfg, r, n, c) && it in r.items
    ensures CapInv(cfg, NotifyItem(cfg, r, it, ev, now), n, c)
    ensures NotifyItem(cfg, r, it, ev, now).items == r.items
  {
    if Eligible(cfg, it, ev) {
      var key := Key(it.path, ev.session);
      var seen := r.(history := r.history + [Saw(key, ev.kind)]);
      TryFireCaps(cfg, seen, it, key, n, c);
      TryFireCaps(cfg, seen.(fanin := r.fanin[key := Record(r.fanin, key, ev.kind, now)]), it, key, n, c);
    }
  }

  lemma {:induction false} NotifyAllCaps(
    cfg: Config, r: Runner, items: seq<Item>, ev: Event, clock: nat -> int, i: nat, n: Name, c: nat)
    requires CapInv(cfg, r, n, c) && forall x :: x in items ==> x in r.items
    ensures CapInv(cfg, NotifyAll(cfg, r, items, ev, clock, i), n, c)
    decreases items
  {
    if items != [] {
      NotifyItemCaps(cfg, r, items[0], ev, clock(i), n, c);
      NotifyAllCaps(cfg, NotifyItem(cfg, r, items[0], ev, clock(i)), items[1..], ev, clock, i + 1, n, c);
    }
  }

  lemma UnregisteredItems(r: Runner, path: string)
    ensures forall x :: x in Unregistered(r, path).items ==> x in r.items
  {
    forall x
      ensures x in Unregistered(r, path).items ==> x in r.items
    {
      WithoutIn(r.items, path, x);
    }
  }

  lemma {:induction false} RunCaps(cfg: Config, r: Runner, actions: seq<Action>, n: Name, c: nat)
    requires CapInv(cfg, r, n, c)
    requires forall a :: a in actions && a.Register? && a.it.name == n ==> a.it.maxFires <= c
    ensures CapInv(cfg, Run(cfg, r, actions), n, c)
    decreases actions
  {
    if actions != [] {
      var a := actions[0];
      assert a in actions;
      match a {
        case Notify(ev, now, clock) => NotifyAllCaps(cfg, Evict(cfg, r, now), r.items, ev, clock, 0, n, c);
        case Done(t) =>
          if t in r.tasks.active {
            RemoveSound(r.tasks, t);
            SubsetSize(r.tasks.active - {t}, r.tasks.active);
            SubsetSize(InFlight(r.tasks, n) - {t}, InFlight(r.tasks, n));
          }
        case Register(it) => UnregisteredItems(r, it.path);
        case Unregister(path) => UnregisteredItems(r, path);
      }
      RunCaps(cfg, Step(cfg, r, a), actions[1..], n, c);
    }
  }

  /** In every run the fires in flight stay within a positive global cap, and within c for a name whose
      registrations all ask for at most c; and the per-name sets partition the active set. */
  lemma FiresWithinCaps(cfg: Config, actions: seq<Action>, n: Name, c: nat)
    requires forall a :: a in actions && a.Register? && a.it.name == n ==> a.it.maxFires <= c
    ensures var r := Run(cfg, START, actions);
            && Partition(r.tasks)
            && (cfg.globalCap > 0 ==> |r.tasks.active| <= cfg.globalCap)
            && |InFlight(r.tasks, n)| <= c
  {
    RunCaps(cfg, START, actions, n, c);
  }

  /** A fire that the item's own cap sheds, when that cap is not positive and the name has no set yet: the set made
      for the check stays behind empty. */
  predicate LeavesEmptySet(cfg: Config, r: Runner, it: Item)
  {
    && it.maxFires <= 0
    && it.name !in r.tasks.byName
    && (cfg.globalCap > 0 ==> |r.tasks.active| < cfg.globalCap)
  }

  /** The "drop it when empty" promise of the per-name sets is broken by that branch only. */
  lemma EmptySetsExactly(cfg: Config, r: Runner, it: Item, key: Key)
    requires Sound(r.tasks) && NoEmptySets(r.tasks)
    ensures NoEmptySets(TryFire(cfg, r, it, key).tasks) <==> !LeavesEmptySet(cfg, r, it)
  {
    AddSound(r.tasks, it.name);
    if !Room(cfg, r.tasks, it) && !(cfg.globalCap > 0 && |r.tasks.active| >= cfg.globalCap) {
      assert it.name in TryFire(cfg, r, it, key).tasks.byName;
    }
  }

  lemma TryFireSound(cfg: Config, r: Runner, it: Item, key: Key)
    requires Sound(r.tasks)
    ensures Sound(TryFire(cfg, r, it, key).tasks)
    ensures TryFire(cfg, r, it, key).items == r.items
  {
    if Room(cfg, r.tasks, it) {
      AddSound(r.tasks, it.name);
    } else {
      SetDefaultSound(r.tasks, it.name);
    }
  }

  /** Every registered continuation may fire at least once at a time, and no per-name set is empty. */
  ghost predicate SetsInv(r: Runner)
  {
    Sound(r.tasks) && NoEmptySets(r.tasks) && forall it :: it in r.items ==> it.maxFires >= 1
  }

  lemma TryFireSets(cfg: Config, r: Runner, it: Item, key: Key)
    requires SetsInv(r) && it.maxFires >= 1
    ensures SetsInv(TryFire(cfg, r, it, key))
  {
    EmptySetsExactly(cfg, r, it, key);
    TryFireSound(cfg, r, it, key);
  }

  lemma NotifyItemSets(cfg: Config, r: Runner, it: Item, ev: Event, now: int)
    requires SetsInv(r) && it.maxFires >= 1
    ensures SetsInv(NotifyItem(cfg, r, it, ev, now))
    ensures NotifyItem(cfg, r, it, ev, now).items == r.items
  {
    if Eligible(cfg, it, ev) {
      var key := Key(it.path, ev.session);
      var seen := r.(history := r.history + [Saw(key, ev.kind)]);
      TryFireSets(cfg, seen, it, key);
      TryFireSets(cfg, seen.(fanin := r.fanin[key := Record(r.fanin, key, ev.kind, now)]), it, key);
    }
  }

  lemma {:induction false} NotifyAllSets(
    cfg: Config, r: Runner, items: seq<Item>, ev: Event, clock: nat -> int, i: nat)
    requires SetsInv(r) && forall x :: x in items ==> x.maxFires >= 1
    ensures SetsInv(NotifyAll(cfg, r, items, ev, clock, i))
    decreases items
  {
    if items != [] {
      NotifyItemSets(cfg, r, items[0], ev, clock(i));
      NotifyAllSets(cfg, NotifyItem(cfg, r, items[0], ev, clock(i)), items[1..], ev, clock, i + 1);
    }
  }

  lemma {:induction false} RunSets(cfg: Config, r: Runner, actions: seq<Action>)
    requires SetsInv(r) && forall a :: a in actions && a.Register? ==> a.it.maxFires >= 1
    ensures SetsInv(Run(cfg, r, actions))
    decreases actions
  {
    if actions != [] {
      var a := actions[0];
      assert a in actions;
      match a {
        case Notify(ev, now, clock) => NotifyAllSets(cfg, Evict(cfg, r, now), r.items, ev, clock, 0);
        case Done(t) =>
          if t in r.tasks.active {
            RemoveSound(r.tasks, t);
          }
        case Register(it) => UnregisteredItems(r, it.path);
        case Unregister(path) => UnregisteredItems(r, path);
      }
      RunSets(cfg, Step(cfg, r, a), actions[1..]);
    }
  }

  /** In every run whose registrations all allow at least one fire, no per-name set is ever left empty. */
  lemma NoEmptySetsInRuns(cfg: Config, actions: seq<Action>)
    requires forall a :: a in actions && a.Register? ==> a.it.maxFires >= 1
    ensures NoEmptySets(Run(cfg, START, actions).tasks)
  {
    RunSets(cfg, START, actions);
  }

  /** The event makes the item try to fire, and the try leaves an empty set. */
  predicate ItemLeavesEmptySet(cfg: Config, r: Runner, it: Item, ev: Event, now: int)
  {
    && Eligible(cfg, it, ev)
    && (|it.patterns| == 1 || Ready(cfg, it, Record(r.fanin, Key(it.path, ev.session), ev.kind, now).seen))
    && LeavesEmptySet(cfg, r, it)
  }

  lemma NotifyItemSetsExactly(cfg: Config, r: Runner, it: Item, ev: Event, now: int)
    requires Sound(r.tasks) && NoEmptySets(r.tasks)
    ensures Sound(NotifyItem(cfg, r, it, ev, now).tasks)
    ensures NoEmptySets(NotifyItem(cfg, r, it, ev, now).tasks) <==> !ItemLeavesEmptySet(cfg, r, it, ev, now)
  {
    var key := Key(it.path, ev.session);
    var seen := r.(history := r.history + [Saw(key, ev.kind)]);
    var kept := seen.(fanin := r.fanin[key := Record(r.fanin, key, ev.kind, now)]);
    TryFireSound(cfg, seen, it, key);
    TryFireSound(cfg, kept, it, key);
    EmptySetsExactly(cfg, seen, it, key);
    EmptySetsExactly(cfg, kept, it, key);
  }

  /** Some item of this notify leaves an empty set. */
  predicate SomeItemLeavesEmptySet(
    cfg: Config, r: Runner, items: seq<Item>, ev: Event, clock: nat -> int, i: nat)
    decreases items
  {
    items != []
    && (|| ItemLeavesEmptySet(cfg, r, items[0], ev, clock(i))
        || SomeItemLeavesEmptySet(cfg, NotifyItem(cfg, r, items[0], ev, clock(i)), items[1..], ev, clock, i + 1))
  }

  /** No per-name set is empty before, between and after the items of this notify. */
  ghost predicate NoEmptySetsDuring(
    cfg: Config, r: Runner, items: seq<Item>, ev: Event, clock: nat -> int, i: nat)
    decreases items
  {
    && NoEmptySets(r.tasks)
    && (items != [] ==>
          NoEmptySetsDuring(cfg, NotifyItem(cfg, r, items[0], ev, clock(i)), items[1..], ev, clock, i + 1))
  }

  lemma {:induction false} NotifyAllSetsExactly(
    cfg: Config, r: Runner, items: seq<Item>, ev: Event, clock: nat -> int, i: nat)
    requires Sound(r.tasks) && NoEmptySets(r.tasks)
    ensures NoEmptySetsDuring(cfg, r, items, ev, clock, i) <==> !SomeItemLeavesEmptySet(cfg, r, items, ev, clock, i)
    ensures NoEmptySetsDuring(cfg, r, items, ev, clock, i) ==>
              var t := NotifyAll(cfg, r, items, ev, clock, i).tasks;
              Sound(t) && NoEmptySets(t)
    decreases items
  {
    if items != [] {
      var next := NotifyItem(cfg, r, items[0], ev, clock(i));
      NotifyItemSetsExactly(cfg, r, items[0], ev, clock(i));
      if NoEmptySets(next.tasks) {
        NotifyAllSetsExactly(cfg, next, items[1..], ev, clock, i + 1);
      }
    }
  }

  /** Some item of some notify of the run leaves an empty set. */
  predicate SomeNotifyLeavesEmptySet(cfg: Config, r: Runner, actions: seq<Action>)
    decreases actions
  {
    actions != []
    && (|| (match actions[0]
            case Notify(ev, now, clock) => SomeItemLeavesEmptySet(cfg, Evict(cfg, r, now), r.items, ev, clock, 0)
            case _ => false)
        || SomeNotifyLeavesEmptySet(cfg, Step(cfg, r, actions[0]), actions[1..]))
  }

  /** No per-name set is empty in any state of the run, those inside its notifies included. */
  ghost predicate NoEmptySetsThroughout(cfg: Config, r: Runner, actions: seq<Action>)
    decreases actions
  {
    && NoEmptySets(r.tasks)
    && (actions != [] ==>
          && (match actions[0]
              case Notify(ev, now, clock) => NoEmptySetsDuring(cfg, Evict(cfg, r, now), r.items, ev, clock, 0)
              case _ => true)
          && NoEmptySetsThroughout(cfg, Step(cfg, r, actions[0]), actions[1..]))
  }

  /** The actions that are no notify leave no set empty. */
  lemma StepSets(cfg: Config, r: Runner, a: Action)
    requires Sound(r.tasks) && NoEmptySets(r.tasks) && !a.Notify?
    ensures Sound(Step(cfg, r, a).tasks) && NoEmptySets(Step(cfg, r, a).tasks)
  {
    if a.Done? && a.t in r.tasks.active {
      RemoveSound(r.tasks, a.t);
    }
  }

  lemma {:induction false} RunSetsExactly(cfg: Config, r: Runner, actions: seq<Action>)
    requires Sound(r.tasks) && NoEmptySets(r.tasks)
    ensures NoEmptySetsThroughout(cfg, r, actions) <==> !SomeNotifyLeavesEmptySet(cfg, r, actions)
    decreases actions
  {
    if actions != [] {
      var next := Step(cfg, r, actions[0]);
      match actions[0] {
        case Notify(ev, now, clock) =>
          NotifyAllSetsExactly(cfg, Evict(cfg, r, now), r.items, ev, clock, 0);
          if NoEmptySetsDuring(cfg, Evict(cfg, r, now), r.items, ev, clock, 0) {
            RunSetsExactly(cfg, next, actions[1..]);
          }
        case _ =>
          StepSets(cfg, r, actions[0]);
          RunSetsExactly(cfg, next, actions[1..]);
      }
    }
  }

  /** No per-name set is ever left empty, at any point of a run, if and only if no event of the run makes an item try
      to fire whose cap is not positive, whose name has no set, and which the global cap lets through. */
  lemma NoEmptySetsExactly(cfg: Config, actions: seq<Action>)
    ensures NoEmptySetsThroughout(cfg, START, actions) <==> !SomeNotifyLeavesEmptySet(cfg, START, actions)
  {
    RunSetsExactly(cfg, START, actions);
  }

  /** With a cap that is not positive one event is enough to leave an empty set behind. */
  lemma NonPositiveCapLeavesEmptySet(cfg: Config, it: Item, ev: Event, now: int, clock: nat -> int)
    requires it.maxFires <= 0 && |it.patterns| == 1 && Eligible(cfg, it, ev)
    ensures Run(cfg, START, [Register(it), Notify(ev, now, clock)]).tasks.byName == map[it.name := {}]
  {
    var actions := [Register(it), Notify(ev, now, clock)];
    assert actions[1..] == [Notify(ev, now, clock)] && actions[1..][1..] == [];
    var r := Step(cfg, START, Register(it));
    assert r.items == [it] by {
      assert [] + [it] == [it];
    }
    var s := NotifyItem(cfg, Evict(cfg, r, now), it, ev, clock(0));
    assert [it][1..] == [];
    assert NotifyAll(cfg, Evict(cfg, r, now), [it], ev, clock, 0) == NotifyAll(cfg, s, [], ev, clock, 1);
    assert Run(cfg, r, [Notify(ev, now, clock)]) == Run(cfg, Step(cfg, r, Notify(ev, now, clock)), []);
  }

  // ---------- what a step does, exactly ----------

  /** An entry goes exactly when a TTL is on and it was not refreshed within it; the others stay as they are. */
  lemma EvictedExactly(cfg: Config, r: Runner, now: int, key: Key)
    ensures key in Evict(cfg, r, now).fanin <==>
              key in r.fanin && (cfg.ttl <= 0 || now <= r.fanin[key].ts + cfg.ttl)
    ensures key in Evict(cfg, r, now).fanin ==> Evict(cfg, r, now).fanin[key] == r.fanin[key]
    ensures Evict(cfg, r, now).items == r.items && Evict(cfg, r, now).tasks == r.tasks
  {
  }

  /** What an eligible event leaves of the fan-in state: nothing under its key after a fire; otherwise an entry whose
      timestamp is this turn's clock reading if the kind is new to it, and the old one if not. Other keys keep
      theirs, and a continuation with one pattern has none. */
  lemma RefreshedExactly(cfg: Config, r: Runner, it: Item, ev: Event, now: int)
    requires Eligible(cfg, it, ev)
    ensures var r', key := NotifyItem(cfg, r, it, ev, now), Key(it.path, ev.session);
            if |it.patterns| == 1 then r'.fanin == r.fanin
            else
              && r'.fanin - {key} == r.fanin - {key}
              && (key in r'.fanin <==> r'.tasks.next == r.tasks.next)
              && (key in r'.fanin ==>
                    r'.fanin[key] ==
                    if key !in r.fanin then Entry(now, {ev.kind}, now)
                    else if ev.kind in r.fanin[key].seen then r.fanin[key]
                    else Entry(now, r.fanin[key].seen + {ev.kind}, r.fanin[key].created))
  {
    var r', key := NotifyItem(cfg, r, it, ev, now), Key(it.path, ev.session);
    assert (r.fanin[key := Record(r.fanin, key, ev.kind, now)]) - {key} == r.fanin - {key};
  }

  /** A registration replaces whatever was registered for the path and touches nothing else. */
  lemma RegisteredExactly(cfg: Config, r: Runner, it: Item, x: Item)
    ensures x in Step(cfg, r, Register(it)).items <==> x == it || (x in r.items && x.path != it.path)
    ensures x in Step(cfg, r, Unregister(it.path)).items <==> x in r.items && x.path != it.path
  {
    WithoutIn(r.items, it.path, x);
  }

  /** A finished fire leaves the active set and its name's set, and only it does. */
  lemma DoneFreesRoom(cfg: Config, r: Runner, t: TaskId)
    requires Sound(r.tasks) && t in r.tasks.active
    ensures Step(cfg, r, Done(t)).tasks.active == r.tasks.active - {t}
    ensures forall m :: InFlight(Step(cfg, r, Done(t)).tasks, m) == InFlight(r.tasks, m) - {t}
  {
    RemoveSound(r.tasks, t);
  }

  function Seen(fanin: map<Key, Entry>, key: Key): set<Kind>
  {
    if key in fanin then fanin[key].seen else {}
  }

  predicate DistinctPaths(items: seq<Item>)
  {
    forall i, j :: 0 <= i < j < |items| ==> items[i].path != items[j].path
  }

  /** A fan-in holds exactly the kinds matched since its last fire, eviction or registration. */
  ghost predicate SeenExactly(r: Runner)
  {
    && DistinctPaths(r.items)
    && (forall key :: key in r.fanin ==> exists x :: x in r.items && x.path == key.path && |x.patterns| != 1)
    && (forall it, s :: it in r.items && |it.patterns| != 1 ==>
          Seen(r.fanin, Key(it.path, s)) == Recent(r.history, Key(it.path, s)))
  }

  lemma SamePath(items: seq<Item>, x: Item, y: Item)
    requires DistinctPaths(items) && x in items && y in items && x.path == y.path
    ensures x == y
  {
    var i :| 0 <= i < |items| && items[i] == x;
    var j :| 0 <= j < |items| && items[j] == y;
    assert i == j;
  }

  /** What the records of a turn make of the recent kinds. */
  lemma RecentAfterTurn(cfg: Config, h: seq<Obs>, mine: Key, kind: Kind, eligible: bool, fired: bool, key: Key)
    ensures var after := h + (if eligible then [Saw(mine, kind)] else []) + (if fired then [Fired(mine)] else []);
            Recent(after, key) ==
            if key != mine then Recent(h, key)
            else if fired then {}
            else if eligible then Recent(h, key) + {kind} else Recent(h, key)
  {
    var saw := h + if eligible then [Saw(mine, kind)] else [];
    Snoc(cfg, h, Saw(mine, kind), key, "");
    Snoc(cfg, saw, Fired(mine), key, "");
    AppendNothing(h);
    AppendNothing(saw);
  }

  /** A turn does nothing to another item's or session's key, ... */
  lemma OtherKeySeen(cfg: Config, r: Runner, it: Item, ev: Event, now: int, key: Key)
    requires key != Key(it.path, ev.session)
    ensures var r' := NotifyItem(cfg, r, it, ev, now);
            Seen(r'.fanin, key) == Seen(r.fanin, key) && Recent(r'.history, key) == Recent(r.history, key)
  {
    var r' := NotifyItem(cfg, r, it, ev, now);
    NotifyItemRecords(cfg, r, it, ev, now);
    RecentAfterTurn(cfg, r.history, Key(it.path, ev.session), ev.kind, Eligible(cfg, it, ev),
                    r'.tasks.next != r.tasks.next, key);
  }

  lemma TurnEntry(cfg: Config, r: Runner, it: Item, ev: Event, now: int)
    requires |it.patterns| != 1
    ensures var r', key := NotifyItem(cfg, r, it, ev, now), Key(it.path, ev.session);
            Seen(r'.fanin, key) ==
            if r'.tasks.next != r.tasks.next then {}
            else if Eligible(cfg, it, ev) then Seen(r.fanin, key) + {ev.kind} else Seen(r.fanin, key)
  {
    var key := Key(it.path, ev.session);
    assert Record(r.fanin, key, ev.kind, now).seen == Seen(r.fanin, key) + {ev.kind};
  }

  /** ... and keeps its own item's entry equal to the recent kinds. */
  lemma OwnKeySeen(cfg: Config, r: Runner, it: Item, ev: Event, now: int)
    requires |it.patterns| != 1
    requires Seen(r.fanin, Key(it.path, ev.session)) == Recent(r.history, Key(it.path, ev.session))
    ensures var r', key := NotifyItem(cfg, r, it, ev, now), Key(it.path, ev.session);
            Seen(r'.fanin, key) == Recent(r'.history, key)
  {
    var r', key := NotifyItem(cfg, r, it, ev, now), Key(it.path, ev.session);
    TurnEntry(cfg, r, it, ev, now);
    NotifyItemRecords(cfg, r, it, ev, now);
    RecentAfterTurn(cfg, r.history, key, ev.kind, Eligible(cfg, it, ev), r'.tasks.next != r.tasks.next, key);
  }

  lemma NotifyItemSeen(cfg: Config, r: Runner, it: Item, ev: Event, now: int)
    requires SeenExactly(r) && it in r.items
    ensures SeenExactly(NotifyItem(cfg, r, it, ev, now))
    ensures NotifyItem(cfg, r, it, ev, now).items == r.items
  {
    var r' := NotifyItem(cfg, r, it, ev, now);
    forall x, s | x in r.items && |x.patterns| != 1
      ensures Seen(r'.fanin, Key(x.path, s)) == Recent(r'.history, Key(x.path, s))
    {
      if x.path == it.path {
        SamePath(r.items, x, it);
      }
      assert Seen(r.fanin, Key(x.path, s)) == Recent(r.history, Key(x.path, s));
      if Key(x.path, s) == Key(it.path, ev.session) {
        OwnKeySeen(cfg, r, it, ev, now);
      } else {
        OtherKeySeen(cfg, r, it, ev, now, Key(x.path, s));
      }
    }
    assert forall key :: key in r'.fanin ==> key in r.fanin || (key.path == it.path && |it.patterns| != 1);
  }

  lemma {:induction false} NotifyAllSeen(
    cfg: Config, r: Runner, items: seq<Item>, ev: Event, clock: nat -> int, i: nat)
    requires SeenExactly(r) && forall x :: x in items ==> x in r.items
    ensures SeenExactly(NotifyAll(cfg, r, items, ev, clock, i))
    ensures NotifyAll(cfg, r, items, ev, clock, i).items == r.items
    decreases items
  {
    if items != [] {
      NotifyItemSeen(cfg, r, items[0], ev, clock(i));
      NotifyAllSeen(cfg, NotifyItem(cfg, r, items[0], ev, clock(i)), items[1..], ev, clock, i + 1);
    }
  }

  lemma EvictSeen(cfg: Config, r: Runner, now: int)
    requires SeenExactly(r)
    ensures SeenExactly(Evict(cfg, r, now))
  {
    if cfg.ttl > 0 {
      var e := Evict(cfg, r, now);
      forall x, s | x in r.items && |x.patterns| != 1
        ensures Seen(e.fanin, Key(x.path, s)) == Recent(e.history, Key(x.path, s))
      {
        Snoc(cfg, r.history, e.history[|r.history|], Key(x.path, s), "");
        assert Seen(r.fanin, Key(x.path, s)) == Recent(r.history, Key(x.path, s));
      }
    }
  }

  lemma {:induction false} WithoutDistinct(items: seq<Item>, path: string)
    requires DistinctPaths(items)
    ensures DistinctPaths(Without(items, path))
  {
    if items != [] {
      var rest := items[1..];
      assert DistinctPaths(rest) by {
        assert forall i :: 0 <= i < |rest| ==> rest[i] == items[i + 1];
      }
      WithoutDistinct(rest, path);
      forall x | x in Without(rest, path)
        ensures x.path != items[0].path
      {
        WithoutIn(rest, path, x);
        var j :| 0 <= j < |rest| && rest[j] == x;
        assert items[j + 1] == x;
      }
    }
  }

  lemma UnregisteredSeen(cfg: Config, r: Runner, path: string)
    requires SeenExactly(r)
    ensures SeenExactly(Unregistered(r, path))
    ensures forall x :: x in Unregistered(r, path).items <==> x in r.items && x.path != path
    ensures forall key :: key in Unregistered(r, path).fanin ==> key.path != path
  {
    var u := Unregistered(r, path);
    WithoutDistinct(r.items, path);
    forall x
      ensures x in u.items <==> x in r.items && x.path != path
    {
      WithoutIn(r.items, path, x);
    }
    forall key | key in r.fanin && key.path == path
      ensures key !in u.fanin
    {
      var x :| x in r.items && x.path == key.path;
      var i :| 0 <= i < |r.items| && r.items[i] == x;
    }
    forall x, s | x in u.items && |x.patterns| != 1
      ensures Seen(u.fanin, Key(x.path, s)) == Recent(u.history, Key(x.path, s))
    {
      Snoc(cfg, r.history, Reset(path), Key(x.path, s), "");
      assert Seen(r.fanin, Key(x.path, s)) == Recent(r.history, Key(x.path, s));
    }
  }

  lemma RegisterSeen(cfg: Config, r: Runner, it: Item)
    requires SeenExactly(r)
    ensures SeenExactly(Step(cfg, r, Register(it)))
  {
    UnregisteredSeen(cfg, r, it.path);
    var u := Unregistered(r, it.path);
    var t := Step(cfg, r, Register(it));
    assert forall i :: 0 <= i < |u.items| ==> u.items[i] in u.items;
    forall s
      ensures Seen(t.fanin, Key(it.path, s)) == Recent(t.history, Key(it.path, s))
    {
      Snoc(cfg, r.history, Reset(it.path), Key(it.path, s), "");
    }
  }

  lemma {:induction false} RunSeen(cfg: Config, r: Runner, actions: seq<Action>)
    requires SeenExactly(r)
    ensures SeenExactly(Run(cfg, r, actions))
    decreases actions
  {
    if actions != [] {
      match actions[0] {
        case Notify(ev, now, clock) =>
          EvictSeen(cfg, r, now);
          NotifyAllSeen(cfg, Evict(cfg, r, now), r.items, ev, clock, 0);
        case Done(_) =>
        case Register(it) => RegisterSeen(cfg, r, it);
        case Unregister(path) => UnregisteredSeen(cfg, r, path);
      }
      RunSeen(cfg, Step(cfg, r, actions[0]), actions[1..]);
    }
  }

  /** When a continuation fires: it is enabled, the event has a kind it waits for and the outcome and the content it
      asks for, every pattern of its is matched by this kind or one of `recent`, and both caps have room. */
  predicate FiresNow(cfg: Config, it: Item, ev: Event, recent: set<Kind>, tasks: Tracked)
  {
    && it.enabled
    && (exists i :: 0 <= i < |it.patterns| && (it.patterns[i] == "*" || cfg.fnmatch(ev.kind, it.patterns[i])))
    && (if ev.success then it.onSuccess else it.onError)
    && (it.triggerWhen.None? || cfg.contains(it.triggerWhen.value, ev.response))
    && (forall i :: 0 <= i < |it.patterns| ==>
          it.patterns[i] == "*" || exists k :: k in recent + {ev.kind} && cfg.fnmatch(k, it.patterns[i]))
    && (cfg.globalCap <= 0 || |tasks.active| < cfg.globalCap)
    && |InFlight(tasks, it.name)| < it.maxFires
  }

  lemma MatchesSpelled(cfg: Config, it: Item, ev: Event)
    ensures Eligible(cfg, it, ev) <==>
              && it.enabled
              && (exists i :: 0 <= i < |it.patterns| && (it.patterns[i] == "*" || cfg.fnmatch(ev.kind, it.patterns[i])))
              && (if ev.success then it.onSuccess else it.onError)
              && (it.triggerWhen.None? || cfg.contains(it.triggerWhen.value, ev.response))
  {
    if exists i :: 0 <= i < |it.patterns| && Matches(cfg, ev.kind, it.patterns[i]) {
      var i :| 0 <= i < |it.patterns| && Matches(cfg, ev.kind, it.patterns[i]);
      assert it.patterns[i] == "*" || cfg.fnmatch(ev.kind, it.patterns[i]);
    }
    if exists i :: 0 <= i < |it.patterns| && (it.patterns[i] == "*" || cfg.fnmatch(ev.kind, it.patterns[i])) {
      var i :| 0 <= i < |it.patterns| && (it.patterns[i] == "*" || cfg.fnmatch(ev.kind, it.patterns[i]));
      assert Matches(cfg, ev.kind, it.patterns[i]);
    }
  }

  lemma SatisfiedSpelled(cfg: Config, seen: set<Kind>, p: Pattern)
    requires seen != {}
    ensures Satisfied(cfg, seen, p) <==> p == "*" || exists k :: k in seen && cfg.fnmatch(k, p)
  {
    if p == "*" {
      var k :| k in seen;
      assert Matches(cfg, k, p);
    } else if exists k :: k in seen && cfg.fnmatch(k, p) {
      var k :| k in seen && cfg.fnmatch(k, p);
      assert Matches(cfg, k, p);
    }
  }

  lemma ReadySpelled(cfg: Config, it: Item, seen: set<Kind>)
    requires seen != {}
    ensures Ready(cfg, it, seen) <==>
              forall i :: 0 <= i < |it.patterns| ==>
                it.patterns[i] == "*" || exists k :: k in seen && cfg.fnmatch(k, it.patterns[i])
  {
    forall i | 0 <= i < |it.patterns|
      ensures Satisfied(cfg, seen, it.patterns[i]) <==>
                it.patterns[i] == "*" || exists k :: k in seen && cfg.fnmatch(k, it.patterns[i])
    {
      SatisfiedSpelled(cfg, seen, it.patterns[i]);
    }
  }

  /** A continuation with one pattern is ready whenever it is eligible. */
  lemma OneIsReady(cfg: Config, it: Item, ev: Event, recent: set<Kind>)
    requires |it.patterns| == 1 && Eligible(cfg, it, ev)
    ensures Ready(cfg, it, recent + {ev.kind})
  {
    assert Matches(cfg, ev.kind, it.patterns[0]) && ev.kind in recent + {ev.kind};
    assert Satisfied(cfg, recent + {ev.kind}, it.patterns[0]);
  }

  /** One item's turn: a fire is recorded and a task created under the item's name exactly when FiresNow says so, with
      the kinds matched since the last fire, eviction or registration. */
  lemma TurnFiresExactly(cfg: Config, r: Runner, it: Item, ev: Event, now: int)
    requires SeenExactly(r) && it in r.items
    ensures var r', key := NotifyItem(cfg, r, it, ev, now), Key(it.path, ev.session);
            if FiresNow(cfg, it, ev, Recent(r.history, key), r.tasks) then
              r'.tasks == Add(r.tasks, it.name) && r'.history == r.history + [Saw(key, ev.kind)] + [Fired(key)]
            else
              && r'.tasks.active == r.tasks.active && r'.tasks.next == r.tasks.next
              && r'.history == r.history + if Eligible(cfg, it, ev) then [Saw(key, ev.kind)] else []
  {
    var key := Key(it.path, ev.session);
    var recent := Recent(r.history, key);
    MatchesSpelled(cfg, it, ev);
    ReadySpelled(cfg, it, recent + {ev.kind});
    if Eligible(cfg, it, ev) {
      if |it.patterns| == 1 {
        OneIsReady(cfg, it, ev, recent);
      } else {
        assert Seen(r.fanin, key) == recent;
        assert Record(r.fanin, key, ev.kind, now).seen == recent + {ev.kind};
      }
    }
  }

  // ---------- shedding loses nothing ----------

  /** The fan-in of this registered continuation is complete and has not fired. */
  ghost predicate Holding(cfg: Config, r: Runner, it: Item, key: Key)
  {
    && it in r.items && key.path == it.path && |it.patterns| != 1
    && key in r.fanin && Ready(cfg, it, r.fanin[key].seen)
  }

  lemma ReadyGrows(cfg: Config, it: Item, seen: set<Kind>, more: set<Kind>)
    requires Ready(cfg, it, seen) && seen <= more
    ensures Ready(cfg, it, more)
  {
    forall i | 0 <= i < |it.patterns|
      ensures Satisfied(cfg, more, it.patterns[i])
    {
      assert Satisfied(cfg, seen, it.patterns[i]);
    }
  }

  /** A complete fan-in fires on the next eligible event of its session exactly if both caps have room, and
      otherwise is held as it was. */
  lemma HeldFiresExactlyWithRoom(cfg: Config, r: Runner, it: Item, ev: Event, now: int)
    requires Holding(cfg, r, it, Key(it.path, ev.session)) && Eligible(cfg, it, ev)
    ensures var r', key := NotifyItem(cfg, r, it, ev, now), Key(it.path, ev.session);
            if Room(cfg, r.tasks, it) then
              && r'.history == r.history + [Saw(key, ev.kind)] + [Fired(key)]
              && key !in r'.fanin
              && r'.tasks == Add(r.tasks, it.name)
            else
              && Holding(cfg, r', it, key)
              && r'.tasks.active == r.tasks.active && r'.tasks.next == r.tasks.next
  {
    var key := Key(it.path, ev.session);
    ReadyGrows(cfg, it, r.fanin[key].seen, Record(r.fanin, key, ev.kind, now).seen);
  }

  lemma {:induction false} FireCountAppend(h: seq<Obs>, more: seq<Obs>, key: Key)
    requires Reset(key.path) !in more
    ensures FireCount(h + more, key) >= FireCount(h, key)
    ensures Fired(key) in more ==> FireCount(h + more, key) > FireCount(h, key)
  {
    if more == [] {
      assert h + more == h;
    } else {
      var init, last := more[..|more| - 1], more[|more| - 1];
      assert (h + more)[..|h + more| - 1] == h + init;
      FireCountAppend(h, init, key);
    }
  }

  lemma EvictFires(cfg: Config, r: Runner, now: int, key: Key)
    ensures FireCount(Evict(cfg, r, now).history, key) == FireCount(r.history, key)
  {
    if cfg.ttl > 0 {
      assert Evict(cfg, r, now).history[..|r.history|] == r.history;
    }
  }

  /** Held, or fired more often than `fires` times. */
  ghost predicate HeldOrFired(cfg: Config, r: Runner, it: Item, key: Key, fires: nat)
  {
    FireCount(r.history, key) > fires || (FireCount(r.history, key) >= fires && Holding(cfg, r, it, key))
  }

  lemma NotifyItemFires(cfg: Config, r: Runner, x: Item, ev: Event, now: int, key: Key)
    ensures var r', mine := NotifyItem(cfg, r, x, ev, now), Key(x.path, ev.session);
            && FireCount(r'.history, key) >= FireCount(r.history, key)
            && (r'.tasks.next != r.tasks.next && mine == key ==>
                  FireCount(r'.history, key) > FireCount(r.history, key))
  {
    var r', mine := NotifyItem(cfg, r, x, ev, now), Key(x.path, ev.session);
    var more := (if Eligible(cfg, x, ev) then [Saw(mine, ev.kind)] else [])
      + (if r'.tasks.next != r.tasks.next then [Fired(mine)] else []);
    NotifyItemRecords(cfg, r, x, ev, now);
    assert r'.history == r.history + more;
    FireCountAppend(r.history, more, key);
  }

  lemma NotifyItemHolds(cfg: Config, r: Runner, x: Item, ev: Event, now: int, it: Item, key: Key)
    requires PathsUnique(r.items) && x in r.items && Holding(cfg, r, it, key)
    ensures var r' := NotifyItem(cfg, r, x, ev, now);
            Holding(cfg, r', it, key) || (Key(x.path, ev.session) == key && r'.tasks.next != r.tasks.next)
  {
    if Key(x.path, ev.session) == key && Eligible(cfg, x, ev) {
      assert x == it;
      HeldFiresExactlyWithRoom(cfg, r, it, ev, now);
    }
  }

  lemma NotifyItemHeld(cfg: Config, r: Runner, x: Item, ev: Event, now: int, it: Item, key: Key, fires: nat)
    requires PathsUnique(r.items) && x in r.items && HeldOrFired(cfg, r, it, key, fires)
    ensures HeldOrFired(cfg, NotifyItem(cfg, r, x, ev, now), it, key, fires)
    ensures NotifyItem(cfg, r, x, ev, now).items == r.items
  {
    NotifyItemFires(cfg, r, x, ev, now, key);
    if Holding(cfg, r, it, key) {
      NotifyItemHolds(cfg, r, x, ev, now, it, key);
    }
  }

  lemma {:induction false} NotifyAllHeld(
    cfg: Config, r: Runner, items: seq<Item>, ev: Event, clock: nat -> int, i: nat, it: Item, key: Key, fires: nat)
    requires PathsUnique(r.items) && HeldOrFired(cfg, r, it, key, fires)
    requires forall x :: x in items ==> x in r.items
    ensures HeldOrFired(cfg, NotifyAll(cfg, r, items, ev, clock, i), it, key, fires)
    decreases items
  {
    if items != [] {
      NotifyItemHeld(cfg, r, items[0], ev, clock(i), it, key, fires);
      NotifyAllHeld(cfg, NotifyItem(cfg, r, items[0], ev, clock(i)), items[1..], ev, clock, i + 1, it, key, fires);
    }
  }

  /** No action of the run evicts this entry or touches the registration of its path. */
  ghost predicate Spared(cfg: Config, r: Runner, actions: seq<Action>, key: Key)
    decreases actions
  {
    actions == [] ||
    (&& (match actions[0]
         case Notify(_, now, _) => key in r.fanin ==> key in Evict(cfg, r, now).fanin
         case Done(_) => true
         case Register(it) => it.path != key.path
         case Unregister(path) => path != key.path)
     && Spared(cfg, Step(cfg, r, actions[0]), actions[1..], key))
  }

  lemma ResetOther(cfg: Config, r: Runner, path: string, it: Item, key: Key, fires: nat)
    requires FaninInv(r) && WitnessInv(cfg, r) && HeldOrFired(cfg, r, it, key, fires) && path != key.path
    ensures HeldOrFired(cfg, Unregistered(r, path), it, key, fires)
  {
    FireCountAppend(r.history, [Reset(path)], key);
    UnregisteredInv(cfg, r, path);
  }

  lemma StepHeld(cfg: Config, r: Runner, a: Action, it: Item, key: Key, fires: nat)
    requires FaninInv(r) && WitnessInv(cfg, r) && HeldOrFired(cfg, r, it, key, fires)
    requires Spared(cfg, r, [a], key)
    ensures HeldOrFired(cfg, Step(cfg, r, a), it, key, fires)
  {
    match a
    case Notify(ev, now, clock) =>
      EvictFires(cfg, r, now, key);
      assert HeldOrFired(cfg, Evict(cfg, r, now), it, key, fires);
      NotifyAllHeld(cfg, Evict(cfg, r, now), r.items, ev, clock, 0, it, key, fires);
    case Done(_) =>
    case Register(x) => ResetOther(cfg, r, x.path, it, key, fires);
    case Unregister(path) => ResetOther(cfg, r, path, it, key, fires);
  }

  lemma {:induction false} HeldThroughRun(cfg: Config, r: Runner, actions: seq<Action>, it: Item, key: Key, fires: nat)
    requires FaninInv(r) && WitnessInv(cfg, r) && HeldOrFired(cfg, r, it, key, fires)
    requires Spared(cfg, r, actions, key)
    ensures HeldOrFired(cfg, Run(cfg, r, actions), it, key, fires)
    decreases actions
  {
    if actions != [] {
      StepHeld(cfg, r, actions[0], it, key, fires);
      RunFaninInv(cfg, r, [actions[0]]);
      assert Run(cfg, r, [actions[0]]) == Step(cfg, r, actions[0]) by {
        assert [actions[0]][1..] == [];
      }
      HeldThroughRun(cfg, Step(cfg, r, actions[0]), actions[1..], it, key, fires);
    }
  }

  /** Shedding loses nothing: from any reachable state, over any run that neither evicts the entry nor re-registers
      its path, a complete fan-in is still held at the end or has fired. */
  lemma ShedIsNotLost(cfg: Config, before: seq<Action>, later: seq<Action>, it: Item, key: Key)
    requires Holding(cfg, Run(cfg, START, before), it, key) && Spared(cfg, Run(cfg, START, before), later, key)
    ensures var r := Run(cfg, START, before);
            var t := Run(cfg, r, later);
            Holding(cfg, t, it, key) || FireCount(t.history, key) > FireCount(r.history, key)
  {
    RunFaninInv(cfg, START, before);
    var r := Run(cfg, START, before);
    HeldThroughRun(cfg, r, later, it, key, FireCount(r.history, key));
  }

  lemma {:induction false} NotifyAllSplit(
    cfg: Config, r: Runner, items: seq<Item>, ev: Event, clock: nat -> int, i: nat, k: nat)
    requires k <= |items|
    ensures NotifyAll(cfg, r, items, ev, clock, i)
            == NotifyAll(cfg, NotifyAll(cfg, r, items[..k], ev, clock, i), items[k..], ev, clock, i + k)
    decreases items
  {
    if k == 0 {
      assert items[..0] == [] && items[0..] == items;
    } else {
      SliceTail(items, k);
      NotifyAllSplit(cfg, NotifyItem(cfg, r, items[0], ev, clock(i)), items[1..], ev, clock, i + 1, k - 1);
    }
  }

  lemma {:induction false} NotifyAllFires(
    cfg: Config, r: Runner, items: seq<Item>, ev: Event, clock: nat -> int, i: nat, key: Key)
    ensures FireCount(NotifyAll(cfg, r, items, ev, clock, i).history, key) >= FireCount(r.history, key)
    decreases items
  {
    if items != [] {
      NotifyItemFires(cfg, r, items[0], ev, clock(i), key);
      NotifyAllFires(cfg, NotifyItem(cfg, r, items[0], ev, clock(i)), items[1..], ev, clock, i + 1, key);
    }
  }

  /** A held fan-in that finds room at its turn fires. */
  lemma TurnFires(cfg: Config, r: Runner, it: Item, ev: Event, now: int, key: Key, fires: nat)
    requires HeldOrFired(cfg, r, it, key, fires) && Eligible(cfg, it, ev)
    requires key == Key(it.path, ev.session) && Room(cfg, r.tasks, it)
    ensures FireCount(NotifyItem(cfg, r, it, ev, now).history, key) > fires
  {
    NotifyItemFires(cfg, r, it, ev, now, key);
    if Holding(cfg, r, it, key) {
      HeldFiresExactlyWithRoom(cfg, r, it, ev, now);
    }
  }

  lemma TurnAndRestFire(
    cfg: Config, r: Runner, items: seq<Item>, ev: Event, clock: nat -> int, i: nat, key: Key, fires: nat)
    requires items != [] && HeldOrFired(cfg, r, items[0], key, fires) && Eligible(cfg, items[0], ev)
    requires key == Key(items[0].path, ev.session) && Room(cfg, r.tasks, items[0])
    ensures FireCount(NotifyAll(cfg, r, items, ev, clock, i).history, key) > fires
  {
    TurnFires(cfg, r, items[0], ev, clock(i), key, fires);
    NotifyAllFires(cfg, NotifyItem(cfg, r, items[0], ev, clock(i)), items[1..], ev, clock, i + 1, key);
  }

  lemma TurnInsideFires(
    cfg: Config, r: Runner, items: seq<Item>, ev: Event, clock: nat -> int, i: nat, key: Key, fires: nat)
    requires i < |items| && key == Key(items[i].path, ev.session) && Eligible(cfg, items[i], ev)
    requires HeldOrFired(cfg, NotifyAll(cfg, r, items[..i], ev, clock, 0), items[i], key, fires)
    requires Room(cfg, NotifyAll(cfg, r, items[..i], ev, clock, 0).tasks, items[i])
    ensures FireCount(NotifyAll(cfg, r, items, ev, clock, 0).history, key) > fires
  {
    NotifyAllSplit(cfg, r, items, ev, clock, 0, i);
    TurnAndRestFire(cfg, NotifyAll(cfg, r, items[..i], ev, clock, 0), items[i..], ev, clock, i, key, fires);
  }

  /** The i-th registered item is `it`, held or fired before, and finds room when the notify reaches it. */
  lemma NotifyFires(cfg: Config, r: Runner, it: Item, key: Key, fires: nat, ev: Event, clock: nat -> int, i: nat)
    requires PathsUnique(r.items) && HeldOrFired(cfg, r, it, key, fires)
    requires i < |r.items| && r.items[i] == it && key == Key(it.path, ev.session) && Eligible(cfg, it, ev)
    requires Room(cfg, NotifyAll(cfg, r, r.items[..i], ev, clock, 0).tasks, it)
    ensures FireCount(NotifyAll(cfg, r, r.items, ev, clock, 0).history, key) > fires
  {
    NotifyAllHeld(cfg, r, r.items[..i], ev, clock, 0, it, key, fires);
    TurnInsideFires(cfg, r, r.items, ev, clock, i, key, fires);
  }

  /** A shed fan-in fires once there is room: from any reachable state that holds it complete, over any run that
      spares it and then a notify whose event is eligible for it and which finds room under both caps at its turn,
      it has fired at least once more. */
  lemma ShedFiresWithRoom(
    cfg: Config, before: seq<Action>, later: seq<Action>, it: Item, key: Key, ev: Event, now: int,
    clock: nat -> int, i: nat)
    requires Holding(cfg, Run(cfg, START, before), it, key) && Spared(cfg, Run(cfg, START, before), later, key)
    requires key == Key(it.path, ev.session) && Eligible(cfg, it, ev)
    requires var t := Run(cfg, Run(cfg, START, before), later);
             && i < |t.items| && t.items[i] == it
             && Spared(cfg, t, [Notify(ev, now, clock)], key)
             && Room(cfg, NotifyAll(cfg, Evict(cfg, t, now), t.items[..i], ev, clock, 0).tasks, it)
    ensures var r := Run(cfg, START, before);
            var t := Run(cfg, r, later);
            FireCount(Step(cfg, t, Notify(ev, now, clock)).history, key) > FireCount(r.history, key)
  {
    RunFaninInv(cfg, START, before);
    var r := Run(cfg, START, before);
    var t, fires := Run(cfg, r, later), FireCount(r.history, key);
    HeldThroughRun(cfg, r, later, it, key, fires);
    RunFaninInv(cfg, r, later);
    EvictFires(cfg, t, now, key);
    assert HeldOrFired(cfg, Evict(cfg, t, now), it, key, fires);
    NotifyFires(cfg, Evict(cfg, t, now), it, key, fires, ev, clock, i);
  }

  lemma OtherTurns(cfg: Config, r: Runner, x: Item, ev: Event, now: int, key: Key)
    requires x.path != key.path
    ensures FireCount(NotifyItem(cfg, r, x, ev, now).history, key) == FireCount(r.history, key)
  {
    var mine := Key(x.path, ev.session);
    NotifyItemRecords(cfg, r, x, ev, now);
    var saw := if Eligible(cfg, x, ev) then [Saw(mine, ev.kind)] else [];
    assert (r.history + [Saw(mine, ev.kind)])[..|r.history|] == r.history;
    assert (r.history + saw + [Fired(mine)])[..|r.history + saw|] == r.history + saw;
    AppendNothing(r.history);
    AppendNothing(r.history + saw);
  }

  lemma {:induction false} OthersFire(
    cfg: Config, r: Runner, items: seq<Item>, ev: Event, clock: nat -> int, i: nat, key: Key)
    requires forall k :: 0 <= k < |items| ==> items[k].path != key.path
    ensures FireCount(NotifyAll(cfg, r, items, ev, clock, i).history, key) == FireCount(r.history, key)
    decreases items
  {
    if items != [] {
      assert items[0].path != key.path;
      OtherTurns(cfg, r, items[0], ev, clock(i), key);
      OthersFire(cfg, NotifyItem(cfg, r, items[0], ev, clock(i)), items[1..], ev, clock, i + 1, key);
    }
  }

  lemma TurnCounts(cfg: Config, r: Runner, it: Item, ev: Event, now: int)
    requires SeenExactly(r) && it in r.items
    ensures var key := Key(it.path, ev.session);
            FireCount(NotifyItem(cfg, r, it, ev, now).history, key)
            == FireCount(r.history, key) + if FiresNow(cfg, it, ev, Recent(r.history, key), r.tasks) then 1 else 0
  {
    var key := Key(it.path, ev.session);
    TurnFiresExactly(cfg, r, it, ev, now);
    var saw := r.history + [Saw(key, ev.kind)];
    assert saw[..|r.history|] == r.history;
    assert (saw + [Fired(key)])[..|saw|] == saw;
    AppendNothing(r.history);
  }

  lemma TurnAndRestCount(cfg: Config, r: Runner, items: seq<Item>, ev: Event, clock: nat -> int, i: nat)
    requires SeenExactly(r) && items != [] && items[0] in r.items && DistinctPaths(items)
    ensures var key := Key(items[0].path, ev.session);
            FireCount(NotifyAll(cfg, r, items, ev, clock, i).history, key)
            == FireCount(r.history, key) + if FiresNow(cfg, items[0], ev, Recent(r.history, key), r.tasks) then 1 else 0
  {
    TurnCounts(cfg, r, items[0], ev, clock(i));
    assert forall k :: 0 <= k < |items[1..]| ==> items[1..][k] == items[k + 1];
    OthersFire(cfg, NotifyItem(cfg, r, items[0], ev, clock(i)), items[1..], ev, clock, i + 1,
               Key(items[0].path, ev.session));
  }

  lemma PathsAround(items: seq<Item>, i: nat)
    requires DistinctPaths(items) && i < |items|
    ensures DistinctPaths(items[i..]) && items[i..][0] == items[i]
    ensures forall k :: 0 <= k < |items[..i]| ==> items[..i][k].path != items[i].path
  {
    assert forall k :: 0 <= k < |items[i..]| ==> items[i..][k] == items[i + k];
  }

  lemma NotifyCounts(cfg: Config, r: Runner, ev: Event, clock: nat -> int, i: nat)
    requires SeenExactly(r) && i < |r.items|
    ensures var it := r.items[i];
            var key := Key(it.path, ev.session);
            var turn := NotifyAll(cfg, r, r.items[..i], ev, clock, 0);
            FireCount(NotifyAll(cfg, r, r.items, ev, clock, 0).history, key)
            == FireCount(r.history, key) + if FiresNow(cfg, it, ev, Recent(turn.history, key), turn.tasks) then 1 else 0
  {
    PathsAround(r.items, i);
    NotifyAllSeen(cfg, r, r.items[..i], ev, clock, 0);
    OthersFire(cfg, r, r.items[..i], ev, clock, 0, Key(r.items[i].path, ev.session));
    TurnAndRestCount(cfg, NotifyAll(cfg, r, r.items[..i], ev, clock, 0), r.items[i..], ev, clock, i);
    NotifyAllSplit(cfg, r, r.items, ev, clock, 0, i);
  }

  /** Fires over whole runs, from below and above: in every reachable state, a notify adds one fire to the i-th
      registered continuation and the event's session if FiresNow holds at its turn, after eviction and the items
      before it, and none otherwise. */
  lemma NotifyFiresExactly(cfg: Config, before: seq<Action>, ev: Event, now: int, clock: nat -> int, i: nat)
    requires i < |Run(cfg, START, before).items|
    ensures var r := Run(cfg, START, before);
            var it := r.items[i];
            var key := Key(it.path, ev.session);
            var turn := NotifyAll(cfg, Evict(cfg, r, now), r.items[..i], ev, clock, 0);
            FireCount(Step(cfg, r, Notify(ev, now, clock)).history, key)
            == FireCount(r.history, key) + if FiresNow(cfg, it, ev, Recent(turn.history, key), turn.tasks) then 1 else 0
  {
    RunSeen(cfg, START, before);
    var r := Run(cfg, START, before);
    EvictSeen(cfg, r, now);
    EvictFires(cfg, r, now, Key(r.items[i].path, ev.session));
    NotifyCounts(cfg, Evict(cfg, r, now), ev, clock, i);
  }

  // ---------- the runner ----------

  lemma SameSize(prior: set<Kind>, kind: Kind)
    ensures |prior + {kind}| == |prior| + if kind in prior then 0 else 1
    ensures kind in prior ==> prior + {kind} == prior
  {
    if kind in prior {
      assert prior + {kind} == prior;
    }
  }

  class ContinuationRunner {
    const cfg: Config
    var items: seq<Item>
    var fanin: map<Key, Entry>
    var active: set<TaskId>
    var byName: map<Name, set<TaskId>>
    var owner: map<TaskId, Name>
    var next: TaskId
    ghost var history: seq<Obs>

    ghost function View(): Runner
      reads this
    {
      Runner(items, fanin, Tracked(active, byName, owner, next), history)
    }

    constructor (cfg: Config)
      ensures View() == START && this.cfg == cfg
    {
      this.cfg := cfg;
      items, fanin, active, byName, owner, next, history := [], map[], {}, map[], map[], 0, [];
    }

    method Fire(it: Item, key: Key)
      requires it.name in byName
      modifies this
      ensures View() == Runner(items, if |it.patterns| == 1 then old(fanin) else old(fanin) - {key},
                               Add(old(View()).tasks, it.name), old(history) + [Fired(key)])
      ensures items == old(items)
    {
      var t := next;
      next := next + 1;
      owner := owner[t := it.name];
      if |it.patterns| != 1 {
        fanin := fanin - {key};
      }
      active := active + {t};
      byName := byName[it.name := byName[it.name] + {t}];
      history := history + [Fired(key)];
    }

    /** Offer a complete fan-in, or a single-pattern match, to the two throttles, and fire if both have room. */
    method Throttle(it: Item, key: Key)
      modifies this
      ensures View() == TryFire(cfg, old(View()), it, key)
      ensures var t := old(View()).tasks;
              if (cfg.globalCap <= 0 || |t.active| < cfg.globalCap) && |InFlight(t, it.name)| < it.maxFires then
                View().tasks == Add(t, it.name)
              else active == t.active && next == t.next
    {
      if cfg.globalCap > 0 && |active| >= cfg.globalCap {
        return;
      }
      ghost var before := InFlight(Tracked(active, byName, owner, next), it.name);
      if it.name !in byName {
        byName := byName[it.name := {}];
      }
      assert byName == old(byName)[it.name := before];
      if |byName[it.name]| < it.maxFires {
        Fire(it, key);
        assert byName == old(byName)[it.name := before + {old(next)}];
      }
    }

    /** The entry after this kind: only a kind that is new to it refreshes the timestamp. */
    method Accumulate(key: Key, kind: Kind, now: int) returns (entry: Entry)
      ensures entry == Record(fanin, key, kind, now)
    {
      var prior := if key in fanin then fanin[key].seen else {};
      var seen := prior + {kind};
      SameSize(prior, kind);
      if |seen| > |prior| || key !in fanin {
        entry := Entry(now, seen, if key in fanin then fanin[key].created else now);
      } else {
        entry := Entry(fanin[key].ts, seen, fanin[key].created);
      }
    }

    method NotifyOne(it: Item, ev: Event, now: int)
      modifies this
      ensures View() == NotifyItem(cfg, old(View()), it, ev, now)
    {
      if !it.enabled {
        return;
      }
      var outcomeMatches := (ev.success && it.onSuccess) || (!ev.success && it.onError);
      var contentMatches := it.triggerWhen.None? || cfg.contains(it.triggerWhen.value, ev.response);
      var matched := exists i :: 0 <= i < |it.patterns| && Matches(cfg, ev.kind, it.patterns[i]);
      if !matched || !outcomeMatches || !contentMatches {
        return;
      }
      var key := Key(it.path, ev.session);
      history := history + [Saw(key, ev.kind)];
      if |it.patterns| != 1 {
        var entry := Accumulate(key, ev.kind, now);
        fanin := fanin[key := entry];
        if !Ready(cfg, it, entry.seen) {
          return;
        }
      }
      Throttle(it, key);
    }

    method EvictStale(now: int)
      modifies this`fanin, this`history
      ensures View() == Evict(cfg, old(View()), now)
    {
      if cfg.ttl <= 0 {
        return;
      }
      var stale := set k | k in fanin && fanin[k].ts < now - cfg.ttl;
      fanin := fanin - stale;
      history := history + [Aged(stale)];
    }

    method Notify(ev: Event, now: int, clock: nat -> int)
      modifies this
      ensures View() == Step(cfg, old(View()), Action.Notify(ev, now, clock))
    {
      EvictStale(now);
      var snapshot, i := items, 0;
      ghost var evicted := View();
      while i < |snapshot|
        invariant i <= |snapshot|
        invariant NotifyAll(cfg, evicted, snapshot, ev, clock, 0)
                  == NotifyAll(cfg, View(), snapshot[i..], ev, clock, i)
      {
        NotifyOne(snapshot[i], ev, clock(i));
        i := i + 1;
      }
    }

    method UnregisterPath(path: string)
      modifies this
      ensures View() == Unregistered(old(View()), path)
    {
      var existing := exists i :: 0 <= i < |items| && items[i].path == path;
      items := Without(items, path);
      if existing {
        var stale := set k | k in fanin && k.path == path;
        fanin := fanin - stale;
      }
      history := history + [Reset(path)];
    }

    method RegisterItem(it: Item)
      modifies this
      ensures View() == Step(cfg, old(View()), Register(it))
    {
      UnregisterPath(it.path);
      items := items + [it];
    }

    /** The done-callback bound to task t. */
    method Cleanup(t: TaskId)
      requires t in active && t in owner
      modifies this
      ensures View() == Step(cfg, old(View()), Done(t))
    {
      var n := owner[t];
      active := active - {t};
      if n in byName {
        var fires := byName[n] - {t};
        byName := if fires == {} then byName - {n} else byName[n := fires];
      }
    }
  }
}
