/** The event broker of harness/events.py: ids, the replay ring, bounded subscriber queues and eviction.

    Values and step functions come first, then what every run of one subscription keeps. Every stretch of the
    source between two awaits is one step. */
module Events {
  import opened Seqs

  /** An SSE envelope. `body` stands for type, version, timestamp, agent id and payload, which no code here
      inspects. `Overrun` is the synthetic terminal envelope whose id is the text "<at>.overrun". */
  datatype Envelope = Event(id: nat, body: string) | Overrun(at: nat, depth: nat)

  /** An entry of a subscriber's queue. */
  datatype Item = Env(e: Envelope) | Sentinel

  /** Where the subscriber's iterator is: inside `queue.get()`, suspended at its `yield`, or returned. */
  datatype Phase = Getting | AtYield | Finished

  datatype Sub = Sub(queue: seq<Item>, closed: bool, phase: Phase)

  /** What resuming the iterator gives: an envelope, a wait for the queue, or the end of the iteration. */
  datatype Pulled = Yielded(e: Envelope) | Blocked | Stopped

  const FRESH := Sub([], false, Getting)

  // ---------- one subscriber ----------

  /** `put_nowait`, with the QueueFull outcome swallowed as every caller but the fan-out does. */
  function Put(q: seq<Item>, x: Item, max: nat): seq<Item>
  {
    if |q| < max then q + [x] else q
  }

  function Evict(s: Sub, nextId: nat, max: nat): Sub
  {
    var drained := if s.queue == [] then [] else s.queue[1..];
    var overrun := Put(drained, Env(Overrun(nextId, |s.queue|)), max);
    Sub(Put(overrun, Sentinel, max), true, s.phase)
  }

  /** What fanning `e` out does to one registered subscriber. */
  function Offer(s: Sub, e: Envelope, nextId: nat, max: nat): Sub
  {
    if s.closed then s
    else if |s.queue| < max then s.(queue := s.queue + [Env(e)])
    else Evict(s, nextId, max)
  }

  /** One resumption of the iterator. */
  function Pull(s: Sub): (Sub, Pulled)
  {
    if s.phase.Finished? then (s, Stopped)
    else if s.phase.AtYield? && s.closed && s.queue == [] then (s.(phase := Finished), Stopped)
    else if s.queue == [] then (s.(phase := Getting), Blocked)
    else match s.queue[0]
      case Sentinel => (Sub(s.queue[1..], s.closed, Finished), Stopped)
      case Env(e) => (Sub(s.queue[1..], s.closed, AtYield), Yielded(e))
  }

  predicate NoSentinel(q: seq<Item>)
  {
    forall i :: 0 <= i < |q| ==> q[i].Env?
  }

  /** The envelopes waiting in a queue. */
  function Envs(q: seq<Item>): seq<Envelope>
    requires NoSentinel(q)
  {
    seq(|q|, i requires 0 <= i < |q| => q[i].e)
  }

  // ---------- what flows through one subscription ----------

  /** Everything an evicted subscription ever yields, out of the events published since it began: it had been
      handed the first m, then the next q filled its queue, then event m+q was published. The oldest queued
      event gives way to the overrun envelope. */
  function Survivors(published: seq<Envelope>, m: nat, q: nat): seq<Envelope>
    requires 0 < q && m + q < |published|
  {
    published[..m] + published[m + 1..m + q]
      + [Overrun(if published[m + q].Event? then published[m + q].id else 0, q)]
  }

  /** The invariant of one subscription: `taken` has been yielded, m of it while the subscription was open. */
  ghost predicate Flow(taken: seq<Envelope>, s: Sub, published: seq<Envelope>, m: nat, q: nat)
  {
    && 0 < q
    && |s.queue| <= q
    && NoSentinel(s.queue)
    && (if !s.closed then
          && m == |taken|
          && taken + Envs(s.queue) == published
        else
          && m + q < |published|
          && m <= |taken|
          && taken + Envs(s.queue) == Survivors(published, m, q))
    && (s.closed && s.queue == [] ==> !s.phase.Getting?)
    && (s.phase.Finished? ==> s.closed && s.queue == [])
  }

  lemma SurvivorsGrow(published: seq<Envelope>, e: Envelope, m: nat, q: nat)
    requires 0 < q && m + q < |published|
    ensures Survivors(published + [e], m, q) == Survivors(published, m, q)
  {
    assert (published + [e])[..m] == published[..m];
    assert (published + [e])[m + 1..m + q] == published[m + 1..m + q];
  }

  lemma FlowOffer(taken: seq<Envelope>, s: Sub, published: seq<Envelope>, m: nat, q: nat, id: nat, body: string)
    requires Flow(taken, s, published, m, q)
    ensures Flow(taken, Offer(s, Event(id, body), id, q), published + [Event(id, body)], m, q)
  {
    var e := Event(id, body);
    var after := published + [e];
    if s.closed {
      SurvivorsGrow(published, e, m, q);
    } else if |s.queue| < q {
      assert taken + Envs(s.queue + [Env(e)]) == (taken + Envs(s.queue)) + [e];
    } else {
      var rest, over := s.queue[1..], Overrun(id, q);
      assert published[m..] == Envs(s.queue) && published[..m] == taken;
      assert Offer(s, e, id, q).queue == rest + [Env(over)];
      assert Envs(rest + [Env(over)]) == after[m + 1..m + q] + [over];
      assert taken + (after[m + 1..m + q] + [over]) == taken + after[m + 1..m + q] + [over];
    }
  }

  lemma FlowPull(taken: seq<Envelope>, s: Sub, published: seq<Envelope>, m: nat, q: nat)
    requires Flow(taken, s, published, m, q)
    ensures var (s', p) := Pull(s);
            match p
            case Yielded(e) => Flow(taken + [e], s', published, if s.closed then m else m + 1, q)
            case _ => Flow(taken, s', published, m, q)
    ensures !s.phase.Finished? && s.queue != [] ==>
              Pull(s).1 == Yielded(s.queue[0].e) && Pull(s).0.queue == s.queue[1..]
    ensures Pull(s).1 == Blocked <==> s.queue == [] && !s.phase.Finished? && (!s.closed || !s.phase.AtYield?)
  {
    if s.queue != [] {
      var e := s.queue[0].e;
      assert taken + Envs(s.queue) == (taken + [e]) + Envs(s.queue[1..]);
    }
  }

  /** Resuming an open subscription yields the oldest queued envelope and leaves the rest; it blocks exactly when
      nothing is queued. */
  lemma OpenPull(s: Sub)
    requires !s.closed && !s.phase.Finished? && NoSentinel(s.queue)
    ensures Pull(s).1 == Blocked <==> s.queue == []
    ensures s.queue == [] ==> Pull(s).0.queue == [] && !Pull(s).0.closed && !Pull(s).0.phase.Finished?
    ensures forall e, rest :: s.queue == [Env(e)] + rest ==> Pull(s) == (Sub(rest, false, AtYield), Yielded(e))
  {
    forall e, rest | s.queue == [Env(e)] + rest
      ensures Pull(s) == (Sub(rest, false, AtYield), Yielded(e))
    {
      assert s.queue[1..] == rest;
    }
  }

  lemma FlowFinished(taken: seq<Envelope>, s: Sub, published: seq<Envelope>, m: nat, q: nat)
    requires Flow(taken, s, published, m, q) && s.phase.Finished?
    ensures m + q < |published| && taken == Survivors(published, m, q)
  {
    assert taken + [] == taken;
  }

  // ---------- whole runs of one subscription ----------

  /** What can happen to a subscription: an event is published, or its iterator is resumed. */
  datatype Act = Publish(id: nat, body: string) | Resume

  datatype SubRun = SubRun(sub: Sub, taken: seq<Envelope>, published: seq<Envelope>, pulledOpen: nat)

  function StepSub(r: SubRun, a: Act, q: nat): SubRun
  {
    match a
    case Publish(id, body) =>
      r.(sub := Offer(r.sub, Event(id, body), id, q), published := r.published + [Event(id, body)])
    case Resume =>
      var (s', p) := Pull(r.sub);
      if p.Yielded? then
        SubRun(s', r.taken + [p.e], r.published, if r.sub.closed then r.pulledOpen else r.pulledOpen + 1)
      else r.(sub := s')
  }

  function RunSub(acts: seq<Act>, q: nat): SubRun
  {
    if acts == [] then SubRun(FRESH, [], [], 0)
    else StepSub(RunSub(acts[..|acts| - 1], q), acts[|acts| - 1], q)
  }

  lemma {:induction false} RunFlow(acts: seq<Act>, q: nat)
    requires 0 < q
    ensures var r := RunSub(acts, q); Flow(r.taken, r.sub, r.published, r.pulledOpen, q)
  {
    if acts != [] {
      var init, last := acts[..|acts| - 1], acts[|acts| - 1];
      RunFlow(init, q);
      var r := RunSub(init, q);
      match last
      case Publish(id, body) => FlowOffer(r.taken, r.sub, r.published, r.pulledOpen, q, id, body);
      case Resume => FlowPull(r.taken, r.sub, r.published, r.pulledOpen, q);
    }
  }

  /** In every run: a live subscription has yielded or still queues exactly what was published since it began;
      an evicted one yields exactly what it took while open, then the queue at its eviction without its oldest
      event, then one overrun envelope, and nothing else whatever is published later. The sentinel meant to end
      the iteration never enters the queue. */
  lemma EvictionShape(acts: seq<Act>, q: nat)
    requires 0 < q
    ensures var r := RunSub(acts, q);
            && NoSentinel(r.sub.queue)
            && (!r.sub.closed ==> r.taken + Envs(r.sub.queue) == r.published)
            && (r.sub.closed ==>
                  && r.pulledOpen + q < |r.published|
                  && r.taken + Envs(r.sub.queue) == Survivors(r.published, r.pulledOpen, q))
            && (r.sub.phase.Finished? ==> r.sub.closed && r.taken == Survivors(r.published, r.pulledOpen, q))
  {
    RunFlow(acts, q);
    var r := RunSub(acts, q);
    if r.sub.phase.Finished? {
      assert r.taken + [] == r.taken;
    }
  }

  function ResumeTimes(r: SubRun, n: nat, q: nat): SubRun
  {
    if n == 0 then r else StepSub(ResumeTimes(r, n - 1, q), Resume, q)
  }

  lemma {:induction false} OpenDrains(r: SubRun, n: nat, q: nat)
    requires !r.sub.closed && !r.sub.phase.Finished? && NoSentinel(r.sub.queue) && n <= |r.sub.queue|
    ensures var t := ResumeTimes(r, n, q);
            && !t.sub.closed && !t.sub.phase.Finished? && t.sub.queue == r.sub.queue[n..]
            && t.taken == r.taken + Envs(r.sub.queue)[..n] && t.published == r.published
  {
    if n > 0 {
      OpenDrains(r, n - 1, q);
      var t := ResumeTimes(r, n - 1, q);
      assert t.sub.queue == [Env(r.sub.queue[n - 1].e)] + r.sub.queue[n..];
      OpenPull(t.sub);
      assert Envs(r.sub.queue)[..n] == Envs(r.sub.queue)[..n - 1] + [r.sub.queue[n - 1].e];
    }
  }

  /** Nothing is withheld: in every run, resuming an open subscription once per queued envelope brings it up to
      everything published since it began. */
  lemma OpenCatchesUp(acts: seq<Act>, q: nat)
    requires 0 < q && !RunSub(acts, q).sub.closed
    ensures var r := RunSub(acts, q);
            var t := ResumeTimes(r, |r.sub.queue|, q);
            t.taken == r.published && t.sub.queue == [] && !t.sub.closed
  {
    RunFlow(acts, q);
    var r := RunSub(acts, q);
    OpenDrains(r, |r.sub.queue|, q);
    assert Envs(r.sub.queue)[..|r.sub.queue|] == Envs(r.sub.queue);
  }

  /** An evicted iterator never blocks: it yields once for each queued envelope, at most q of them, ... */
  lemma {:induction false} EvictedYields(r: SubRun, n: nat, q: nat)
    requires Flow(r.taken, r.sub, r.published, r.pulledOpen, q) && r.sub.closed && !r.sub.phase.Finished?
    requires n <= |r.sub.queue|
    ensures |r.sub.queue| <= q
    ensures var t := ResumeTimes(r, n, q);
            && !t.sub.phase.Finished? && t.sub.closed && t.sub.queue == r.sub.queue[n..]
            && t.taken == r.taken + Envs(r.sub.queue)[..n]
            && (n > 0 ==> t.sub.phase.AtYield?)
  {
    if n > 0 {
      EvictedYields(r, n - 1, q);
      var t := ResumeTimes(r, n - 1, q);
      assert t.sub.queue[0] == r.sub.queue[n - 1];
      assert Envs(r.sub.queue)[..n] == Envs(r.sub.queue)[..n - 1] + [r.sub.queue[n - 1].e];
    }
  }

  /** ... and the resumption after the last one ends it. */
  lemma EvictedIteratorEnds(r: SubRun, q: nat)
    requires Flow(r.taken, r.sub, r.published, r.pulledOpen, q) && r.sub.closed && !r.sub.phase.Finished?
    ensures !ResumeTimes(r, |r.sub.queue|, q).sub.phase.Finished?
    ensures ResumeTimes(r, |r.sub.queue| + 1, q).sub.phase.Finished?
    ensures |r.sub.queue| <= q
  {
    EvictedYields(r, |r.sub.queue|, q);
  }

  // ---------- the stream: ids, ring and history ----------

  /** `history` is every event published so far; the code keeps only the ring. */
  datatype Stream = Stream(nextId: nat, ring: seq<Envelope>, history: seq<Envelope>)

  /** A `publish` on one loop: a rejected envelope gives its id back before anyone else can take the next. */
  function PublishTo(st: Stream, body: string, valid: bool, ringMax: nat): Stream
  {
    if valid then
      var e := Event(st.nextId + 1, body);
      Stream(st.nextId + 1, LastN(st.ring + [e], ringMax), st.history + [e])
    else st
  }

  predicate Numbered(history: seq<Envelope>)
  {
    forall i :: 0 <= i < |history| ==> history[i].Event? && history[i].id == i + 1
  }

  /** Ids are contiguous from 1 and the ring is exactly the last ringMax events. */
  predicate StreamValid(st: Stream, ringMax: nat)
  {
    && 0 < ringMax
    && st.nextId == |st.history|
    && Numbered(st.history)
    && st.ring == LastN(st.history, ringMax)
  }

  lemma PublishValid(st: Stream, body: string, valid: bool, ringMax: nat)
    requires StreamValid(st, ringMax)
    ensures StreamValid(PublishTo(st, body, valid, ringMax), ringMax)
    ensures st.history <= PublishTo(st, body, valid, ringMax).history
  {
    LastNAppend(st.history, Event(st.nextId + 1, body), ringMax);
  }

  function PublishAll(st: Stream, posts: seq<(string, bool)>, ringMax: nat): Stream
    decreases posts
  {
    if posts == [] then st
    else PublishAll(PublishTo(st, posts[0].0, posts[0].1, ringMax), posts[1..], ringMax)
  }

  /** The bodies that the validator lets through. */
  function Accepted(posts: seq<(string, bool)>): seq<string>
  {
    if posts == [] then [] else (if posts[0].1 then [posts[0].0] else []) + Accepted(posts[1..])
  }

  /** With one publisher, any sequence of publishes, valid or rejected, leaves the ids contiguous and the ring
      equal to the last min(n, ringMax) envelopes; and as many are published as were valid. */
  lemma {:induction false} SinglePublisherContiguous(st: Stream, posts: seq<(string, bool)>, ringMax: nat)
    requires StreamValid(st, ringMax)
    ensures StreamValid(PublishAll(st, posts, ringMax), ringMax)
    ensures st.history <= PublishAll(st, posts, ringMax).history
    ensures |PublishAll(st, posts, ringMax).history| == |st.history| + |Accepted(posts)|
    decreases posts
  {
    if posts != [] {
      var p := posts[0];
      PublishValid(st, p.0, p.1, ringMax);
      SinglePublisherContiguous(PublishTo(st, p.0, p.1, ringMax), posts[1..], ringMax);
    }
  }

  /** What is published is exactly the valid bodies, in order, under the next ids. */
  lemma {:induction false} PublishesTheValid(st: Stream, posts: seq<(string, bool)>, ringMax: nat, i: nat)
    requires StreamValid(st, ringMax) && i < |Accepted(posts)|
    ensures var all := PublishAll(st, posts, ringMax).history;
            |st.history| + i < |all| && all[|st.history| + i] == Event(|st.history| + i + 1, Accepted(posts)[i])
    decreases posts
  {
    var p, rest := posts[0], posts[1..];
    var next := PublishTo(st, p.0, p.1, ringMax);
    PublishValid(st, p.0, p.1, ringMax);
    SinglePublisherContiguous(next, rest, ringMax);
    if p.1 && i == 0 {
      assert PublishAll(next, rest, ringMax).history[|st.history|] == next.history[|st.history|];
    } else if p.1 {
      PublishesTheValid(next, rest, ringMax, i - 1);
    } else {
      PublishesTheValid(next, rest, ringMax, i);
    }
  }

  // ---------- replay ----------

  /** A client's Last-Event-ID: absent or empty, an integer, or text that is not an integer. */
  datatype Cursor = Absent | Numeric(n: int) | Opaque

  function After(ring: seq<Envelope>, n: int): seq<Envelope>
  {
    if ring == [] then []
    else (if ring[0].Event? && ring[0].id > n then [ring[0]] else []) + After(ring[1..], n)
  }

  function ReplayFrom(ring: seq<Envelope>, cursor: Cursor): seq<Envelope>
  {
    match cursor
    case Numeric(n) => After(ring, n)
    case _ => ring
  }

  /** Filtering a window of consecutive ids by "greater than n" cuts it at the event after n. */
  lemma {:induction false} AfterIsSlice(history: seq<Envelope>, from: nat, n: int)
    requires Numbered(history) && from <= |history|
    ensures After(history[from..], n) ==
            if n <= from then history[from..] else if n <= |history| then history[n..] else []
    decreases |history| - from
  {
    if from < |history| {
      var window, rest := history[from..], history[from + 1..];
      assert window[0] == history[from] && window[1..] == rest;
      AfterIsSlice(history, from + 1, n);
      if n <= from {
        assert window == [history[from]] + rest;
      }
    }
  }

  /** Without an id, or with text that is no integer, the last min(n, ringMax) events are replayed. */
  lemma ReplayWithoutId(st: Stream, ringMax: nat, cursor: Cursor)
    requires StreamValid(st, ringMax) && !cursor.Numeric?
    ensures var n := |st.history|;
            ReplayFrom(st.ring, cursor) == if n <= ringMax then st.history else st.history[n - ringMax..]
  {
  }

  /** Replay from a numeric id gives exactly the events after it that the ring still holds. */
  lemma ReplayIsSlice(st: Stream, ringMax: nat, n: int)
    requires StreamValid(st, ringMax) && n <= |st.history|
    ensures var start := |st.history| - |st.ring|;
            ReplayFrom(st.ring, Numeric(n)) == st.history[if n <= start then start else n..]
  {
    var start := |st.history| - |st.ring|;
    assert st.ring == st.history[start..];
    AfterIsSlice(st.history, start, n);
  }
}
