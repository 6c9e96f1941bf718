/** The objects behind the two event modules: the broker, its subscribers and the SSE response, updated in place
    as harness/events.py and harness/main.py do, and each method proved against a step function of Events or
    Splice. */
module EventStreams {
  import opened Seqs
  import opened Events
  import opened Splice

  class Subscriber {
    var queue: seq<Item>
    var closed: bool
    var phase: Phase

    function View(): Sub
      reads this
    {
      Sub(queue, closed, phase)
    }

    constructor ()
      ensures View() == FRESH
    {
      queue, closed, phase := [], false, Getting;
    }

    method PutNowait(x: Item, max: nat) returns (full: bool)
      modifies this`queue
      ensures full <==> old(|queue|) >= max
      ensures queue == Put(old(queue), x, max)
    {
      full := |queue| >= max;
      if !full {
        queue := queue + [x];
      }
    }
  }

  class EventStream {
    const queueMax: nat
    const ringMax: nat
    var nextId: nat
    var ring: seq<Envelope>
    var subscribers: set<Subscriber>
    ghost var history: seq<Envelope>

    ghost function View(): Stream
      reads this
    {
      Stream(nextId, ring, history)
    }

    ghost predicate Valid()
      reads this
    {
      0 < queueMax && StreamValid(View(), ringMax)
    }

    constructor (queueMax: int, ringMax: int)
      ensures Valid() && subscribers == {} && View() == Stream(0, [], [])
      ensures this.queueMax == (if queueMax > 1 then queueMax else 1)
      ensures this.ringMax == (if ringMax > 1 then ringMax else 1)
    {
      this.queueMax := if queueMax > 1 then queueMax else 1;
      this.ringMax := if ringMax > 1 then ringMax else 1;
      nextId, ring, subscribers, history := 0, [], {}, [];
    }

    method Subscribe() returns (sub: Subscriber)
      modifies this`subscribers
      ensures fresh(sub) && sub.View() == FRESH && subscribers == old(subscribers) + {sub}
    {
      sub := new Subscriber();
      subscribers := subscribers + {sub};
    }

    method RemoveSubscriber(sub: Subscriber)
      modifies this`subscribers
      ensures subscribers == old(subscribers) - {sub}
    {
      if sub in subscribers {
        subscribers := subscribers - {sub};
      }
    }

    method EvictSlow(sub: Subscriber)
      modifies this`subscribers, sub
      ensures sub.View() == Evict(old(sub.View()), nextId, queueMax)
      ensures subscribers == old(subscribers) - {sub}
    {
      sub.closed := true;
      var overrun := Overrun(nextId, |sub.queue|);
      if sub.queue != [] {
        sub.queue := sub.queue[1..];
      }
      var _ := sub.PutNowait(Env(overrun), queueMax);
      var _ := sub.PutNowait(Sentinel, queueMax);
      RemoveSubscriber(sub);
    }

    method Fanout(e: Envelope)
      requires 0 < queueMax
      modifies this`subscribers, subscribers
      ensures forall s :: s in old(subscribers) ==>
                s.View() == Offer(old(s.View()), e, nextId, queueMax)
      ensures subscribers == set s | s in old(subscribers) && (s.closed ==> old(s.closed))
    {
      var todo := subscribers;
      while todo != {}
        invariant todo <= old(subscribers)
        invariant forall s :: s in old(subscribers) ==>
                    s.View() == if s in todo then old(s.View()) else Offer(old(s.View()), e, nextId, queueMax)
        invariant subscribers == set s | s in old(subscribers) && (s.closed ==> old(s.closed))
        decreases |todo|
      {
        var sub :| sub in todo;
        todo := todo - {sub};
        if !sub.closed {
          var full := sub.PutNowait(Env(e), queueMax);
          if full {
            EvictSlow(sub);
          }
        }
      }
    }

    /** Assign an id, validate, give the id back on rejection unless someone took the next one, else append to
        the ring and fan out. `valid` is the validator's verdict on this envelope. */
    method Publish(body: string, valid: bool) returns (e: Option<Envelope>)
      requires Valid()
      modifies this, subscribers
      ensures Valid()
      ensures View() == PublishTo(old(View()), body, valid, ringMax)
      ensures e == if valid then Some(Event(old(nextId) + 1, body)) else None
      ensures forall s :: s in old(subscribers) ==>
                s.View() == if valid then Offer(old(s.View()), Event(nextId, body), nextId, queueMax)
                            else old(s.View())
      ensures subscribers == set s | s in old(subscribers) && (s.closed ==> old(s.closed))
    {
      PublishValid(View(), body, valid, ringMax);
      nextId := nextId + 1;
      var mine := nextId;
      if !valid {
        if nextId == mine {
          nextId := nextId - 1;
        }
        return None;
      }
      var envelope := Event(mine, body);
      ring := LastN(ring + [envelope], ringMax);
      history := history + [envelope];
      Fanout(envelope);
      return Some(envelope);
    }

    /** One resumption of the subscription's iterator; ending it also takes it off the registry. */
    method Resume(sub: Subscriber) returns (p: Pulled)
      modifies this`subscribers, sub
      ensures (sub.View(), p) == Pull(old(sub.View()))
      ensures var s := old(sub.View());
              && (p == Blocked <==> s.queue == [] && !s.phase.Finished? && (!s.closed || !s.phase.AtYield?))
              && (forall e, rest :: !s.phase.Finished? && s.queue == [Env(e)] + rest ==>
                    p == Yielded(e) && sub.queue == rest)
      ensures subscribers == if p.Stopped? then old(subscribers) - {sub} else old(subscribers)
    {
      if sub.phase.Finished? || (sub.phase.AtYield? && sub.closed && sub.queue == []) {
        sub.phase := Finished;
        RemoveSubscriber(sub);
        return Stopped;
      }
      if sub.queue == [] {
        sub.phase := Getting;
        return Blocked;
      }
      var item := sub.queue[0];
      sub.queue := sub.queue[1..];
      if item.Sentinel? {
        sub.phase := Finished;
        RemoveSubscriber(sub);
        return Stopped;
      }
      sub.phase := AtYield;
      return Yielded(item.e);
    }

    method Replay(cursor: Cursor) returns (out: seq<Envelope>)
      ensures out == ReplayFrom(ring, cursor)
    {
      if !cursor.Numeric? {
        return ring;
      }
      out := [];
      var i := 0;
      while i < |ring|
        invariant i <= |ring|
        invariant After(ring, cursor.n) == out + After(ring[i..], cursor.n)
      {
        if ring[i].Event? && ring[i].id > cursor.n {
          out := out + [ring[i]];
        }
        i := i + 1;
      }
    }
  }

  /** One GET /events/stream response. The fields are the generator's locals; the ghost ones are the bookkeeping
      of Splice.Conn. */
  class EventsResponse {
    const stream: EventStream
    const sub: Subscriber
    var snapshot: nat
    var replay: seq<Envelope>
    var pos: nat
    var delivered: set<EventId>
    var task: Task
    ghost var sent: seq<Envelope>
    ghost var base: nat
    ghost var clean: nat

    ghost function View(): Conn
      reads this, sub
    {
      Conn(snapshot, replay, pos, delivered, task, sub.View(), sent, base, clean)
    }

    constructor (stream: EventStream, cursor: Cursor)
      modifies stream`subscribers
      ensures this.stream == stream && fresh(sub)
      ensures View() == Connect(old(stream.View()), cursor)
      ensures stream.subscribers == old(stream.subscribers) + {sub}
    {
      this.stream := stream;
      snapshot := stream.nextId;
      var subscription := stream.Subscribe();
      sub := subscription;
      var window := stream.Replay(cursor);
      replay, pos, delivered, task := window, 0, {}, NoTask;
      sent := [];
      base := if |window| <= |stream.history| then |stream.history| - |window| else 0;
      clean := |window|;
    }

    /** Resume the generator; the frame it yields, if any. */
    method Next() returns (frame: Option<Envelope>)
      modifies this
      ensures View() == Generate(old(View()))
      ensures sent == old(sent) + if frame.Some? then [frame.value] else []
    {
      frame := None;
      if pos < |replay| {
        var e := replay[pos];
        pos := pos + 1;
        if e.Event? && e.id > snapshot {
          return;
        }
        delivered := delivered + {Id(e)};
        frame := Some(e);
        sent := sent + [e];
      } else if task.NoTask? {
        task := Waiting;
      } else if task.Got? {
        var e := task.e;
        if Id(e) in delivered {
          delivered := delivered - {Id(e)};
          task := Waiting;
        } else {
          task := NoTask;
          frame := Some(e);
          sent := sent + [e];
        }
      }
    }

    /** Let the pending `__anext__` task run. */
    method Fetch()
      requires sub as object != this
      modifies this, sub, stream`subscribers
      ensures View() == RunTask(old(View()))
    {
      if task.Waiting? {
        if !sub.closed && sub.queue != [] && sub.queue[0].Env? && !sub.phase.Finished? {
          clean := clean + 1;
        }
        var p := stream.Resume(sub);
        match p
        case Yielded(e) => task := Got(e);
        case Blocked =>
        case Stopped => task := Ended;
      }
    }
  }
}
