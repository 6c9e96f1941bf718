/** The SSE handler of harness/main.py: replay spliced to a live subscription, and a client that reconnects any
    number of times with the last id it received.

    One `World` is one stream and one client. Its actions are the stretches of code between two awaits, in any
    order: a publish, a connect, a resumption of the response generator, a run of the task that awaits the
    subscription, and a disconnect after which the client has kept any prefix of the frames sent to it. */
module Splice {
  import opened Seqs
  import opened Events

  datatype EventId = Num(n: nat) | OverrunId(at: nat)

  function Id(e: Envelope): EventId
  {
    match e
    case Event(id, _) => Num(id)
    case Overrun(at, _) => OverrunId(at)
  }

  /** What the client presents after `e` was its last frame: "<n>.overrun" is not an integer. */
  function CursorAfter(e: Envelope): Cursor
  {
    match e
    case Event(id, _) => Numeric(id)
    case Overrun(_, _) => Opaque
  }

  /** The task that awaits the subscription's next envelope on behalf of the generator. */
  datatype Task = NoTask | Waiting | Got(e: Envelope) | Ended

  /** One response. `snapshot` .. `sub` is the generator's state; `sent`, `base` and `clean` are bookkeeping no
      branch reads: the frames emitted, how many events preceded the replayed ones, and how many frames were
      replayed or taken from the subscription while it was open. */
  datatype Conn = Conn(
    snapshot: nat, replay: seq<Envelope>, pos: nat, delivered: set<EventId>, task: Task, sub: Sub,
    sent: seq<Envelope>, base: nat, clean: nat)

  /** Snapshot, subscribe and evaluate the replay: one stretch without an await. */
  function Connect(st: Stream, cursor: Cursor): Conn
  {
    var replay := ReplayFrom(st.ring, cursor);
    Conn(st.nextId, replay, 0, {}, NoTask, FRESH, [],
         if |replay| <= |st.history| then |st.history| - |replay| else 0, |replay|)
  }

  /** The generator skips this replayed envelope: it is newer than the snapshot. */
  predicate SkipsReplay(c: Conn)
  {
    c.pos < |c.replay| && c.replay[c.pos].Event? && c.replay[c.pos].id > c.snapshot
  }

  /** The generator drops this live envelope: its id was already delivered by the replay. */
  predicate DropsLive(c: Conn)
  {
    c.pos >= |c.replay| && c.task.Got? && Id(c.task.e) in c.delivered
  }

  /** One resumption of the response generator. */
  function Generate(c: Conn): Conn
  {
    if SkipsReplay(c) then c.(pos := c.pos + 1)
    else if c.pos < |c.replay| then
      var e := c.replay[c.pos];
      c.(pos := c.pos + 1, delivered := c.delivered + {Id(e)}, sent := c.sent + [e])
    else if DropsLive(c) then c.(delivered := c.delivered - {Id(c.task.e)}, task := Waiting)
    else match c.task
      case NoTask => c.(task := Waiting)
      case Got(e) => c.(task := NoTask, sent := c.sent + [e])
      case _ => c
  }

  /** One run of the task that awaits the subscription. */
  function RunTask(c: Conn): Conn
  {
    if !c.task.Waiting? then c
    else
      var (s', p) := Pull(c.sub);
      match p
      case Yielded(e) => c.(sub := s', task := Got(e), clean := if c.sub.closed then c.clean else c.clean + 1)
      case Blocked => c.(sub := s')
      case Stopped => c.(sub := s', task := Ended)
  }

  /** `start` and `lossy` are bookkeeping. `start` is the number of events before the client's reception: the numeric
      id it began with, or else the events that preceded the first connection it kept a frame of. `lossy` says that
      it has kept a frame of a connection that began behind its cursor's place in the ring, or a frame taken from
      the queue of an evicted subscription. */
  datatype World = World(
    stream: Stream, conn: Option<Conn>, cursor: Cursor, received: seq<Envelope>, start: Option<nat>, lossy: bool)

  datatype Action = Post(body: string, valid: bool) | Open | Emit | Fetch | Disconnect(kept: nat)

  function Step(w: World, a: Action, ringMax: nat, q: nat): World
  {
    match a
    case Post(body, valid) =>
      var st := PublishTo(w.stream, body, valid, ringMax);
      if valid && w.conn.Some? then
        var c := w.conn.value;
        w.(stream := st, conn := Some(c.(sub := Offer(c.sub, Event(st.nextId, body), st.nextId, q))))
      else w.(stream := st)
    case Open => if w.conn.Some? then w else w.(conn := Some(Connect(w.stream, w.cursor)))
    case Emit => if w.conn.Some? then w.(conn := Some(Generate(w.conn.value))) else w
    case Fetch => if w.conn.Some? then w.(conn := Some(RunTask(w.conn.value))) else w
    case Disconnect(kept) =>
      if w.conn.Some? then
        var c := w.conn.value;
        var n := if kept <= |c.sent| then kept else |c.sent|;
        if n == 0 then w.(conn := None)
        else World(w.stream, None, CursorAfter(c.sent[n - 1]), w.received + c.sent[..n],
                   if w.start.Some? then w.start else Some(c.base),
                   w.lossy || n > c.clean || (w.start.Some? && w.cursor != Numeric(c.base)))
      else w
  }

  function Run(w: World, actions: seq<Action>, ringMax: nat, q: nat): World
    decreases actions
  {
    if actions == [] then w else Run(Step(w, actions[0], ringMax, q), actions[1..], ringMax, q)
  }

  // ---------- one connection: the splice ----------

  function Held(t: Task): seq<Envelope>
  {
    if t.Got? then [t.e] else []
  }

  /** What this connection has taken from replay and subscription so far, sent or about to be. */
  function Taken(c: Conn): seq<Envelope>
    requires c.pos <= |c.replay|
  {
    c.sent + c.replay[c.pos..] + Held(c.task)
  }

  ghost predicate Shape(c: Conn, history: seq<Envelope>)
  {
    && c.pos <= |c.replay| <= c.clean
    && c.snapshot == c.base + |c.replay| <= |history|
    && c.replay == history[c.base..c.snapshot]
    && (if c.pos < |c.replay| then c.task.NoTask? && |c.sent| == c.pos else |c.replay| <= |c.sent|)
    && (forall i :: i in c.delivered ==> i.Num? && i.n <= c.snapshot)
    && (c.task.Ended? ==> c.sub.phase.Finished?)
  }

  /** The splice is concatenation: sent frames, then the rest of the replay, then the envelope in hand, is the
      replay followed by what the subscription yielded; and the subscription starts where the replay ends. */
  ghost predicate ConnInv(c: Conn, live: seq<Envelope>, history: seq<Envelope>, q: nat)
  {
    && Shape(c, history)
    && Taken(c) == c.replay + live
    && Flow(live, c.sub, history[c.snapshot..], c.clean - |c.replay|, q)
  }

  lemma ConnectInv(st: Stream, cursor: Cursor, ringMax: nat, q: nat)
    requires StreamValid(st, ringMax) && 0 < q
    requires cursor.Numeric? ==> cursor.n <= |st.history|
    ensures ConnInv(Connect(st, cursor), [], st.history, q)
    ensures cursor.Numeric? && 0 <= cursor.n ==>
              && cursor.n <= Connect(st, cursor).base
              && (Connect(st, cursor).base == cursor.n <==> |st.history| - cursor.n <= ringMax)
  {
    if cursor.Numeric? {
      ReplayIsSlice(st, ringMax, cursor.n);
    }
  }

  /** What a subscription yields is either an overrun or an event published to it. */
  lemma LiveIds(live: seq<Envelope>, s: Sub, published: seq<Envelope>, m: nat, q: nat, k: nat)
    requires Flow(live, s, published, m, q) && k < |live|
    ensures live[k].Event? ==> live[k] in published
  {
    var all := live + Envs(s.queue);
    assert live[k] == all[k];
    if s.closed {
      assert all[k] in published[..m] || all[k] in published[m + 1..m + q] || all[k].Overrun?;
    }
  }

  /** A live envelope is newer than the snapshot. */
  lemma LiveIsNewer(live: seq<Envelope>, s: Sub, history: seq<Envelope>, from: nat, m: nat, q: nat, j: nat)
    requires from <= |history| && Numbered(history) && Flow(live, s, history[from..], m, q) && j < |live|
    ensures live[j].Event? ==> from < live[j].id <= |history|
  {
    LiveIds(live, s, history[from..], m, q, j);
    assert forall i :: 0 <= i < |history| - from ==> history[from..][i] == history[from + i];
  }

  /** The j-th envelope of a subscription that began after `from` events. */
  lemma LiveShape(live: seq<Envelope>, s: Sub, history: seq<Envelope>, from: nat, m: nat, q: nat, j: nat)
    requires from <= |history| && Numbered(history) && Flow(live, s, history[from..], m, q) && j < |live|
    ensures j < m ==> from + j < |history| && live[j] == history[from + j]
    ensures j == m ==> live[j].Overrun? || live[j].id == from + j + 2
  {
    var published := history[from..];
    assert live[j] == (live + Envs(s.queue))[j];
    if s.closed {
      var out := Survivors(published, m, q);
      assert j < m ==> out[j] == published[j];
      assert m <= j < m + q - 1 ==> out[j] == published[j + 1];
    }
  }

  lemma TaskHoldsLast(c: Conn, live: seq<Envelope>)
    requires c.pos == |c.replay| && |c.replay| <= |c.sent| && Taken(c) == c.replay + live && c.task.Got?
    ensures live != [] && c.task.e == live[|live| - 1]
  {
    assert Taken(c)[|Taken(c)| - 1] == c.task.e;
  }

  /** The dedup filters never fire: no replayed envelope is newer than the snapshot, and no live envelope was
      delivered by the replay. */
  lemma NeverFilters(c: Conn, live: seq<Envelope>, history: seq<Envelope>, q: nat)
    requires ConnInv(c, live, history, q) && Numbered(history)
    ensures !SkipsReplay(c) && !DropsLive(c)
  {
    if c.pos < |c.replay| {
      assert c.replay[c.pos] == history[c.base + c.pos];
    } else if c.task.Got? {
      TaskHoldsLast(c, live);
      LiveIsNewer(live, c.sub, history, c.snapshot, c.clean - |c.replay|, q, |live| - 1);
    }
  }

  lemma GenerateTaken(c: Conn, history: seq<Envelope>)
    requires Shape(c, history) && !SkipsReplay(c) && !DropsLive(c)
    requires c.pos < |c.replay| ==> c.replay[c.pos].Event? && c.replay[c.pos].id <= c.snapshot
    ensures Shape(Generate(c), history)
    ensures Taken(Generate(c)) == Taken(c)
    ensures Generate(c).(sent := c.sent, pos := c.pos, task := c.task, delivered := c.delivered) == c
  {
    if c.pos < |c.replay| {
      var e := c.replay[c.pos];
      assert c.replay[c.pos..] == [e] + c.replay[c.pos + 1..];
      assert c.sent + ([e] + c.replay[c.pos + 1..]) == (c.sent + [e]) + c.replay[c.pos + 1..];
    }
  }

  lemma GenerateInv(c: Conn, live: seq<Envelope>, history: seq<Envelope>, q: nat)
    requires ConnInv(c, live, history, q) && Numbered(history)
    ensures ConnInv(Generate(c), live, history, q)
  {
    NeverFilters(c, live, history, q);
    if c.pos < |c.replay| {
      assert c.replay[c.pos] == history[c.base + c.pos];
    }
    GenerateTaken(c, history);
  }

  /** What running the task adds to the live envelopes. */
  function Fetched(c: Conn): seq<Envelope>
  {
    if c.task.Waiting? && Pull(c.sub).1.Yielded? then [Pull(c.sub).1.e] else []
  }

  lemma RunTaskInv(c: Conn, live: seq<Envelope>, history: seq<Envelope>, q: nat)
    requires ConnInv(c, live, history, q)
    ensures ConnInv(RunTask(c), live + Fetched(c), history, q)
  {
    if c.task.Waiting? {
      FlowPull(live, c.sub, history[c.snapshot..], c.clean - |c.replay|, q);
      assert Shape(RunTask(c), history);
      assert Taken(RunTask(c)) == Taken(c) + Fetched(c);
      assert c.replay + live + Fetched(c) == c.replay + (live + Fetched(c));
      if Fetched(c) == [] {
        assert live + [] == live;
      }
    } else {
      assert live + [] == live;
    }
  }

  /** The connection after event number |history| + 1 was offered to its subscription. */
  function Offered(c: Conn, history: seq<Envelope>, body: string, q: nat): Conn
  {
    c.(sub := Offer(c.sub, Event(|history| + 1, body), |history| + 1, q))
  }

  lemma ShapeGrows(c: Conn, history: seq<Envelope>, body: string, q: nat)
    requires Shape(c, history)
    ensures Shape(Offered(c, history, body, q), history + [Event(|history| + 1, body)])
    ensures Taken(Offered(c, history, body, q)) == Taken(c)
  {
    assert (history + [Event(|history| + 1, body)])[c.base..c.snapshot] == history[c.base..c.snapshot];
  }

  lemma SuffixGrows(history: seq<Envelope>, e: Envelope, from: nat)
    requires from <= |history|
    ensures (history + [e])[from..] == history[from..] + [e]
  {
  }

  /** A subscription that began after `from` events is offered the next one. */
  lemma FlowGrows(live: seq<Envelope>, s: Sub, history: seq<Envelope>, from: nat, m: nat, q: nat, body: string)
    requires from <= |history| && Flow(live, s, history[from..], m, q)
    ensures var e := Event(|history| + 1, body);
            Flow(live, Offer(s, e, |history| + 1, q), (history + [e])[from..], m, q)
  {
    SuffixGrows(history, Event(|history| + 1, body), from);
    FlowOffer(live, s, history[from..], m, q, |history| + 1, body);
  }

  lemma OfferInv(c: Conn, live: seq<Envelope>, history: seq<Envelope>, body: string, q: nat)
    requires ConnInv(c, live, history, q)
    ensures ConnInv(Offered(c, history, body, q), live, history + [Event(|history| + 1, body)], q)
  {
    ShapeGrows(c, history, body, q);
    FlowGrows(live, c.sub, history, c.snapshot, c.clean - |c.replay|, q, body);
  }

  // ---------- all connections: exactly once ----------

  /** Frame i of the whole reception, over all connections, is event k0 + i + 1. */
  predicate InOrderAt(received: seq<Envelope>, k0: nat, i: nat)
    requires i < |received|
  {
    received[i].Event? && received[i].id == k0 + i + 1
  }

  /** The client has received the events after k0 in order, each once and with none missing. */
  predicate GapFree(received: seq<Envelope>, history: seq<Envelope>, k0: nat)
  {
    k0 + |received| <= |history| && received == history[k0..k0 + |received|]
  }

  /** The reception up to here is the events after k0 and the client's cursor is the last of them. */
  predicate Exact(received: seq<Envelope>, cursor: Cursor, history: seq<Envelope>, k0: nat)
  {
    GapFree(received, history, k0) && cursor == Numeric(k0 + |received|)
  }

  ghost predicate Broken(received: seq<Envelope>, k0: nat)
  {
    exists i :: 0 <= i < |received| && !InOrderAt(received, k0, i)
  }

  ghost predicate ClientInv(w: World)
  {
    && (w.cursor.Numeric? ==> w.cursor.n <= |w.stream.history|)
    && (w.conn.Some? && w.cursor.Numeric? && 0 <= w.cursor.n ==> w.cursor.n <= w.conn.value.base)
    && (match w.start
        case None => w.received == [] && !w.lossy
        case Some(k0) =>
          if w.lossy then Broken(w.received, k0) else Exact(w.received, w.cursor, w.stream.history, k0))
  }

  ghost predicate WorldInv(w: World, live: seq<Envelope>, ringMax: nat, q: nat)
  {
    && 0 < q
    && StreamValid(w.stream, ringMax)
    && ClientInv(w)
    && (w.conn.Some? ==> ConnInv(w.conn.value, live, w.stream.history, q))
  }

  lemma SentIsTaken(c: Conn, live: seq<Envelope>, k: nat)
    requires c.pos <= |c.replay| && Taken(c) == c.replay + live && k < |c.sent|
    ensures if k < |c.replay| then c.sent[k] == c.replay[k]
            else k - |c.replay| < |live| && c.sent[k] == live[k - |c.replay|]
  {
    assert c.sent[k] == Taken(c)[k];
  }

  /** The k-th frame of a connection: while it is clean it is the next event; the first frame after that is the
      overrun itself or the event after the one that was discarded. */
  lemma SentShape(c: Conn, live: seq<Envelope>, history: seq<Envelope>, q: nat, k: nat)
    requires ConnInv(c, live, history, q) && Numbered(history) && k < |c.sent|
    ensures k < c.clean ==> c.base + k < |history| && c.sent[k] == history[c.base + k]
    ensures k == c.clean ==> c.sent[k].Overrun? || c.sent[k].id == c.base + k + 2
    ensures c.sent[k].Event? ==> c.sent[k].id <= |history|
  {
    SentIsTaken(c, live, k);
    if k < |c.replay| {
      assert c.replay[k] == history[c.base + k];
    } else {
      var j, m := k - |c.replay|, c.clean - |c.replay|;
      LiveShape(live, c.sub, history, c.snapshot, m, q, j);
      LiveIsNewer(live, c.sub, history, c.snapshot, m, q, j);
      assert c.snapshot + j == c.base + k && (j < m <==> k < c.clean) && (j == m <==> k == c.clean);
    }
  }

  /** A first frame that does not continue the client's cursor, or a frame past the clean ones, breaks the order. */
  lemma LossyFrame(
    received: seq<Envelope>, c: Conn, live: seq<Envelope>, history: seq<Envelope>, k0: nat, n: nat, q: nat)
    requires ConnInv(c, live, history, q) && Numbered(history) && 0 < n <= |c.sent|
    requires k0 + |received| <= c.base
    requires k0 + |received| != c.base || n > c.clean
    ensures Broken(received + c.sent[..n], k0)
  {
    var after := received + c.sent[..n];
    var k := if k0 + |received| != c.base then 0 else c.clean;
    SentShape(c, live, history, q, k);
    assert after[|received| + k] == c.sent[k];
    assert !InOrderAt(after, k0, |received| + k);
  }

  lemma CleanFrames(
    received: seq<Envelope>, c: Conn, live: seq<Envelope>, history: seq<Envelope>, k0: nat, n: nat, q: nat)
    requires ConnInv(c, live, history, q) && Numbered(history) && 0 < n <= |c.sent| && n <= c.clean
    requires k0 + |received| == c.base && received == history[k0..c.base]
    ensures Exact(received + c.sent[..n], CursorAfter(c.sent[n - 1]), history, k0)
  {
    forall k | 0 <= k < n
      ensures c.base + k < |history| && c.sent[k] == history[c.base + k]
    {
      SentShape(c, live, history, q, k);
    }
    assert c.base + (n - 1) < |history|;
    assert c.sent[..n] == history[c.base..c.base + n];
    assert history[k0..c.base] + history[c.base..c.base + n] == history[k0..c.base + n];
  }

  /** Keeping the first n frames of a connection that continues, or does not continue, a reception after k0. */
  lemma KeepFrames(received: seq<Envelope>, cursor: Cursor, lossy: bool, c: Conn, live: seq<Envelope>,
                   history: seq<Envelope>, k0: nat, n: nat, q: nat)
    requires ConnInv(c, live, history, q) && Numbered(history) && 0 < n <= |c.sent|
    requires if lossy then Broken(received, k0) else Exact(received, cursor, history, k0)
    requires cursor.Numeric? && 0 <= cursor.n ==> cursor.n <= c.base
    ensures if lossy || n > c.clean || cursor != Numeric(c.base) then Broken(received + c.sent[..n], k0)
            else Exact(received + c.sent[..n], CursorAfter(c.sent[n - 1]), history, k0)
  {
    if lossy {
      var i :| 0 <= i < |received| && !InOrderAt(received, k0, i);
      assert !InOrderAt(received + c.sent[..n], k0, i);
    } else if n > c.clean || cursor != Numeric(c.base) {
      LossyFrame(received, c, live, history, k0, n, q);
    } else {
      CleanFrames(received, c, live, history, k0, n, q);
    }
  }

  lemma KeptCursor(c: Conn, live: seq<Envelope>, history: seq<Envelope>, n: nat, q: nat)
    requires ConnInv(c, live, history, q) && Numbered(history) && 0 < n <= |c.sent|
    ensures CursorAfter(c.sent[n - 1]).Numeric? ==> CursorAfter(c.sent[n - 1]).n <= |history|
  {
    SentShape(c, live, history, q, n - 1);
  }

  /** What a disconnect that keeps the first n frames makes of the client. */
  lemma KeptClient(w: World, n: nat, live: seq<Envelope>, ringMax: nat, q: nat)
    requires WorldInv(w, live, ringMax, q) && w.conn.Some? && 0 < n <= |w.conn.value.sent|
    ensures ClientInv(Step(w, Disconnect(n), ringMax, q))
  {
    var c, history := w.conn.value, w.stream.history;
    KeptCursor(c, live, history, n, q);
    if w.start.Some? {
      KeepFrames(w.received, w.cursor, w.lossy, c, live, history, w.start.value, n, q);
    } else {
      assert history[c.base..c.base] == [];
      KeepFrames([], Numeric(c.base), false, c, live, history, c.base, n, q);
    }
  }

  lemma KeepsAtMostSent(w: World, kept: nat, ringMax: nat, q: nat)
    requires w.conn.Some? && |w.conn.value.sent| < kept
    ensures Step(w, Disconnect(kept), ringMax, q) == Step(w, Disconnect(|w.conn.value.sent|), ringMax, q)
  {
  }

  lemma DisconnectKept(w: World, n: nat, live: seq<Envelope>, ringMax: nat, q: nat)
    requires WorldInv(w, live, ringMax, q) && w.conn.Some? && n <= |w.conn.value.sent|
    ensures WorldInv(Step(w, Disconnect(n), ringMax, q), [], ringMax, q)
  {
    if n > 0 {
      KeptClient(w, n, live, ringMax, q);
    }
  }

  lemma DisconnectInv(w: World, kept: nat, live: seq<Envelope>, ringMax: nat, q: nat)
    requires WorldInv(w, live, ringMax, q) && w.conn.Some?
    ensures WorldInv(Step(w, Disconnect(kept), ringMax, q), [], ringMax, q)
  {
    if |w.conn.value.sent| < kept {
      KeepsAtMostSent(w, kept, ringMax, q);
      DisconnectKept(w, |w.conn.value.sent|, live, ringMax, q);
    } else {
      DisconnectKept(w, kept, live, ringMax, q);
    }
  }

  /** What the step takes from the subscription. */
  function LiveAfter(w: World, live: seq<Envelope>, a: Action): seq<Envelope>
  {
    if a.Disconnect? || w.conn.None? then [] else if a.Fetch? then live + Fetched(w.conn.value) else live
  }

  lemma ExactGrows(received: seq<Envelope>, cursor: Cursor, history: seq<Envelope>, more: seq<Envelope>, k0: nat)
    requires Exact(received, cursor, history, k0) && history <= more
    ensures Exact(received, cursor, more, k0)
  {
    assert more[..|history|] == history;
    assert more[k0..k0 + |received|] == history[k0..k0 + |received|];
  }

  /** A step that leaves stream, cursor and reception alone and keeps its connection's invariant. */
  lemma ConnStepInv(w: World, c: Conn, live: seq<Envelope>, live': seq<Envelope>, ringMax: nat, q: nat)
    requires WorldInv(w, live, ringMax, q)
    requires ConnInv(c, live', w.stream.history, q)
    requires w.cursor.Numeric? && 0 <= w.cursor.n ==> w.cursor.n <= c.base
    ensures WorldInv(w.(conn := Some(c)), live', ringMax, q)
  {
  }

  lemma PostStep(w: World, body: string, ringMax: nat, q: nat)
    requires StreamValid(w.stream, ringMax)
    ensures var t := Step(w, Post(body, true), ringMax, q);
            && t.stream == PublishTo(w.stream, body, true, ringMax)
            && t.stream.history == w.stream.history + [Event(|w.stream.history| + 1, body)]
            && t.conn == (if w.conn.None? then None else Some(Offered(w.conn.value, w.stream.history, body, q)))
            && t.cursor == w.cursor && t.received == w.received && t.start == w.start && t.lossy == w.lossy
  {
  }

  lemma PostClient(w: World, body: string, live: seq<Envelope>, ringMax: nat, q: nat)
    requires WorldInv(w, live, ringMax, q)
    ensures StreamValid(Step(w, Post(body, true), ringMax, q).stream, ringMax)
    ensures ClientInv(Step(w, Post(body, true), ringMax, q))
  {
    PostStep(w, body, ringMax, q);
    PublishValid(w.stream, body, true, ringMax);
    if w.start.Some? && !w.lossy {
      ExactGrows(w.received, w.cursor, w.stream.history, PublishTo(w.stream, body, true, ringMax).history,
                 w.start.value);
    }
  }

  lemma PostConn(w: World, body: string, live: seq<Envelope>, ringMax: nat, q: nat)
    requires WorldInv(w, live, ringMax, q) && w.conn.Some?
    ensures var t := Step(w, Post(body, true), ringMax, q);
            t.conn.Some? && ConnInv(t.conn.value, live, t.stream.history, q)
  {
    PostStep(w, body, ringMax, q);
    OfferInv(w.conn.value, live, w.stream.history, body, q);
  }

  lemma PostInv(w: World, body: string, live: seq<Envelope>, ringMax: nat, q: nat)
    requires WorldInv(w, live, ringMax, q)
    ensures WorldInv(Step(w, Post(body, true), ringMax, q), live, ringMax, q)
  {
    PostClient(w, body, live, ringMax, q);
    if w.conn.Some? {
      PostConn(w, body, live, ringMax, q);
    }
  }

  lemma GenerateBase(c: Conn)
    ensures Generate(c).base == c.base
  {
  }

  lemma EmitInv(w: World, live: seq<Envelope>, ringMax: nat, q: nat)
    requires WorldInv(w, live, ringMax, q) && w.conn.Some?
    ensures WorldInv(Step(w, Emit, ringMax, q), live, ringMax, q)
  {
    GenerateInv(w.conn.value, live, w.stream.history, q);
    GenerateBase(w.conn.value);
    ConnStepInv(w, Generate(w.conn.value), live, live, ringMax, q);
  }

  lemma FetchInv(w: World, live: seq<Envelope>, ringMax: nat, q: nat)
    requires WorldInv(w, live, ringMax, q) && w.conn.Some?
    ensures WorldInv(Step(w, Fetch, ringMax, q), live + Fetched(w.conn.value), ringMax, q)
  {
    var d := RunTask(w.conn.value);
    assert d.base == w.conn.value.base;
    RunTaskInv(w.conn.value, live, w.stream.history, q);
    ConnStepInv(w, d, live, live + Fetched(w.conn.value), ringMax, q);
  }

  lemma OpenInv(w: World, live: seq<Envelope>, ringMax: nat, q: nat)
    requires WorldInv(w, live, ringMax, q) && w.conn.None?
    ensures WorldInv(Step(w, Open, ringMax, q), [], ringMax, q)
  {
    ConnectInv(w.stream, w.cursor, ringMax, q);
    ConnStepInv(w, Connect(w.stream, w.cursor), live, [], ringMax, q);
  }

  /** Steps that find nothing to act on. */
  lemma IdleInv(w: World, a: Action, live: seq<Envelope>, ringMax: nat, q: nat)
    requires WorldInv(w, live, ringMax, q)
    requires match a
             case Post(_, valid) => !valid
             case Open => w.conn.Some?
             case _ => w.conn.None?
    ensures Step(w, a, ringMax, q) == w && WorldInv(w, LiveAfter(w, live, a), ringMax, q)
  {
  }

  lemma PostLive(w: World, a: Action, live: seq<Envelope>, ringMax: nat, q: nat)
    requires a.Post? && WorldInv(Step(w, a, ringMax, q), live, ringMax, q)
    ensures WorldInv(Step(w, a, ringMax, q), LiveAfter(w, live, a), ringMax, q)
  {
  }

  lemma StepInv(w: World, a: Action, live: seq<Envelope>, ringMax: nat, q: nat)
    requires WorldInv(w, live, ringMax, q)
    ensures WorldInv(Step(w, a, ringMax, q), LiveAfter(w, live, a), ringMax, q)
  {
    match a
    case Post(body, valid) =>
      if valid {
        PostInv(w, body, live, ringMax, q);
        PostLive(w, a, live, ringMax, q);
      } else {
        IdleInv(w, a, live, ringMax, q);
      }
    case Open => if w.conn.None? { OpenInv(w, live, ringMax, q); } else { IdleInv(w, a, live, ringMax, q); }
    case Emit => if w.conn.Some? { EmitInv(w, live, ringMax, q); } else { IdleInv(w, a, live, ringMax, q); }
    case Fetch => if w.conn.Some? { FetchInv(w, live, ringMax, q); } else { IdleInv(w, a, live, ringMax, q); }
    case Disconnect(kept) =>
      if w.conn.Some? {
        DisconnectInv(w, kept, live, ringMax, q);
      } else {
        IdleInv(w, a, live, ringMax, q);
      }
  }

  lemma {:induction false} RunInv(w: World, actions: seq<Action>, live: seq<Envelope>, ringMax: nat, q: nat)
      returns (liveAtEnd: seq<Envelope>)
    requires WorldInv(w, live, ringMax, q)
    ensures WorldInv(Run(w, actions, ringMax, q), liveAtEnd, ringMax, q)
    decreases actions
  {
    liveAtEnd := live;
    if actions != [] {
      StepInv(w, actions[0], live, ringMax, q);
      liveAtEnd :=
        RunInv(Step(w, actions[0], ringMax, q), actions[1..], LiveAfter(w, live, actions[0]), ringMax, q);
    }
  }

  /** A client that is about to connect for the first time: with no id, with text that is no integer, or with a
      numeric id that is not above the current one. */
  ghost predicate Starts(w: World, ringMax: nat)
  {
    && StreamValid(w.stream, ringMax)
    && (w.cursor.Numeric? ==> w.cursor.n <= |w.stream.history|)
    && w == World(w.stream, None, w.cursor, [],
                  if w.cursor.Numeric? && 0 <= w.cursor.n then Some(w.cursor.n) else None, false)
  }

  lemma StartsInv(w: World, ringMax: nat, q: nat)
    requires Starts(w, ringMax) && 0 < q
    ensures WorldInv(w, [], ringMax, q)
  {
    if w.start.Some? {
      assert w.stream.history[w.cursor.n..w.cursor.n] == [];
    }
  }

  lemma {:induction false} StartStays(w: World, actions: seq<Action>, ringMax: nat, q: nat)
    requires w.start.Some?
    ensures Run(w, actions, ringMax, q).start == w.start
    decreases actions
  {
    if actions != [] {
      StartStays(Step(w, actions[0], ringMax, q), actions[1..], ringMax, q);
    }
  }

  lemma GapFreeInOrder(received: seq<Envelope>, history: seq<Envelope>, k0: nat, i: nat)
    requires Numbered(history) && GapFree(received, history, k0) && i < |received|
    ensures InOrderAt(received, k0, i)
  {
    assert received[i] == history[k0 + i];
  }

  lemma BrokenHasGap(received: seq<Envelope>, history: seq<Envelope>, k0: nat)
    requires Numbered(history) && Broken(received, k0)
    ensures !GapFree(received, history, k0)
  {
    if GapFree(received, history, k0) {
      var i :| 0 <= i < |received| && !InOrderAt(received, k0, i);
      GapFreeInOrder(received, history, k0, i);
    }
  }

  /** Exactly once across reconnects. Over any number of connections, in any interleaving with publishes, the
      client has received the events after k0 in order, each once and with none missing, if and only if it never
      kept a frame of a connection that began more than ringMax events behind, nor a frame taken from the queue
      of an evicted subscription. For a client that began with a numeric id, k0 is that id; for one that began
      without, it is the number of events before the first replay it kept a frame of. */
  lemma ExactlyOnce(w: World, actions: seq<Action>, ringMax: nat, q: nat)
    requires Starts(w, ringMax) && 0 < q
    ensures var t := Run(w, actions, ringMax, q);
            && (w.start.Some? ==> t.start == w.start)
            && (match t.start
                case None => t.received == []
                case Some(k0) => GapFree(t.received, t.stream.history, k0) <==> !t.lossy)
  {
    StartsInv(w, ringMax, q);
    var live := RunInv(w, actions, [], ringMax, q);
    if w.start.Some? {
      StartStays(w, actions, ringMax, q);
    }
    var t := Run(w, actions, ringMax, q);
    if t.start.Some? && t.lossy {
      BrokenHasGap(t.received, t.stream.history, t.start.value);
    }
  }

  /** Every reconnect comes with a cursor that the ring still covers, and no connection is hung up evicted. */
  predicate Gentle(w: World, actions: seq<Action>, ringMax: nat, q: nat)
    decreases actions
  {
    actions == [] ||
    (&& (actions[0].Open? && w.conn.None? && w.start.Some? ==>
           w.cursor.Numeric? && |w.stream.history| - w.cursor.n <= ringMax)
     && (actions[0].Disconnect? && w.conn.Some? ==> !w.conn.value.sub.closed)
     && Gentle(Step(w, actions[0], ringMax, q), actions[1..], ringMax, q))
  }

  /** The connection continues where the client's cursor stands. */
  predicate Continues(w: World)
  {
    !w.lossy && (w.conn.Some? && w.start.Some? ==> w.cursor == Numeric(w.conn.value.base))
  }

  lemma OpenSentIsClean(c: Conn, live: seq<Envelope>, history: seq<Envelope>, q: nat)
    requires ConnInv(c, live, history, q) && !c.sub.closed
    ensures |c.sent| <= c.clean
  {
    assert |Taken(c)| == |c.replay| + |live|;
  }

  lemma GentleStep(w: World, a: Action, live: seq<Envelope>, ringMax: nat, q: nat)
    requires WorldInv(w, live, ringMax, q) && Continues(w) && Gentle(w, [a], ringMax, q)
    ensures Continues(Step(w, a, ringMax, q))
  {
    if a.Open? && w.conn.None? {
      ConnectInv(w.stream, w.cursor, ringMax, q);
    } else if a.Disconnect? && w.conn.Some? {
      OpenSentIsClean(w.conn.value, live, w.stream.history, q);
    } else if a.Emit? && w.conn.Some? {
      GenerateBase(w.conn.value);
    }
  }

  lemma {:induction false} GentleRun(w: World, actions: seq<Action>, live: seq<Envelope>, ringMax: nat, q: nat)
    requires WorldInv(w, live, ringMax, q) && Continues(w) && Gentle(w, actions, ringMax, q)
    ensures !Run(w, actions, ringMax, q).lossy
    decreases actions
  {
    if actions != [] {
      assert [actions[0]][1..] == [];
      GentleStep(w, actions[0], live, ringMax, q);
      StepInv(w, actions[0], live, ringMax, q);
      GentleRun(Step(w, actions[0], ringMax, q), actions[1..], LiveAfter(w, live, actions[0]), ringMax, q);
    }
  }

  /** So a client that always returns within the ring window and is never evicted misses nothing and gets nothing
      twice, over any number of reconnects. */
  lemma ReconnectsLoseNothing(w: World, actions: seq<Action>, ringMax: nat, q: nat)
    requires Starts(w, ringMax) && 0 < q && Gentle(w, actions, ringMax, q)
    ensures var t := Run(w, actions, ringMax, q);
            if t.start.None? then t.received == [] else GapFree(t.received, t.stream.history, t.start.value)
  {
    StartsInv(w, ringMax, q);
    GentleRun(w, actions, [], ringMax, q);
    ExactlyOnce(w, actions, ringMax, q);
  }

  /** In every run, whatever the connection has in hand is the replay followed by what the subscription yielded,
      nothing filtered out; and while the subscription is open, that and its queue are all events since the
      replay began. */
  lemma SpliceInEveryRun(w: World, actions: seq<Action>, ringMax: nat, q: nat)
      returns (live: seq<Envelope>)
    requires Starts(w, ringMax) && 0 < q
    ensures var t := Run(w, actions, ringMax, q);
            t.conn.Some? ==>
              var c, history := t.conn.value, t.stream.history;
              && !SkipsReplay(c) && !DropsLive(c)
              && c.pos <= |c.replay|
              && c.base + |c.replay| <= |history|
              && Taken(c) == history[c.base..c.base + |c.replay|] + live
              && NoSentinel(c.sub.queue)
              && (!c.sub.closed ==> Taken(c) + Envs(c.sub.queue) == history[c.base..])
  {
    StartsInv(w, ringMax, q);
    live := RunInv(w, actions, [], ringMax, q);
    var t := Run(w, actions, ringMax, q);
    if t.conn.Some? {
      var c, history := t.conn.value, t.stream.history;
      NeverFilters(c, live, history, q);
      if !c.sub.closed {
        assert c.replay + live + Envs(c.sub.queue) == c.replay + (live + Envs(c.sub.queue));
        assert history[c.base..c.snapshot] + history[c.snapshot..] == history[c.base..];
      }
    }
  }

  // ---------- an open connection catches up ----------

  /** n times: resume the generator, then let the pending task run. */
  function Rounds(n: nat): seq<Action>
  {
    if n == 0 then [] else [Emit, Fetch] + Rounds(n - 1)
  }

  /** Rounds still needed: one for each replayed event, one for an envelope in hand, two for each queued one. */
  function Work(c: Conn): nat
    requires c.pos <= |c.replay|
  {
    |c.replay| - c.pos + (if c.task.Got? then 1 else 0) + 2 * |c.sub.queue|
  }

  lemma JoinSlices(history: seq<Envelope>, i: nat, j: nat, k: nat)
    requires i <= j <= k <= |history|
    ensures history[i..j] + history[j..k] == history[i..k]
  {
  }

  /** One round on a connection whose subscription is open. */
  lemma RoundWorks(c: Conn, live: seq<Envelope>, history: seq<Envelope>, q: nat)
    requires ConnInv(c, live, history, q) && Numbered(history) && !c.sub.closed
    ensures var d := RunTask(Generate(c));
            && d.pos <= |d.replay| && !d.sub.closed && d.base == c.base
            && Work(d) == if Work(c) == 0 then 0 else Work(c) - 1
  {
    NeverFilters(c, live, history, q);
    var g := Generate(c);
    if g.task.Waiting? {
      OpenPull(g.sub);
      if g.sub.queue != [] {
        assert g.sub.queue == [Env(g.sub.queue[0].e)] + g.sub.queue[1..];
      }
    }
  }

  /** An open connection with no work left has sent everything. */
  lemma NoWorkLeft(c: Conn, live: seq<Envelope>, history: seq<Envelope>, q: nat)
    requires ConnInv(c, live, history, q) && !c.sub.closed && Work(c) == 0
    ensures c.sent == history[c.base..]
  {
    assert Taken(c) == c.sent;
    assert live + Envs(c.sub.queue) == live;
    JoinSlices(history, c.base, c.snapshot, |history|);
  }

  lemma RunRound(w: World, n: nat, ringMax: nat, q: nat)
    requires n > 0
    ensures Run(w, Rounds(n), ringMax, q)
            == Run(Step(Step(w, Emit, ringMax, q), Fetch, ringMax, q), Rounds(n - 1), ringMax, q)
  {
    assert Rounds(n)[0] == Emit && Rounds(n)[1..][0] == Fetch && Rounds(n)[1..][1..] == Rounds(n - 1);
  }

  /** What a round keeps and what it gets done. */
  lemma RoundInv(w: World, live: seq<Envelope>, ringMax: nat, q: nat) returns (live': seq<Envelope>)
    requires WorldInv(w, live, ringMax, q) && w.conn.Some? && !w.conn.value.sub.closed
    ensures var t := Step(Step(w, Emit, ringMax, q), Fetch, ringMax, q);
            && WorldInv(t, live', ringMax, q)
            && t == w.(conn := Some(RunTask(Generate(w.conn.value))))
  {
    EmitInv(w, live, ringMax, q);
    var e := Step(w, Emit, ringMax, q);
    FetchInv(e, live, ringMax, q);
    live' := live + Fetched(e.conn.value);
  }

  lemma {:induction false} RoundsCatchUp(w: World, n: nat, live: seq<Envelope>, ringMax: nat, q: nat)
    requires WorldInv(w, live, ringMax, q) && w.conn.Some? && !w.conn.value.sub.closed && Work(w.conn.value) <= n
    ensures var t := Run(w, Rounds(n), ringMax, q);
            && t == w.(conn := t.conn) && t.conn.Some? && !t.conn.value.sub.closed
            && t.conn.value.base == w.conn.value.base
            && t.conn.value.sent == w.stream.history[w.conn.value.base..]
    decreases n
  {
    if n == 0 {
      NoWorkLeft(w.conn.value, live, w.stream.history, q);
    } else {
      var live' := RoundInv(w, live, ringMax, q);
      RoundWorks(w.conn.value, live, w.stream.history, q);
      RoundsCatchUp(Step(Step(w, Emit, ringMax, q), Fetch, ringMax, q), n - 1, live', ringMax, q);
      RunRound(w, n, ringMax, q);
    }
  }

  /** Nothing is withheld from a live client: from any reachable state with an open connection, alternating resumptions
      and fetches bring what was sent up to every event since the replay began. */
  lemma ClientCatchesUp(w: World, actions: seq<Action>, ringMax: nat, q: nat)
    requires Starts(w, ringMax) && 0 < q
    requires var c := Run(w, actions, ringMax, q).conn; c.Some? && !c.value.sub.closed
    ensures var c := Run(w, actions, ringMax, q).conn.value;
            && c.pos <= |c.replay|
            && var t := Run(Run(w, actions, ringMax, q), Rounds(Work(c)), ringMax, q);
            && t.conn.Some? && t.conn.value.base == c.base <= |t.stream.history|
            && t.conn.value.sent == t.stream.history[c.base..]
  {
    StartsInv(w, ringMax, q);
    var live := RunInv(w, actions, [], ringMax, q);
    var t := Run(w, actions, ringMax, q);
    RoundsCatchUp(t, Work(t.conn.value), live, ringMax, q);
  }

  /** What a client keeps when a connection ends: a prefix of what was sent to it, and the last id of that as its
      cursor, if it is a number. */
  lemma KeptFrames(w: World, kept: nat, ringMax: nat, q: nat)
    requires w.conn.Some?
    ensures var t, sent := Step(w, Disconnect(kept), ringMax, q), w.conn.value.sent;
            var frames := if kept < |sent| then sent[..kept] else sent;
            && t.conn == None && t.stream == w.stream && t.received == w.received + frames
            && (t.cursor ==
                if frames == [] then w.cursor
                else match frames[|frames| - 1] case Event(id, _) => Numeric(id) case Overrun(_, _) => Opaque)
  {
    AppendNothing(w.received);
    assert w.conn.value.sent[..|w.conn.value.sent|] == w.conn.value.sent;
  }

  lemma SlicesMeet(history: seq<Envelope>, i: nat, j: nat)
    requires i <= j <= |history|
    ensures history[i..j] + history[j..] == history[i..]
  {
  }

  /** A client that has missed nothing and returns within the ring window is replayed from its cursor on. */
  lemma OpensAtCursor(t: World, live: seq<Envelope>, ringMax: nat, q: nat)
    requires WorldInv(t, live, ringMax, q) && t.conn.None? && t.start.Some? && !t.lossy
    requires t.cursor.Numeric? && |t.stream.history| - t.cursor.n <= ringMax
    ensures var c := Connect(t.stream, t.cursor);
            && Step(t, Open, ringMax, q) == t.(conn := Some(c))
            && WorldInv(t.(conn := Some(c)), [], ringMax, q) && !c.sub.closed
            && t.start.value <= c.base <= |t.stream.history|
            && t.received == t.stream.history[t.start.value..c.base]
  {
    OpenInv(t, live, ringMax, q);
    ConnectInv(t.stream, t.cursor, ringMax, q);
  }

  lemma CatchesUpFrom(t: World, c: Conn, ringMax: nat, q: nat)
    requires WorldInv(t.(conn := Some(c)), [], ringMax, q) && !c.sub.closed
    requires t.start.Some? && t.start.value <= c.base <= |t.stream.history|
    requires t.received == t.stream.history[t.start.value..c.base]
    ensures c.pos <= |c.replay|
    ensures var u := Run(t.(conn := Some(c)), Rounds(Work(c)), ringMax, q);
            && u.stream == t.stream && u.conn.Some? && u.received == t.received
            && t.received + u.conn.value.sent == t.stream.history[t.start.value..]
  {
    RoundsCatchUp(t.(conn := Some(c)), Work(c), [], ringMax, q);
    SlicesMeet(t.stream.history, t.start.value, c.base);
  }

  /** Exactly once is not empty: whenever a client that has missed nothing returns within the ring window and stays to
      the end of the rounds, it has all events after k0, up to the newest. */
  lemma ReturningCatchesUp(w: World, actions: seq<Action>, ringMax: nat, q: nat)
    requires Starts(w, ringMax) && 0 < q
    requires var t := Run(w, actions, ringMax, q);
             && t.conn.None? && t.start.Some? && !t.lossy
             && t.cursor.Numeric? && |t.stream.history| - t.cursor.n <= ringMax
    ensures var t := Run(w, actions, ringMax, q);
            var c := Connect(t.stream, t.cursor);
            && Step(t, Open, ringMax, q) == t.(conn := Some(c)) && c.pos <= |c.replay|
            && var u := Run(t.(conn := Some(c)), Rounds(Work(c)), ringMax, q);
            && u.conn.Some? && u.stream == t.stream && t.start.value <= |t.stream.history|
            && Step(u, Disconnect(|u.conn.value.sent|), ringMax, q).received == t.stream.history[t.start.value..]
  {
    StartsInv(w, ringMax, q);
    var live := RunInv(w, actions, [], ringMax, q);
    var t := Run(w, actions, ringMax, q);
    OpensAtCursor(t, live, ringMax, q);
    var c := Connect(t.stream, t.cursor);
    CatchesUpFrom(t, c, ringMax, q);
    var u := Run(t.(conn := Some(c)), Rounds(Work(c)), ringMax, q);
    KeptFrames(u, |u.conn.value.sent|, ringMax, q);
  }

  /** And a client without a connection gets one, open, for the asking. */
  lemma OpenConnects(w: World, actions: seq<Action>, ringMax: nat, q: nat)
    requires Run(w, actions, ringMax, q).conn.None?
    ensures var c := Step(Run(w, actions, ringMax, q), Open, ringMax, q).conn; c.Some? && !c.value.sub.closed
  {
  }

  // ---------- eviction: what is lost and when it comes back ----------

  /** What an evicted response sent, read to its end: every event since its replay began except the oldest one
      that was queued and those from the trigger on; then the overrun. */
  ghost predicate SentWhenEvicted(sent: seq<Envelope>, history: seq<Envelope>, base: nat, lost: nat, q: nat)
  {
    && 0 < q
    && base <= lost
    && lost + q < |history|
    && sent == history[base..lost] + history[lost + 1..lost + q] + [Overrun(lost + q + 1, q)]
  }

  lemma SliceOfSuffix(history: seq<Envelope>, from: nat, i: nat, j: nat)
    requires i <= j && from + j <= |history|
    ensures history[from..][i..j] == history[from + i..from + j]
  {
  }

  lemma SurvivorsOfHistory(history: seq<Envelope>, base: nat, snapshot: nat, m: nat, q: nat)
    requires Numbered(history) && base <= snapshot && 0 < q && snapshot + m + q < |history|
    ensures SentWhenEvicted(history[base..snapshot] + Survivors(history[snapshot..], m, q), history, base,
                            snapshot + m, q)
  {
    var lost := snapshot + m;
    var replayed, taken, kept := history[base..snapshot], history[snapshot..lost], history[lost + 1..lost + q];
    var overrun := [Overrun(lost + q + 1, q)];
    assert history[snapshot..][m + q] == history[lost + q];
    SliceOfSuffix(history, snapshot, 0, m);
    SliceOfSuffix(history, snapshot, m + 1, m + q);
    assert Survivors(history[snapshot..], m, q) == (taken + kept) + overrun;
    JoinSlices(history, base, snapshot, lost);
    Associative(replayed, taken + kept, overrun);
    Associative(replayed, taken, kept);
  }

  lemma EvictedResponse(c: Conn, live: seq<Envelope>, history: seq<Envelope>, q: nat)
    requires ConnInv(c, live, history, q) && Numbered(history) && c.pos == |c.replay| && c.task.Ended?
    ensures SentWhenEvicted(c.sent, history, c.base, c.base + c.clean, q)
  {
    FlowFinished(live, c.sub, history[c.snapshot..], c.clean - |c.replay|, q);
    SurvivorsOfHistory(history, c.base, c.snapshot, c.clean - |c.replay|, q);
    assert c.sent == Taken(c);
  }

  lemma MissedByEvicted(sent: seq<Envelope>, history: seq<Envelope>, base: nat, lost: nat, q: nat, i: nat)
    requires SentWhenEvicted(sent, history, base, lost, q) && Numbered(history) && base <= i < |history|
    ensures history[i] !in sent <==> i == lost || lost + q <= i
  {
    if i < lost {
      assert sent[i - base] == history[i];
    } else if lost < i < lost + q {
      assert sent[i - base - 1] == history[i];
    } else {
      forall j | 0 <= j < |sent|
        ensures sent[j] != history[i]
      {
        if j < lost - base {
          assert sent[j] == history[base + j];
        } else if j < lost - base + q - 1 {
          assert sent[j] == history[base + j + 1];
        }
      }
    }
  }

  lemma InRing(history: seq<Envelope>, start: nat, i: nat)
    requires Numbered(history) && start <= |history| && i < |history|
    ensures history[i] in history[start..] <==> start <= i
  {
    if start <= i {
      assert history[start..][i - start] == history[i];
    } else {
      forall j | 0 <= j < |history| - start
        ensures history[start..][j] != history[i]
      {
        assert history[start + j].id == start + j + 1;
      }
    }
  }

  /** The response has been read to its end: everything replayed, and the subscription's iterator is over. */
  predicate ReadToItsEnd(c: Conn)
  {
    c.pos == |c.replay| && c.task.Ended?
  }

  lemma RecoveryBound(sent: seq<Envelope>, history: seq<Envelope>, base: nat, lost: nat, ringMax: nat, q: nat)
    requires SentWhenEvicted(sent, history, base, lost, q) && Numbered(history)
    ensures sent[|sent| - 1] == Overrun(lost + q + 1, q)
    ensures (forall i :: base <= i < |history| && history[i] !in sent ==> history[i] in LastN(history, ringMax))
            <==> |history| - (lost + q + 1) <= ringMax - q - 1
  {
    var start := if |history| <= ringMax then 0 else |history| - ringMax;
    assert LastN(history, ringMax) == history[start..];
    MissedByEvicted(sent, history, base, lost, q, lost);
    InRing(history, start, lost);
    forall i | base <= i < |history| && history[i] !in sent
      ensures lost <= i && (history[i] in history[start..] <==> start <= i)
    {
      MissedByEvicted(sent, history, base, lost, q, i);
      InRing(history, start, i);
    }
  }

  /** In every run, an evicted client that read its response to the end reconnects with "<N>.overrun" and is
      replayed the whole ring. With M events published by then, that replay holds every event the evicted
      response missed if and only if M - N <= ringMax - queueMax - 1; with a ring no larger than the queue that
      never holds. */
  lemma OverrunRecovery(w: World, actions: seq<Action>, ringMax: nat, q: nat)
    requires Starts(w, ringMax) && 0 < q
    requires var t := Run(w, actions, ringMax, q); t.conn.Some? && ReadToItsEnd(t.conn.value)
    ensures var t := Run(w, actions, ringMax, q);
            var c, history := t.conn.value, t.stream.history;
            && c.sent != []
            && c.sent[|c.sent| - 1].Overrun?
            && var replay := ReplayFrom(t.stream.ring, CursorAfter(c.sent[|c.sent| - 1]));
            ((forall i :: c.base <= i < |history| && history[i] !in c.sent ==> history[i] in replay)
             <==> |history| - c.sent[|c.sent| - 1].at <= ringMax - q - 1)
  {
    StartsInv(w, ringMax, q);
    var live := RunInv(w, actions, [], ringMax, q);
    var t := Run(w, actions, ringMax, q);
    var c := t.conn.value;
    EvictedResponse(c, live, t.stream.history, q);
    RecoveryBound(c.sent, t.stream.history, c.base, c.base + c.clean, ringMax, q);
  }

  // ---------- runs with an eviction ----------

  lemma {:induction false} RunAppend(w: World, s: seq<Action>, t: seq<Action>, ringMax: nat, q: nat)
    ensures Run(w, s + t, ringMax, q) == Run(Run(w, s, ringMax, q), t, ringMax, q)
    decreases s
  {
    if s == [] {
      assert s + t == t;
    } else {
      assert (s + t)[1..] == s[1..] + t;
      RunAppend(Step(w, s[0], ringMax, q), s[1..], t, ringMax, q);
    }
  }

  lemma ThreeSteps(w: World, a: Action, b: Action, c: Action, ringMax: nat, q: nat)
    ensures Run(w, [a, b, c], ringMax, q) == Step(Step(Step(w, a, ringMax, q), b, ringMax, q), c, ringMax, q)
  {
    assert [a, b, c][1..] == [b, c] && [b, c][1..] == [c] && [c][1..] == [];
    var w1 := Step(w, a, ringMax, q);
    var w2 := Step(w1, b, ringMax, q);
    assert Run(w2, [c], ringMax, q) == Run(Step(w2, c, ringMax, q), [], ringMax, q);
    assert Run(w1, [b, c], ringMax, q) == Run(w2, [c], ringMax, q);
  }

  const A := Event(1, "a")
  const B := Event(2, "b")
  const C := Event(3, "c")
  const OVERRUN := Env(Overrun(3, 2))
  const EMPTY := World(Stream(0, [], []), None, Numeric(0), [], Some(0), false)
  const CONNECTED :=
    World(Stream(1, [A], [A]), Some(Conn(0, [], 0, {}, Waiting, Sub([Env(A)], false, Getting), [], 0, 0)),
          Numeric(0), [], Some(0), false)
  const RECONNECTED :=
    World(Stream(3, [A, B, C], [A, B, C]), Some(Conn(3, [C], 0, {}, NoTask, FRESH, [], 2, 1)), Numeric(2), [B],
          Some(0), true)

  /** The subscription holds two events, the third evicts it; the first envelope left is in hand. */
  function Evicted(ringMax: nat): World
  {
    World(Stream(3, LastN([A, B, C], ringMax), [A, B, C]),
          Some(Conn(0, [], 0, {}, Got(B), Sub([OVERRUN], true, AtYield), [], 0, 0)), Numeric(0), [], Some(0), false)
  }

  lemma Connects(ringMax: nat)
    requires 1 <= ringMax
    ensures Run(EMPTY, [Open, Emit, Post("a", true)], ringMax, 2) == CONNECTED
  {
    ThreeSteps(EMPTY, Open, Emit, Post("a", true), ringMax, 2);
    assert Connect(EMPTY.stream, Numeric(0)) == Conn(0, [], 0, {}, NoTask, FRESH, [], 0, 0);
    assert [] + [A] == [A] && [] + [Env(A)] == [Env(A)];
  }

  lemma RingOfThree(ringMax: nat)
    requires 1 <= ringMax
    ensures LastN(LastN([A] + [B], ringMax) + [C], ringMax) == LastN([A, B, C], ringMax)
  {
    LastNAppend([A] + [B], C, ringMax);
    assert [A] + [B] + [C] == [A, B, C];
  }

  lemma GetsEvicted(ringMax: nat)
    requires 1 <= ringMax
    ensures Run(CONNECTED, [Post("b", true), Post("c", true), Fetch], ringMax, 2) == Evicted(ringMax)
  {
    var q2 := [Env(A), Env(B)];
    ThreeSteps(CONNECTED, Post("b", true), Post("c", true), Fetch, ringMax, 2);
    RingOfThree(ringMax);
    assert q2[1..] == [Env(B)];
    assert Evict(Sub(q2, false, Getting), 3, 2).queue == [Env(B), OVERRUN];
    assert [Env(B), OVERRUN][1..] == [OVERRUN];
  }

  lemma ReadsTheRest(ringMax: nat)
    ensures var t := Run(Evicted(ringMax), [Emit, Emit, Fetch], ringMax, 2);
            t == Evicted(ringMax).(conn :=
              Some(Conn(0, [], 0, {}, Got(Overrun(3, 2)), Sub([], true, AtYield), [B], 0, 0)))
  {
    ThreeSteps(Evicted(ringMax), Emit, Emit, Fetch, ringMax, 2);
    assert [] + [B] == [B];
    assert [OVERRUN][1..] == [];
  }

  lemma ReadsTheOverrun(w: World, ringMax: nat)
    requires w.conn == Some(Conn(0, [], 0, {}, Got(Overrun(3, 2)), Sub([], true, AtYield), [B], 0, 0))
    ensures var t := Run(w, [Emit, Emit, Fetch], ringMax, 2);
            t.conn == Some(Conn(0, [], 0, {}, Ended, Sub([], true, Finished), [B, Overrun(3, 2)], 0, 0))
            && t.stream == w.stream
  {
    ThreeSteps(w, Emit, Emit, Fetch, ringMax, 2);
    assert [B] + [Overrun(3, 2)] == [B, Overrun(3, 2)];
  }

  /** From there on the response is read to its end. */
  lemma ReadsToTheEnd(ringMax: nat)
    ensures var t := Run(Evicted(ringMax), [Emit, Emit, Fetch] + [Emit, Emit, Fetch], ringMax, 2);
            && t.conn.Some? && ReadToItsEnd(t.conn.value)
            && t.conn.value.base == 0 && t.conn.value.sent == [B, Overrun(3, 2)]
            && t.stream == Evicted(ringMax).stream
  {
    RunAppend(Evicted(ringMax), [Emit, Emit, Fetch], [Emit, Emit, Fetch], ringMax, 2);
    ReadsTheRest(ringMax);
    ReadsTheOverrun(Run(Evicted(ringMax), [Emit, Emit, Fetch], ringMax, 2), ringMax);
  }

  lemma InRingOfThree(ringMax: nat)
    requires 1 <= ringMax
    ensures A in LastN([A, B, C], ringMax) <==> ringMax >= 3
    ensures C in LastN([A, B, C], ringMax)
  {
    var ring := LastN([A, B, C], ringMax);
    assert ring[|ring| - 1] == C;
    if ringMax >= 3 {
      assert ring[0] == A;
    } else {
      assert forall i :: 0 <= i < |ring| ==> ring[i] != A;
    }
  }

  const EVICTS := [Open, Emit, Post("a", true)] + [Post("b", true), Post("c", true), Fetch]
  const READS := [Emit, Emit, Fetch] + [Emit, Emit, Fetch]

  lemma RunToEviction(more: seq<Action>, ringMax: nat)
    requires 1 <= ringMax
    ensures Run(EMPTY, EVICTS + more, ringMax, 2) == Run(Evicted(ringMax), more, ringMax, 2)
  {
    Connects(ringMax);
    GetsEvicted(ringMax);
    RunAppend(EMPTY, [Open, Emit, Post("a", true)], [Post("b", true), Post("c", true), Fetch], ringMax, 2);
    RunAppend(EMPTY, EVICTS, more, ringMax, 2);
  }

  /** Such a run exists for every ring size, with queues of two: the response missed events 1 and 3, and the client
      that comes back with "3.overrun" gets both if and only if the ring holds at least three. */
  lemma OverrunRecoversOrNot(ringMax: nat)
    requires 1 <= ringMax
    ensures Starts(EMPTY, ringMax)
    ensures var t := Run(EMPTY, EVICTS + READS, ringMax, 2);
            && t.conn.Some? && ReadToItsEnd(t.conn.value)
            && t.stream.history == [A, B, C] && t.conn.value.sent == [B, Overrun(3, 2)]
            && var replay := ReplayFrom(t.stream.ring, CursorAfter(t.conn.value.sent[1]));
            C in replay && (A in replay <==> ringMax >= 3)
  {
    RunToEviction(READS, ringMax);
    ReadsToTheEnd(ringMax);
    InRingOfThree(ringMax);
  }

  const HUNG_UP := World(Stream(3, [A, B, C], [A, B, C]), None, Numeric(2), [B], Some(0), true)

  lemma HangsUp()
    ensures Step(Step(Evicted(10), Emit, 10, 2), Disconnect(1), 10, 2) == HUNG_UP
  {
    assert LastN([A, B, C], 10) == [A, B, C];
    assert [] + [B] == [B] && [B][..1] == [B];
  }

  lemma Returns()
    ensures Step(HUNG_UP, Open, 10, 2) == RECONNECTED
  {
    AfterIsSlice([A, B, C], 0, 2);
    assert [A, B, C][0..] == [A, B, C] && [A, B, C][2..] == [C];
  }

  lemma Reconnects()
    ensures Run(Evicted(10), [Emit, Disconnect(1), Open], 10, 2) == RECONNECTED
  {
    ThreeSteps(Evicted(10), Emit, Disconnect(1), Open, 10, 2);
    HangsUp();
    Returns();
  }

  lemma KeepsReading()
    ensures Run(RECONNECTED, [Emit, Disconnect(1), Open], 10, 2).received == [B, C]
    ensures Run(RECONNECTED, [Emit, Disconnect(1), Open], 10, 2).stream.history == [A, B, C]
  {
    ThreeSteps(RECONNECTED, Emit, Disconnect(1), Open, 10, 2);
  }

  /** Reconnecting with a numeric id does not make up for an eviction: here queues hold two events, a client
      that was evicted by event 3 keeps event 2, hangs up before the overrun reaches it and comes back with
      id 2. It is then given event 3, and event 1 never. */
  lemma EvictionBreaksExactlyOnce()
    ensures Starts(EMPTY, 10)
    ensures var t := Run(EMPTY, EVICTS + ([Emit, Disconnect(1), Open] + [Emit, Disconnect(1), Open]), 10, 2);
            t.stream.history == [A, B, C] && t.received == [B, C]
  {
    var s3 := [Emit, Disconnect(1), Open];
    RunToEviction(s3 + s3, 10);
    Reconnects();
    KeepsReading();
    RunAppend(Evicted(10), s3, s3, 10, 2);
  }
}
