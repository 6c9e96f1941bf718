/** The daily windows of harness/tasks.py. A date is a day number and a time of day a number of microseconds, both
    in the item's time zone; `days` says which dates match the item's day expression. */
module Windows {
  import opened Seqs

  const DAY := 86_400_000_000

  type Time = t: int | 0 <= t < DAY

  datatype Instant = Instant(date: int, time: Time)

  predicate Later(a: Instant, b: Instant)
  {
    a.date > b.date || (a.date == b.date && a.time > b.time)
  }

  /** `windowEnd` is not configured: parsing an item adds the duration to the start and keeps the time of day. */
  datatype Item = Item(start: Option<int>, end: Option<int>, windowStart: Option<Time>, duration: Option<nat>)
  {
    const windowEnd: Option<Time> :=
      if windowStart.Some? && duration.Some? then Some((windowStart.value + duration.value) % DAY) else None
  }

  predicate InDates(item: Item, d: int)
  {
    (item.start.Some? ==> item.start.value <= d) && (item.end.Some? ==> d <= item.end.value)
  }

  predicate Eligible(item: Item, days: int -> bool, d: int)
  {
    InDates(item, d) && days(d)
  }

  /** Windows that end on the day after they opened. */
  predicate Spanning(item: Item)
  {
    item.windowStart.Some? && item.windowEnd.Some? && item.windowEnd.value < item.windowStart.value
  }

  /** An early morning that the code takes for the tail of a window opened the evening before. */
  predicate InTail(item: Item, t: Time)
  {
    Spanning(item) && t < item.windowEnd.value
  }

  // ---------- the search ----------

  /** The first date looked at. */
  function FirstDate(item: Item, after: Instant): int
    requires item.windowStart.Some?
  {
    if InTail(item, after.time) || after.time >= item.windowStart.value then after.date + 1 else after.date
  }

  const MAX_DAYS := 366 * 10

  function MaxIterations(item: Item, check: int): int
  {
    if item.end.Some? then item.end.value - check + 2 else MAX_DAYS
  }

  /** The loop of `_next_window_open`. */
  function Search(item: Item, days: int -> bool, check: int, iterations: nat): Option<int>
    decreases iterations
  {
    if iterations == 0 then None
    else if item.start.Some? && check < item.start.value then Search(item, days, check + 1, iterations - 1)
    else if item.end.Some? && check > item.end.value then None
    else if days(check) then Some(check)
    else Search(item, days, check + 1, iterations - 1)
  }

  /** `_next_window_open` */
  function NextOpen(item: Item, days: int -> bool, after: Instant): Option<Instant>
  {
    if item.windowStart.None? then None
    else
      var first := FirstDate(item, after);
      var iterations := MaxIterations(item, first);
      var found := Search(item, days, first, if iterations < 0 then 0 else iterations);
      if found.None? then None else Some(Instant(found.value, item.windowStart.value))
  }

  method NextWindowOpen(item: Item, days: int -> bool, after: Instant) returns (next: Option<Instant>)
    ensures next == NextOpen(item, days, after)
  {
    if item.windowStart.None? {
      return None;
    }
    var checkDate := after.date;
    var spanning := item.windowEnd.Some? && item.windowEnd.value < item.windowStart.value;
    if spanning && after.time < item.windowEnd.value {
      checkDate := checkDate + 1;
    } else if after.time >= item.windowStart.value {
      checkDate := checkDate + 1;
    }
    var maxIterations := if item.end.Some? then item.end.value - checkDate + 2 else MAX_DAYS;
    var i := 0;
    ghost var spec := NextOpen(item, days, after);
    while i < maxIterations
      invariant i == 0 || i <= maxIterations
      invariant var left := if i < maxIterations then maxIterations - i else 0;
                var found := Search(item, days, checkDate, left);
                spec == if found.None? then None else Some(Instant(found.value, item.windowStart.value))
    {
      i := i + 1;
      if item.start.Some? && checkDate < item.start.value {
        checkDate := checkDate + 1;
        continue;
      }
      if item.end.Some? && checkDate > item.end.value {
        return None;
      }
      if days(checkDate) {
        return Some(Instant(checkDate, item.windowStart.value));
      }
      checkDate := checkDate + 1;
    }
    return None;
  }

  /** The search finds the first eligible date of its range, if there is one. */
  lemma {:induction false} SearchFinds(item: Item, days: int -> bool, check: int, iterations: nat)
    ensures var found := Search(item, days, check, iterations);
            && (found.Some? ==>
                  && check <= found.value < check + iterations && Eligible(item, days, found.value)
                  && forall d :: check <= d < found.value ==> !Eligible(item, days, d))
            && (found.None? ==> forall d :: check <= d < check + iterations ==> !Eligible(item, days, d))
    decreases iterations
  {
    if iterations > 0 {
      SearchFinds(item, days, check + 1, iterations - 1);
    }
  }

  // ---------- openings ----------

  predicate Opening(item: Item, days: int -> bool, i: Instant)
  {
    item.windowStart == Some(i.time) && Eligible(item, days, i.date)
  }

  ghost predicate LeastOpeningAfter(item: Item, days: int -> bool, after: Instant, i: Instant)
  {
    && Opening(item, days, i) && Later(i, after)
    && forall j :: Opening(item, days, j) && Later(j, after) ==> !Later(i, j)
  }

  /** What a search for the next opening owes its caller: the least opening strictly after `after`; or none, when
      there is none, or when an item without an end has none in the next MAX_DAYS days looked at. */
  ghost predicate Exact(item: Item, days: int -> bool, after: Instant, next: Option<Instant>)
  {
    && (next.Some? ==> LeastOpeningAfter(item, days, after, next.value))
    && (next.None? ==> forall j :: Opening(item, days, j) && Later(j, after) ==>
          item.end.None? && j.date >= FirstDate(item, after) + MAX_DAYS)
  }

  /** An opening after `after` is on the first date looked at or later, but for the one this evening when `after`
      is in the early morning of a window that spans midnight. */
  lemma OpeningsAreAhead(item: Item, days: int -> bool, after: Instant, j: Instant)
    requires Opening(item, days, j)
    ensures j.date >= FirstDate(item, after) ==> Later(j, after)
    ensures Later(j, after) && j.date < FirstDate(item, after) ==> InTail(item, after.time) && j.date == after.date
  {
  }

  lemma NextOpenShape(item: Item, days: int -> bool, after: Instant)
    requires item.windowStart.Some?
    ensures var next, first := NextOpen(item, days, after), FirstDate(item, after);
            && (next.Some? ==>
                  && Opening(item, days, next.value) && next.value.date >= first
                  && forall d :: first <= d < next.value.date ==> !Eligible(item, days, d))
            && (next.None? ==>
                  forall d :: first <= d && Eligible(item, days, d) ==> item.end.None? && d >= first + MAX_DAYS)
  {
    var first := FirstDate(item, after);
    var iterations := MaxIterations(item, first);
    SearchFinds(item, days, first, if iterations < 0 then 0 else iterations);
  }

  /** How far the search looks, in days: a matching day after `after` is found up to the end date, and without an
      end date when it comes within 3659 days; and without an end date none is found when none matches in 3660. */
  lemma FoundWithinTenYears(item: Item, days: int -> bool, after: Instant, d: int)
    requires item.windowStart.Some?
    ensures after.date < d && days(d)
            && (item.start.None? || item.start.value <= d)
            && (if item.end.Some? then d <= item.end.value else d <= after.date + 3659) ==>
              NextOpen(item, days, after).Some? && NextOpen(item, days, after).value.date <= d
    ensures item.end.None? && (forall e :: after.date <= e <= after.date + 3660 ==> !days(e)) ==>
              NextOpen(item, days, after) == None
  {
    var first := FirstDate(item, after);
    NextOpenShape(item, days, after);
    if Eligible(item, days, d) && after.date < d {
      assert first <= d;
    }
    SearchFinds(item, days, first, MAX_DAYS);
  }

  /** The search is exact if and only if it does not skip this evening's opening: `after` is in the early morning
      before a midnight-spanning window's end, and today is an eligible day. */
  lemma ExactUnlessTonightSkipped(item: Item, days: int -> bool, after: Instant)
    ensures Exact(item, days, after, NextOpen(item, days, after)) <==>
              !(InTail(item, after.time) && Eligible(item, days, after.date))
  {
    if item.windowStart.Some? {
      NextOpenShape(item, days, after);
      forall j | Opening(item, days, j)
        ensures j.date >= FirstDate(item, after) ==> Later(j, after)
        ensures Later(j, after) && j.date < FirstDate(item, after) ==> InTail(item, after.time) && j.date == after.date
      {
        OpeningsAreAhead(item, days, after, j);
      }
      if InTail(item, after.time) && Eligible(item, days, after.date) {
        var tonight := Instant(after.date, item.windowStart.value);
        assert Opening(item, days, tonight) && Later(tonight, after);
      }
    }
  }

  /** Searching from an opening is always exact. */
  lemma ExactFromOpening(item: Item, days: int -> bool, i: Instant)
    requires Opening(item, days, i)
    ensures Exact(item, days, i, NextOpen(item, days, i))
    ensures NextOpen(item, days, i).Some? ==> NextOpen(item, days, i).value.date > i.date
  {
    ExactUnlessTonightSkipped(item, days, i);
  }

  /** The first n openings that repeated searches visit after an opening. */
  function Visited(item: Item, days: int -> bool, i: Instant, n: nat): seq<Instant>
    decreases n
  {
    if n == 0 || NextOpen(item, days, i).None? then []
    else
      var next := NextOpen(item, days, i).value;
      [next] + Visited(item, days, next, n - 1)
  }

  /** Each opening visited is one, and later than the one before. */
  lemma {:induction false} VisitsInOrder(item: Item, days: int -> bool, i: Instant, n: nat, k: nat)
    requires Opening(item, days, i) && k < |Visited(item, days, i, n)|
    ensures var v := Visited(item, days, i, n);
            Opening(item, days, v[k]) && Later(v[k], if k == 0 then i else v[k - 1])
    decreases n
  {
    var next := NextOpen(item, days, i).value;
    ExactFromOpening(item, days, i);
    if k > 0 {
      VisitsInOrder(item, days, next, n - 1, k - 1);
    }
  }

  lemma VisitedCons(item: Item, days: int -> bool, i: Instant, n: nat)
    requires Visited(item, days, i, n) != []
    ensures n > 0 && NextOpen(item, days, i).Some?
    ensures var next := NextOpen(item, days, i).value;
            Visited(item, days, i, n) == [next] + Visited(item, days, next, n - 1)
  {
  }

  /** A task that searches from each of its openings misses none, up to the last visited. */
  lemma {:induction false} VisitsEveryOpening(item: Item, days: int -> bool, i: Instant, n: nat, j: Instant)
    requires Opening(item, days, i) && Opening(item, days, j) && Later(j, i)
    requires var v := Visited(item, days, i, n); v != [] && !Later(j, v[|v| - 1])
    ensures j in Visited(item, days, i, n)
    decreases n
  {
    VisitedCons(item, days, i, n);
    var next := NextOpen(item, days, i).value;
    ExactFromOpening(item, days, i);
    assert !Later(next, j);
    if j != next {
      VisitsEveryOpening(item, days, next, n - 1, j);
    }
  }

  // ---------- inside a window ----------

  /** `_inside_window` at the moment `now`, for an item with a window. */
  predicate Inside(item: Item, days: int -> bool, now: Instant)
    requires item.windowStart.Some?
  {
    if !InDates(item, now.date) then false
    else if !days(now.date) then false
    else if Spanning(item) then now.time >= item.windowStart.value || now.time < item.windowEnd.value
    else if now.time < item.windowStart.value then false
    else item.windowEnd.Some? ==> now.time < item.windowEnd.value
  }

  /** Microseconds since day 0. */
  function Absolute(i: Instant): int
  {
    i.date * DAY + i.time
  }

  /** Reference: a window that opened on date d contains `now`. It lasts for its duration, or without one for the
      rest of the day. */
  predicate Contains(item: Item, d: int, now: Instant)
    requires item.windowStart.Some?
  {
    var from := Absolute(Instant(d, item.windowStart.value));
    if item.duration.Some? then from <= Absolute(now) < from + item.duration.value
    else now.date == d && item.windowStart.value <= now.time
  }

  ghost predicate InOpenedWindow(item: Item, days: int -> bool, now: Instant)
    requires item.windowStart.Some?
  {
    exists d :: Eligible(item, days, d) && Contains(item, d, now)
  }

  /** A morning on which the code looks at the wrong day: in the tail of a window it asks about today, and the
      window opened yesterday. */
  predicate Mismatched(item: Item, days: int -> bool, now: Instant)
  {
    InTail(item, now.time) && Eligible(item, days, now.date) != Eligible(item, days, now.date - 1)
  }

  predicate UnderADay(item: Item)
  {
    item.duration.Some? ==> item.duration.value < DAY
  }

  /** A window of less than a day contains `now` only if it opened today or yesterday. */
  lemma ContainsUnderADay(item: Item, d: int, now: Instant)
    requires item.windowStart.Some? && UnderADay(item) && Contains(item, d, now)
    ensures d == now.date || (d == now.date - 1 && InTail(item, now.time))
  {
  }

  lemma ContainsToday(item: Item, now: Instant)
    requires item.windowStart.Some? && UnderADay(item)
    ensures Contains(item, now.date - 1, now) <==> InTail(item, now.time)
    ensures Contains(item, now.date, now) <==>
              if Spanning(item) then now.time >= item.windowStart.value
              else item.windowStart.value <= now.time && (item.windowEnd.Some? ==> now.time < item.windowEnd.value)
  {
  }

  /** For a window of less than a day, `_inside_window` holds exactly within the windows that opened on eligible
      days, if and only if it is not a morning on which today and yesterday differ in eligibility. */
  lemma InsideIsInOpenedWindow(item: Item, days: int -> bool, now: Instant)
    requires item.windowStart.Some? && UnderADay(item)
    ensures (Inside(item, days, now) <==> InOpenedWindow(item, days, now)) <==> !Mismatched(item, days, now)
  {
    ContainsToday(item, now);
    if InOpenedWindow(item, days, now) {
      var d :| Eligible(item, days, d) && Contains(item, d, now);
      ContainsUnderADay(item, d, now);
    }
  }

  /** A window of a day or more that opened on an eligible day is missed: here is an instant that it contains and at
      which `_inside_window` says no. */
  lemma LongWindowMissed(item: Item, days: int -> bool, d: int) returns (now: Instant)
    requires item.windowStart.Some? && !UnderADay(item) && Eligible(item, days, d)
    ensures Contains(item, d, now) && !Inside(item, days, now)
  {
    if Spanning(item) {
      now := Instant(d + 1, item.windowEnd.value);
    } else {
      now := Instant(d, item.windowEnd.value);
    }
  }

  /** `_inside_window` is exact at every instant, for windows of every length, if and only if no day is eligible or
      the window is under a day long and has no morning on which today and yesterday differ in eligibility. */
  lemma InsideExactly(item: Item, days: int -> bool)
    requires item.windowStart.Some?
    ensures (forall now: Instant :: Inside(item, days, now) <==> InOpenedWindow(item, days, now))
            <==> (|| (forall d :: !Eligible(item, days, d))
                  || (UnderADay(item) && forall now: Instant :: !Mismatched(item, days, now)))
  {
    if UnderADay(item) {
      forall now: Instant
        ensures (Inside(item, days, now) <==> InOpenedWindow(item, days, now)) <==> !Mismatched(item, days, now)
      {
        InsideIsInOpenedWindow(item, days, now);
      }
    } else if exists d :: Eligible(item, days, d) {
      var d :| Eligible(item, days, d);
      var now := LongWindowMissed(item, days, d);
      assert InOpenedWindow(item, days, now);
    } else {
      forall now: Instant
        ensures !Inside(item, days, now)
      {
        assert !Eligible(item, days, now.date);
      }
    }
  }

  /** From inside a window the next opening is on a later date. */
  lemma InsideMovesOn(item: Item, days: int -> bool, now: Instant)
    requires item.windowStart.Some? && Inside(item, days, now) && NextOpen(item, days, now).Some?
    ensures NextOpen(item, days, now).value.date > now.date
  {
    NextOpenShape(item, days, now);
  }

  /** At its opening a window is open, unless its end equals its start: such a window (24 hours long, or empty) is
      never open at all. */
  lemma OpenAtOpening(item: Item, days: int -> bool, after: Instant, now: Instant)
    requires item.windowStart.Some?
    ensures NextOpen(item, days, after).Some? ==>
              (Inside(item, days, NextOpen(item, days, after).value) <==> item.windowEnd != item.windowStart)
    ensures item.windowEnd == item.windowStart ==> !Inside(item, days, now)
  {
    NextOpenShape(item, days, after);
  }
}
