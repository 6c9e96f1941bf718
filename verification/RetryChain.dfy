/** One webhook delivery of harness/webhooks.py from its first POST to the end of its retry chain. What the
    network, the URL check and cancellation do to each attempt is an arbitrary outcome. */
module RetryChain {
  /** What becomes of one retry iteration. `posted` says whether the POST had been issued when the exception or
      the cancellation struck; before that it struck in the URL re-check. */
  datatype Outcome =
    | CancelledInBackoff
    | RecheckFailed
    | Responded(status: int)
    | Raised(posted: bool)
    | Cancelled(posted: bool)

  datatype Result = Success | Http(status: int) | Error | UrlRevalidationFailed | CancelledResult

  const RETRYABLE := {408, 429, 500, 502, 503, 504}

  predicate IsRetryableHttp(status: int)
  {
    status in RETRYABLE || 500 <= status < 600
  }

  /** The answers that are retried, in numbers. */
  lemma RetryableExactly(status: int)
    ensures IsRetryableHttp(status) <==> status == 408 || status == 429 || 500 <= status < 600
  {
  }

  predicate Posts(o: Outcome)
  {
    o.Responded? || (o.Raised? && o.posted) || (o.Cancelled? && o.posted)
  }

  /** The loop goes round again after this outcome. */
  predicate Continues(o: Outcome)
  {
    o.Raised? || (o.Responded? && o.status >= 400 && IsRetryableHttp(o.status))
  }

  function ResultOf(o: Outcome): Result
  {
    match o
    case RecheckFailed => UrlRevalidationFailed
    case Responded(status) => if status < 400 then Success else Http(status)
    case Raised(_) => Error
    case _ => CancelledResult
  }

  function Pow2(n: nat): nat
  {
    if n == 0 then 1 else 2 * Pow2(n - 1)
  }

  function Backoff(attempt: nat): nat
    requires 0 < attempt
  {
    if Pow2(attempt - 1) < 300 then Pow2(attempt - 1) else 300
  }

  // ---------- the chain as a specification ----------

  /** The outcomes of the iterations that a chain runs, of which `outcomes(a)` is that of attempt a + 1. */
  function Iterations(outcomes: nat -> Outcome, attempt: nat, maxAttempts: nat): seq<Outcome>
    decreases maxAttempts - attempt
  {
    if attempt >= maxAttempts then []
    else if Continues(outcomes(attempt)) then [outcomes(attempt)] + Iterations(outcomes, attempt + 1, maxAttempts)
    else [outcomes(attempt)]
  }

  /** They are the outcomes in order, no more than the attempts left, all but the last of which call for another;
      and fewer only when the last one does not. */
  lemma {:induction false} IterationsShape(outcomes: nat -> Outcome, attempt: nat, maxAttempts: nat)
    ensures var its := Iterations(outcomes, attempt, maxAttempts);
            && (attempt <= maxAttempts ==> |its| <= maxAttempts - attempt)
            && (forall i :: 0 <= i < |its| ==> its[i] == outcomes(attempt + i))
            && (forall i :: 0 <= i < |its| - 1 ==> Continues(its[i]))
            && (|its| < maxAttempts - attempt ==> its != [] && !Continues(its[|its| - 1]))
    decreases maxAttempts - attempt
  {
    if attempt < maxAttempts && Continues(outcomes(attempt)) {
      IterationsShape(outcomes, attempt + 1, maxAttempts);
      var rest := Iterations(outcomes, attempt + 1, maxAttempts);
      var its := [outcomes(attempt)] + rest;
      forall i | 0 <= i < |its|
        ensures its[i] == outcomes(attempt + i) && (i < |its| - 1 ==> Continues(its[i]))
      {
        if i > 0 {
          assert its[i] == rest[i - 1] == outcomes(attempt + 1 + (i - 1));
        }
      }
    }
  }

  function PostCount(its: seq<Outcome>): (n: nat)
    ensures n <= |its|
  {
    if its == [] then 0 else (if Posts(its[0]) then 1 else 0) + PostCount(its[1..])
  }

  /** What one iteration records. */
  function Record(o: Outcome): seq<Result>
  {
    if o.CancelledInBackoff? then [] else [ResultOf(o)]
  }

  function Recorded(its: seq<Outcome>): seq<Result>
  {
    if its == [] then [] else Record(its[0]) + Recorded(its[1..])
  }

  function Slept(first: nat, n: nat): nat
    requires 0 < first
  {
    if n == 0 then 0 else Slept(first, n - 1) + Backoff(first + n - 1)
  }

  /** Each iteration that survives its backoff records exactly one result, the one its outcome calls for. */
  lemma {:induction false} OneResultPerSurvivor(its: seq<Outcome>)
    requires forall i :: 0 <= i < |its| - 1 ==> Continues(its[i])
    ensures |Recorded(its)| == if its != [] && its[|its| - 1].CancelledInBackoff? then |its| - 1 else |its|
    ensures forall i :: 0 <= i < |Recorded(its)| ==> Recorded(its)[i] == ResultOf(its[i])
  {
    if its != [] {
      OneResultPerSurvivor(its[1..]);
      assert |its| > 1 ==> Continues(its[0]);
    }
  }

  lemma {:induction false} Pow2Monotone(m: nat, n: nat)
    requires m <= n
    ensures Pow2(m) <= Pow2(n)
  {
    if m < n {
      Pow2Monotone(m, n - 1);
    }
  }

  /** 1 + 2 + 4 + ... capped at 300 a step: 2^n - 1 seconds for up to nine retries, then 300 more for each. */
  lemma {:induction false} TotalBackoff(n: nat)
    ensures Slept(1, n) == if n <= 9 then Pow2(n) - 1 else 511 + 300 * (n - 9)
  {
    if n > 0 {
      TotalBackoff(n - 1);
      assert Pow2(8) == 256 && Pow2(9) == 512;
      if n <= 9 {
        Pow2Monotone(n - 1, 8);
      } else {
        Pow2Monotone(9, n - 1);
      }
    }
  }

  // ---------- a whole delivery ----------

  /** How the first attempt went. A failed or rejected URL ends the delivery before any POST; a cancellation is not
      caught and ends it too, before or after the POST was issued. */
  datatype First = UrlRejected | Answered(status: int) | FirstRaised(posted: bool) | FirstCancelled(posted: bool)

  function FirstResult(f: First): Result
    requires f.Answered? || f.FirstRaised?
  {
    match f
    case Answered(status) => if status < 400 then Success else Http(status)
    case FirstRaised(_) => Error
  }

  /** The retry chain is scheduled: the first result calls for one, retries are configured, and the byte ledger
      granted the reservation. */
  predicate Retries(f: First, retries: int, granted: bool)
  {
    && (f.Answered? || f.FirstRaised?)
    && retries > 0
    && granted
    && (FirstResult(f).Error? || (FirstResult(f).Http? && IsRetryableHttp(FirstResult(f).status)))
  }

  /** The POSTs of one delivery, with the status each got if it got one. */
  datatype Post = Post(status: int) | NoAnswer

  function FirstPosts(f: First): seq<Post>
  {
    match f
    case UrlRejected => []
    case Answered(status) => [Post(status)]
    case FirstRaised(posted) => if posted then [NoAnswer] else []
    case FirstCancelled(posted) => if posted then [NoAnswer] else []
  }

  function PostsOf(o: Outcome): seq<Post>
  {
    if !Posts(o) then [] else if o.Responded? then [Post(o.status)] else [NoAnswer]
  }

  function ChainPosts(its: seq<Outcome>): (posts: seq<Post>)
    ensures |posts| == PostCount(its)
  {
    if its == [] then [] else PostsOf(its[0]) + ChainPosts(its[1..])
  }

  function DeliveryPosts(f: First, retries: int, granted: bool, outcomes: nat -> Outcome): seq<Post>
  {
    FirstPosts(f) + if Retries(f, retries, granted) then ChainPosts(Iterations(outcomes, 1, 1 + retries)) else []
  }

  /** A POST whose answer forbids another one: delivered, refused for good as a client error, or no HTTP status. */
  predicate Final(p: Post)
  {
    && p.Post?
    && (p.status < 400 || (400 <= p.status < 500 && p.status != 408 && p.status != 429) || p.status >= 600)
  }

  lemma {:induction false} OnlyLastIsFinal(its: seq<Outcome>)
    requires forall i :: 0 <= i < |its| - 1 ==> Continues(its[i])
    ensures forall i :: 0 <= i < |ChainPosts(its)| - 1 ==> !Final(ChainPosts(its)[i])
    ensures (its != [] ==> Continues(its[|its| - 1])) ==>
              forall i :: 0 <= i < |ChainPosts(its)| ==> !Final(ChainPosts(its)[i])
  {
    if its != [] {
      OnlyLastIsFinal(its[1..]);
      assert |its| > 1 ==> Continues(its[0]);
    }
  }

  /** One delivery makes at most one POST and one per configured retry, and none after a success or a permanent
      client error, at the first attempt or in the chain. */
  lemma DeliveryBounds(f: First, retries: int, granted: bool, outcomes: nat -> Outcome)
    ensures var posts := DeliveryPosts(f, retries, granted, outcomes);
            && |posts| <= 1 + (if retries > 0 then retries else 0)
            && forall i :: 0 <= i < |posts| - 1 ==> !Final(posts[i])
  {
    if Retries(f, retries, granted) {
      var its := Iterations(outcomes, 1, 1 + retries);
      IterationsShape(outcomes, 1, 1 + retries);
      OnlyLastIsFinal(its);
      var posts := DeliveryPosts(f, retries, granted, outcomes);
      forall i | 0 <= i < |posts| - 1
        ensures !Final(posts[i])
      {
        if i >= |FirstPosts(f)| {
          assert posts[i] == ChainPosts(its)[i - |FirstPosts(f)|];
        }
      }
    }
  }

  /** What an iteration records, and whether another follows, in numbers. */
  lemma RecordedExactly(o: Outcome)
    ensures Continues(o) <==>
              o.Raised? || (o.Responded? && (o.status == 408 || o.status == 429 || 500 <= o.status < 600))
    ensures Record(o) ==
            match o
            case CancelledInBackoff => []
            case RecheckFailed => [UrlRevalidationFailed]
            case Responded(status) => [if status < 400 then Success else Http(status)]
            case Raised(_) => [Error]
            case Cancelled(_) => [CancelledResult]
    ensures PostsOf(o) ==
            match o
            case Responded(status) => [Post(status)]
            case Raised(posted) => if posted then [NoAnswer] else []
            case Cancelled(posted) => if posted then [NoAnswer] else []
            case _ => []
  {
  }

  /** The chain goes on: while attempts are left, an iteration that raised, or was answered 408, 429 or 5xx, is followed
      by another. */
  lemma ChainGoesOn(outcomes: nat -> Outcome, attempt: nat, maxAttempts: nat, i: nat)
    requires i < |Iterations(outcomes, attempt, maxAttempts)| && attempt + i + 1 < maxAttempts
    requires var o := outcomes(attempt + i);
             o.Raised? || (o.Responded? && (o.status == 408 || o.status == 429 || 500 <= o.status < 600))
    ensures i + 1 < |Iterations(outcomes, attempt, maxAttempts)|
    ensures Iterations(outcomes, attempt, maxAttempts)[i + 1] == outcomes(attempt + i + 1)
  {
    IterationsShape(outcomes, attempt, maxAttempts);
  }

  /** Delivered, refused for good, or cut short: neither an exception nor a 408, 429 or 5xx. */
  predicate CallsForNoMore(o: Outcome)
  {
    !o.Raised? && (o.Responded? ==> o.status != 408 && o.status != 429 && !(500 <= o.status < 600))
  }

  lemma LastCallsForNoMore(attempt: nat, maxAttempts: nat, outcomes: nat -> Outcome)
    ensures var its := Iterations(outcomes, attempt, maxAttempts);
            attempt + |its| < maxAttempts ==> its != [] && CallsForNoMore(its[|its| - 1])
  {
    IterationsShape(outcomes, attempt, maxAttempts);
  }

  /** And it starts: after a first attempt that raised, or was answered 408, 429 or 5xx, with retries configured and the
      bytes granted, the first retry runs, and its POST follows if it gets that far. */
  lemma RetryFollows(f: First, retries: int, outcomes: nat -> Outcome)
    requires retries > 0
    requires f.FirstRaised? || (f.Answered? && (f.status == 408 || f.status == 429 || 500 <= f.status < 600))
    ensures Retries(f, retries, true)
    ensures Iterations(outcomes, 1, 1 + retries) != [] && Iterations(outcomes, 1, 1 + retries)[0] == outcomes(1)
    ensures DeliveryPosts(f, retries, true, outcomes)
            == FirstPosts(f) + ChainPosts(Iterations(outcomes, 1, 1 + retries))
    ensures Posts(outcomes(1)) ==> |DeliveryPosts(f, retries, true, outcomes)| > |FirstPosts(f)|
  {
    IterationsShape(outcomes, 1, 1 + retries);
  }

  /** A failed URL re-check is the chain's last iteration, and makes no POST. */
  lemma NoPostAfterFailedRecheck(outcomes: nat -> Outcome, attempt: nat, maxAttempts: nat, i: nat)
    requires i < |Iterations(outcomes, attempt, maxAttempts)|
    requires outcomes(attempt + i) == RecheckFailed
    ensures var its := Iterations(outcomes, attempt, maxAttempts);
            i == |its| - 1 && PostCount(its[i..]) == 0
  {
    var its := Iterations(outcomes, attempt, maxAttempts);
    IterationsShape(outcomes, attempt, maxAttempts);
    assert its[i] == RecheckFailed && !Continues(its[i]);
  }

  // ---------- the loop ----------

  lemma {:induction false} SleptCons(first: nat, n: nat)
    requires 0 < first
    ensures Slept(first, n + 1) == Backoff(first) + Slept(first + 1, n)
  {
    if n > 0 {
      SleptCons(first, n - 1);
    }
  }

  /** The body of one iteration: POSTs issued, results recorded, and whether the loop goes round again. */
  method Attempt(outcome: Outcome) returns (posts: nat, records: seq<Result>, again: bool)
    ensures posts == if Posts(outcome) then 1 else 0
    ensures records == Record(outcome)
    ensures again == Continues(outcome)
    ensures outcome.Responded? ==>
              (again <==> outcome.status == 408 || outcome.status == 429 || 500 <= outcome.status < 600)
  {
    match outcome
    case CancelledInBackoff =>
      return 0, [], false;
    case RecheckFailed =>
      return 0, [UrlRevalidationFailed], false;
    case Responded(status) =>
      if status < 400 {
        return 1, [Success], false;
      }
      if !IsRetryableHttp(status) {
        return 1, [Http(status)], false;
      }
      return 1, [Http(status)], true;
    case Raised(posted) =>
      return if posted then 1 else 0, [Error], true;
    case Cancelled(posted) =>
      return if posted then 1 else 0, [CancelledResult], false;
  }

  /** One iteration taken off those that are left. */
  lemma AttemptsLeft(outcomes: nat -> Outcome, attempt: nat, maxAttempts: nat, records: seq<Result>, its: seq<Outcome>)
      returns (rest: seq<Outcome>)
    requires 0 < attempt < maxAttempts && its == Iterations(outcomes, attempt, maxAttempts)
    ensures rest == if Continues(outcomes(attempt)) then Iterations(outcomes, attempt + 1, maxAttempts) else []
    ensures PostCount(its) == (if Posts(outcomes(attempt)) then 1 else 0) + PostCount(rest)
    ensures records + Recorded(its) == (records + Record(outcomes(attempt))) + Recorded(rest)
    ensures Slept(attempt, |its|) == Backoff(attempt) + Slept(attempt + 1, |rest|)
    ensures !Continues(outcomes(attempt)) ==>
              && PostCount(rest) == 0
              && (records + Record(outcomes(attempt))) + Recorded(rest) == records + Record(outcomes(attempt))
              && Slept(attempt + 1, |rest|) == 0
  {
    rest := if Continues(outcomes(attempt)) then Iterations(outcomes, attempt + 1, maxAttempts) else [];
    assert its[1..] == rest;
    SleptCons(attempt, |rest|);
  }

  /** `_retry_deliver`: how many POSTs it issued, the results it recorded, and the seconds of backoff it entered. */
  method RetryDeliver(attempt0: nat, maxAttempts: nat, outcomes: nat -> Outcome)
      returns (posts: nat, records: seq<Result>, slept: nat)
    requires 0 < attempt0
    ensures var its := Iterations(outcomes, attempt0, maxAttempts);
            && posts == PostCount(its) && records == Recorded(its) && slept == Slept(attempt0, |its|)
            && (attempt0 + |its| < maxAttempts ==> its != [] && CallsForNoMore(its[|its| - 1]))
  {
    LastCallsForNoMore(attempt0, maxAttempts, outcomes);
    posts, records, slept := 0, [], 0;
    var attempt := attempt0;
    ghost var its := Iterations(outcomes, attempt, maxAttempts);
    ghost var all := its;
    while attempt < maxAttempts
      invariant attempt0 <= attempt && its == Iterations(outcomes, attempt, maxAttempts)
      invariant PostCount(all) == posts + PostCount(its)
      invariant Recorded(all) == records + Recorded(its)
      invariant Slept(attempt0, |all|) == slept + Slept(attempt, |its|)
      decreases maxAttempts - attempt
    {
      var pause := Backoff(attempt);
      var posted, recorded, again := Attempt(outcomes(attempt));
      its := AttemptsLeft(outcomes, attempt, maxAttempts, records, its);
      posts, records, slept := posts + posted, records + recorded, slept + pause;
      attempt := attempt + 1;
      if !again {
        return;
      }
    }
  }
}
