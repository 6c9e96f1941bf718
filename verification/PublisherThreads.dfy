/** `EventStream.publish` of harness/events.py called from several threads: the id counter is read and written
    under a lock, but validation and the append to the ring happen outside it, so the stages of different
    publishers interleave in any order. */
module PublisherThreads {
  type Publisher = nat

  /** `pending` holds the id each publisher took and has neither given back nor appended yet. */
  datatype Broker = Broker(nextId: nat, pending: map<Publisher, nat>, appended: seq<nat>)

  const START := Broker(0, map[], [])

  datatype Stage =
    | Take(p: Publisher)        // first locked section
    | Reject(p: Publisher)      // validation failed: second locked section
    | Append(p: Publisher)      // validation passed

  function Step(b: Broker, a: Stage): Broker
  {
    match a
    case Take(p) =>
      if p in b.pending then b
      else b.(nextId := b.nextId + 1, pending := b.pending[p := b.nextId + 1])
    case Reject(p) =>
      if p !in b.pending then b
      else b.(nextId := if b.nextId == b.pending[p] && b.nextId > 0 then b.nextId - 1 else b.nextId,
              pending := b.pending - {p})
    case Append(p) =>
      if p !in b.pending then b
      else b.(pending := b.pending - {p}, appended := b.appended + [b.pending[p]])
  }

  function Run(b: Broker, stages: seq<Stage>): Broker
    decreases stages
  {
    if stages == [] then b else Run(Step(b, stages[0]), stages[1..])
  }

  /** No id is held twice, appended twice, or both, and none is above the counter. */
  ghost predicate Inv(b: Broker)
  {
    && (forall p :: p in b.pending ==> 0 < b.pending[p] <= b.nextId)
    && (forall i :: 0 <= i < |b.appended| ==> 0 < b.appended[i] <= b.nextId)
    && (forall p, r :: p in b.pending && r in b.pending && p != r ==> b.pending[p] != b.pending[r])
    && (forall p, i :: p in b.pending && 0 <= i < |b.appended| ==> b.pending[p] != b.appended[i])
    && (forall i, j :: 0 <= i < j < |b.appended| ==> b.appended[i] != b.appended[j])
  }

  lemma TakeInv(b: Broker, p: Publisher)
    requires Inv(b) && p !in b.pending
    ensures Inv(Step(b, Take(p)))
  {
  }

  lemma RejectInv(b: Broker, p: Publisher)
    requires Inv(b) && p in b.pending
    ensures Inv(Step(b, Reject(p)))
  {
    var b' := Step(b, Reject(p));
    assert forall r :: r in b'.pending ==> r in b.pending && r != p && b'.pending[r] == b.pending[r];
  }

  lemma AppendInv(b: Broker, p: Publisher)
    requires Inv(b) && p in b.pending
    ensures Inv(Step(b, Append(p)))
  {
    var b' := Step(b, Append(p));
    assert forall r :: r in b'.pending ==> r in b.pending && r != p && b'.pending[r] == b.pending[r];
  }

  lemma StepInv(b: Broker, a: Stage)
    requires Inv(b)
    ensures Inv(Step(b, a))
  {
    match a
    case Take(p) => if p !in b.pending { TakeInv(b, p); }
    case Reject(p) => if p in b.pending { RejectInv(b, p); }
    case Append(p) => if p in b.pending { AppendInv(b, p); }
  }

  lemma {:induction false} RunInv(b: Broker, stages: seq<Stage>)
    requires Inv(b)
    ensures Inv(Run(b, stages))
    decreases stages
  {
    if stages != [] {
      StepInv(b, stages[0]);
      RunInv(Step(b, stages[0]), stages[1..]);
    }
  }

  /** However many publishers interleave, and whichever of them are rejected and roll the counter back, no two
      appended envelopes carry the same id. */
  lemma AppendedIdsUnique(stages: seq<Stage>)
    ensures forall i, j :: 0 <= i < j < |Run(START, stages).appended| ==>
              Run(START, stages).appended[i] != Run(START, stages).appended[j]
  {
    RunInv(START, stages);
  }

  /** Nobody holds or has appended `id`, and the counter is past it. */
  ghost predicate Skipped(b: Broker, id: nat)
  {
    id <= b.nextId && id !in b.pending.Values && id !in b.appended
  }

  lemma StepKeepsSkipped(b: Broker, id: nat, a: Stage)
    requires Skipped(b, id)
    ensures Skipped(Step(b, a), id)
  {
    var b' := Step(b, a);
    assert forall p :: p in b'.pending ==>
                         (p in b.pending && b'.pending[p] == b.pending[p]) || b'.pending[p] == b.nextId + 1;
  }

  /** Every id handed out so far is appended or still held, so none is missing from the stream for good. */
  ghost predicate NoGap(b: Broker)
  {
    forall id :: 1 <= id <= b.nextId ==> !Skipped(b, id)
  }

  /** A rejection that finds the counter moved on by another publisher. */
  predicate RejectsTooLate(b: Broker, a: Stage)
  {
    a.Reject? && a.p in b.pending && b.nextId != b.pending[a.p]
  }

  lemma TimelyStep(b: Broker, a: Stage)
    requires Inv(b) && NoGap(b) && !RejectsTooLate(b, a)
    ensures NoGap(Step(b, a))
  {
    var b' := Step(b, a);
    forall id | 1 <= id <= b'.nextId
      ensures !Skipped(b', id)
    {
      if a.Take? && id == b.nextId + 1 {
        assert a.p !in b.pending && b'.pending[a.p] == id;
      } else {
        assert !Skipped(b, id);
        if id in b.pending.Values {
          var r :| r in b.pending && b.pending[r] == id;
          assert r in b'.pending ==> b'.pending[r] == id;
          if a.Append? && a.p == r {
            assert b'.appended[|b.appended|] == id;
          }
        } else {
          var i :| 0 <= i < |b.appended| && b.appended[i] == id;
          assert b'.appended[i] == id;
        }
      }
    }
  }

  lemma LateStep(b: Broker, a: Stage)
    requires Inv(b) && RejectsTooLate(b, a)
    ensures Skipped(Step(b, a), b.pending[a.p])
  {
    var b' := Step(b, a);
    assert forall r :: r in b'.pending ==> r in b.pending && r != a.p && b'.pending[r] == b.pending[r];
  }

  /** One step keeps the ids free of gaps if and only if it is not a rejection that comes too late to roll back. */
  lemma StepKeepsNoGap(b: Broker, a: Stage)
    requires Inv(b) && NoGap(b)
    ensures NoGap(Step(b, a)) <==> !RejectsTooLate(b, a)
  {
    if RejectsTooLate(b, a) {
      LateStep(b, a);
    } else {
      TimelyStep(b, a);
    }
  }

  /** Some rejection of this run came too late. */
  predicate SomeRejectsTooLate(b: Broker, stages: seq<Stage>)
    decreases stages
  {
    stages != [] && (RejectsTooLate(b, stages[0]) || SomeRejectsTooLate(Step(b, stages[0]), stages[1..]))
  }

  lemma {:induction false} SkippedForever(b: Broker, id: nat, later: seq<Stage>)
    requires Skipped(b, id)
    ensures Skipped(Run(b, later), id)
    decreases later
  {
    if later != [] {
      StepKeepsSkipped(b, id, later[0]);
      SkippedForever(Step(b, later[0]), id, later[1..]);
    }
  }

  /** The id of a rejection that came too late is never appended, whatever follows. */
  lemma RejectionLeavesGap(stages: seq<Stage>, p: Publisher, later: seq<Stage>)
    requires RejectsTooLate(Run(START, stages), Reject(p))
    ensures Run(START, stages).pending[p] !in Run(Step(Run(START, stages), Reject(p)), later).appended
  {
    RunInv(START, stages);
    LateStep(Run(START, stages), Reject(p));
    SkippedForever(Step(Run(START, stages), Reject(p)), Run(START, stages).pending[p], later);
  }

  lemma {:induction false} RunKeepsNoGap(b: Broker, stages: seq<Stage>)
    requires Inv(b) && NoGap(b)
    ensures NoGap(Run(b, stages)) <==> !SomeRejectsTooLate(b, stages)
    decreases stages
  {
    if stages != [] {
      StepInv(b, stages[0]);
      if RejectsTooLate(b, stages[0]) {
        LateStep(b, stages[0]);
        SkippedForever(Step(b, stages[0]), b.pending[stages[0].p], stages[1..]);
      } else {
        TimelyStep(b, stages[0]);
        RunKeepsNoGap(Step(b, stages[0]), stages[1..]);
      }
    }
  }

  /** For any number of publishers in any interleaving, the ids come out without a gap if and only if every
      rejection found the counter still at its own id. Once nobody is publishing, the appended ids are then all of
      1 .. nextId. */
  lemma GapFreeExactly(stages: seq<Stage>)
    ensures NoGap(Run(START, stages)) <==> !SomeRejectsTooLate(START, stages)
    ensures !SomeRejectsTooLate(START, stages) && Run(START, stages).pending == map[] ==>
              forall id :: 1 <= id <= Run(START, stages).nextId ==> id in Run(START, stages).appended
  {
    RunKeepsNoGap(START, stages);
    var b := Run(START, stages);
    if !SomeRejectsTooLate(START, stages) && b.pending == map[] {
      forall id | 1 <= id <= b.nextId
        ensures id in b.appended
      {
        assert !Skipped(b, id);
      }
    }
  }

  /** Two publishers suffice: the first is rejected after the second took its id. Id 2 is appended, id 1 is lost. */
  lemma TwoPublishersLeaveGap()
    ensures SomeRejectsTooLate(START, [Take(0), Take(1), Reject(0), Append(1)])
    ensures Run(START, [Take(0), Take(1), Reject(0), Append(1)]) == Broker(2, map[], [2])
  {
    var s1 := Broker(1, map[0 := 1], []);
    var s2 := Broker(2, map[0 := 1, 1 := 2], []);
    var s3 := Broker(2, map[1 := 2], []);
    assert [Take(0), Take(1), Reject(0), Append(1)][1..] == [Take(1), Reject(0), Append(1)];
    assert [Take(1), Reject(0), Append(1)][1..] == [Reject(0), Append(1)];
    assert [Reject(0), Append(1)][1..] == [Append(1)] && [Append(1)][1..] == [];
    assert Step(START, Take(0)) == s1 && Step(s1, Take(1)) == s2;
    assert Step(s2, Reject(0)) == s3 && Step(s3, Append(1)) == Broker(2, map[], [2]);
    assert Run(s3, [Append(1)]) == Run(Broker(2, map[], [2]), []);
    assert Run(s2, [Reject(0), Append(1)]) == Run(s3, [Append(1)]);
    assert Run(s1, [Take(1), Reject(0), Append(1)]) == Run(s2, [Reject(0), Append(1)]);
    assert SomeRejectsTooLate(s2, [Reject(0), Append(1)]);
    assert SomeRejectsTooLate(s1, [Take(1), Reject(0), Append(1)]);
  }
}
