/** First come, first served: nobody gets a slot past an attempt that has been waiting longer. */
module FifoOrder {
  import opened Wrappers
  import opened ExamState
  import opened ExamSteps
  import opened AllocationInvariant

  // ---- how the waiting list changes ----

  lemma {:induction false} WaitingAppend(queue: seq<QueueRow>, row: QueueRow, b: BatchId)
    ensures Waiting(queue + [row], b) == Waiting(queue, b) + if row.batch == b then [row.attempt] else []
  {
    if queue == [] {
      assert queue + [row] == [row] && [row][1..] == [];
    } else {
      assert (queue + [row])[1..] == queue[1..] + [row];
      WaitingAppend(queue[1..], row, b);
    }
  }

  lemma {:induction false} WaitingWithoutOther(queue: seq<QueueRow>, a: AttemptId, b: BatchId)
    requires QueueRow(a, b) !in queue
    ensures Waiting(Without(queue, a), b) == Waiting(queue, b)
  {
    if queue != [] {
      WaitingWithoutOther(queue[1..], a, b);
      assert queue[0] in queue;
      if queue[0].attempt != a {
        assert Without(queue, a)[1..] == Without(queue[1..], a);
      }
    }
  }

  lemma {:induction false} WaitingWithoutHead(queue: seq<QueueRow>, b: BatchId)
    requires QueuedOnce(queue) && Waiting(queue, b) != []
    ensures Waiting(Without(queue, Waiting(queue, b)[0]), b) == Waiting(queue, b)[1..]
  {
    var a, rest := Waiting(queue, b)[0], queue[1..];
    if queue[0].batch == b {
      forall i | 0 <= i < |rest|
        ensures rest[i].attempt != a
      {
        assert queue[i + 1] == rest[i];
      }
      WaitingWithoutOther(rest, a, b);
    } else {
      WaitingRows(rest, b, a);
      var j :| 0 <= j < |rest| && rest[j] == QueueRow(a, b);
      assert queue[j + 1] == rest[j];
      WaitingWithoutHead(rest, b);
      assert Without(queue, a)[1..] == Without(rest, a);
    }
  }

  lemma {:induction false} WaitingWithoutBatch(queue: seq<QueueRow>, c: BatchId, b: BatchId)
    ensures Waiting(WithoutBatch(queue, c), b) == if c == b then [] else Waiting(queue, b)
  {
    if queue != [] {
      WaitingWithoutBatch(queue[1..], c, b);
      if queue[0].batch != c {
        assert WithoutBatch(queue, c)[1..] == WithoutBatch(queue[1..], c);
      }
    }
  }

  /** One step adds a newcomer at the end, takes the head, empties the list, or leaves it alone. */
  ghost predicate WaitingStep(w: seq<AttemptId>, w': seq<AttemptId>) {
    || w' == w
    || (|w'| == |w| + 1 && w'[..|w|] == w && w'[|w|] !in w)
    || (w != [] && w' == w[1..])
    || w' == []
  }

  lemma StartWaiting(s: State, a: AttemptId, user: UserId, deadline: Time, now: Time, b: BatchId)
    requires Inv(s)
    ensures WaitingStep(Waiting(s.queue, b), Waiting(Start(s, a, user, deadline, now).queue, b))
  {
    hide Inv, AssignIdle, HasSlot, Waiting;
    var t := Start(s, a, user, deadline, now);
    if t.queue != s.queue {
      var row := QueueRow(a, s.attempts[a].batch);
      WaitingAppend(s.queue, row, b);
      WaitingRows(s.queue, b, a);
      assert QueueRow(a, b) !in s.queue;
    }
  }

  lemma DrainWaiting(s: State, c: BatchId, now: Time, b: BatchId)
    requires Inv(s)
    ensures WaitingStep(Waiting(s.queue, b), Waiting(Drain(s, c, now).queue, b))
  {
    hide SlotsOk, OneSlotEach, SubmissionsOk, AttemptsOk, WaitsWithoutSlot, AssignIdle, Waiting, Without;
    if CanDrain(s, c) {
      var head := Waiting(s.queue, c)[0];
      if b == c {
        WaitingWithoutHead(s.queue, b);
      } else {
        HeadFacts(s, c);
        assert QueueRow(head, b) !in s.queue;
        WaitingWithoutOther(s.queue, head, b);
      }
    }
  }

  lemma StepWaiting(s: State, step: Step, b: BatchId)
    requires Inv(s)
    ensures WaitingStep(Waiting(s.queue, b), Waiting(Apply(s, step).queue, b))
  {
    hide Inv, Start, Finish, Package, Drain, VoidAttempt, WithDeadline, Desired, BusyNumbers, Waiting, SyncUp, SyncDown,
         Register, ResetBatch, MarkDown, WithoutBatch, Upsert, PutFile;
    match step
    case StartTx(a, user, deadline, now) => StartWaiting(s, a, user, deadline, now, b);
    case SubmitTx(a, user, now) => assert Submit(s, a, user, now).queue == s.queue by { FinishQueue(s, a, now); }
    case ForceSubmitTx(a, now) => assert ForceSubmit(s, a, now).queue == s.queue by { FinishQueue(s, a, now); }
    case AutoCollectTx(a, now) => assert AutoCollect(s, a, now).queue == s.queue by { FinishQueue(s, a, now); }
    case VoidTx(a) => assert VoidAttempt(s, a).queue == s.queue by { VoidQueue(s, a); }
    case PackageTx(a, artifact, chat, now) => PackageQueue(s, a, artifact, chat, now);
    case DrainTx(c, now) => DrainWaiting(s, c, now, b);
    case ClearQueue(c) => WaitingWithoutBatch(s.queue, c, b);
    case _ =>
  }

  lemma FinishQueue(s: State, a: AttemptId, now: Time)
    ensures a in s.attempts ==> Finish(s, a, now).queue == s.queue
  {
  }

  lemma VoidQueue(s: State, a: AttemptId)
    ensures VoidAttempt(s, a).queue == s.queue
  {
  }

  lemma PackageQueue(s: State, a: AttemptId, artifact: SubmissionFile, chat: Option<SubmissionFile>, now: Time)
    ensures Package(s, a, artifact, chat, now).queue == s.queue
  {
  }

  // ---- who gets a slot ----

  ghost predicate Grants(s: State, step: Step, y: AttemptId) {
    !HasSlot(s.slots, y) && HasSlot(Apply(s, step).slots, y)
  }

  lemma StartGrants(s: State, a: AttemptId, user: UserId, deadline: Time, now: Time, y: AttemptId)
    requires !HasSlot(s.slots, y) && HasSlot(Start(s, a, user, deadline, now).slots, y)
    ensures y == a && a in s.attempts && Waiting(s.queue, s.attempts[a].batch) == []
    ensures var b := s.attempts[a].batch;
      Idles(s.slots, b) != {} && Start(s, a, user, deadline, now).slots == Occupy(s.slots, b, Least(Idles(s.slots, b)), y)
  {
    hide Idles, Waiting;
  }

  lemma DrainGrants(s: State, b: BatchId, now: Time, y: AttemptId)
    requires !HasSlot(s.slots, y) && HasSlot(Drain(s, b, now).slots, y)
    ensures Waiting(s.queue, b) != [] && y == Waiting(s.queue, b)[0]
    ensures Idles(s.slots, b) != {} && Drain(s, b, now).slots == Occupy(s.slots, b, Least(Idles(s.slots, b)), y)
  {
    hide Idles, Waiting, Without, WithDeadline;
  }

  /** Relabelling never gives a slot to an attempt that had none. */
  lemma OthersGrantNothing(s: State, step: Step, y: AttemptId)
    requires !step.StartTx? && !step.DrainTx?
    ensures HasSlot(Apply(s, step).slots, y) ==> HasSlot(s.slots, y)
  {
    hide Desired, BusyNumbers, Waiting, WithoutBatch, Upsert, PutFile, WithDeadline;
  }

  /** Every grant, by a direct start or from the queue, goes to the oldest waiting attempt of the batch, or to a
      newcomer when nobody waits; and it is the lowest idle slot. */
  lemma GrantIsFifo(s: State, step: Step, y: AttemptId)
    requires Inv(s) && Grants(s, step, y)
    ensures y in s.attempts
    ensures var b := s.attempts[y].batch;
      && (Waiting(s.queue, b) == [] || Waiting(s.queue, b)[0] == y)
      && Idles(s.slots, b) != {} && Apply(s, step).slots == Occupy(s.slots, b, Least(Idles(s.slots, b)), y)
  {
    hide Inv, Start, Drain, Idles, Waiting, Occupy, HasSlot;
    match step
    case StartTx(a, user, deadline, now) => StartGrants(s, a, user, deadline, now, y);
    case DrainTx(b, now) =>
      DrainGrants(s, b, now, y);
      HeadFacts(s, b);
    case _ => OthersGrantNothing(s, step, y);
  }

  // ---- over whole runs ----

  ghost function StateAt(s: State, steps: seq<Step>, i: nat): State
    requires i <= |steps|
  {
    Run(s, steps[..i])
  }

  lemma NextState(s: State, steps: seq<Step>, i: nat)
    requires i < |steps|
    ensures StateAt(s, steps, i + 1) == Apply(StateAt(s, steps, i), steps[i])
  {
    assert steps[..i + 1][..i] == steps[..i];
  }

  /** y stands somewhere before x. */
  ghost predicate Ahead(w: seq<AttemptId>, y: AttemptId, x: AttemptId) {
    exists p, q :: 0 <= p < q < |w| && w[p] == y && w[q] == x
  }

  lemma NotAheadStays(w: seq<AttemptId>, w': seq<AttemptId>, y: AttemptId, x: AttemptId)
    requires WaitingStep(w, w') && x in w && x in w' && !Ahead(w, y, x)
    ensures !Ahead(w', y, x)
  {
    forall p, q | 0 <= p < q < |w'| && w'[p] == y
      ensures w'[q] != x
    {
      if w' == w {
      } else if |w'| == |w| + 1 {
        if q < |w| {
          assert w'[..|w|][p] == w[p] && w'[..|w|][q] == w[q];
        }
      } else {
        assert w'[p] == w[p + 1] && w'[q] == w[q + 1];
      }
    }
  }

  lemma {:induction false} NeverAhead(s: State, steps: seq<Step>, i: nat, k: nat, x: AttemptId, y: AttemptId, b: BatchId)
    requires Inv(s) && i <= k <= |steps|
    requires forall m :: i <= m <= k ==> x in Waiting(StateAt(s, steps, m).queue, b)
    requires !Ahead(Waiting(StateAt(s, steps, i).queue, b), y, x)
    ensures !Ahead(Waiting(StateAt(s, steps, k).queue, b), y, x)
    decreases k
  {
    hide Inv, Apply, StateAt, Waiting, WaitingStep, Ahead;
    if i < k {
      NeverAhead(s, steps, i, k - 1, x, y, b);
      NextState(s, steps, k - 1);
      InvAt(s, steps, k - 1);
      StepWaiting(StateAt(s, steps, k - 1), steps[k - 1], b);
      NotAheadStays(Waiting(StateAt(s, steps, k - 1).queue, b), Waiting(StateAt(s, steps, k).queue, b), y, x);
    }
  }

  lemma InvAt(s: State, steps: seq<Step>, i: nat)
    requires Inv(s) && i <= |steps|
    ensures Inv(StateAt(s, steps, i))
  {
    RunKeeps(s, steps[..i]);
  }

  /**
   * No overtaking, over any run: while x waits, no attempt y of the same batch that was not ahead of x
   * when we started to watch is given a slot, neither from the queue nor by a direct start.
   */
  lemma NoOvertaking(s: State, steps: seq<Step>, i: nat, k: nat, x: AttemptId, y: AttemptId, b: BatchId)
    requires Inv(s) && i <= k < |steps| && x != y
    requires forall m :: i <= m <= k ==> x in Waiting(StateAt(s, steps, m).queue, b)
    requires !Ahead(Waiting(StateAt(s, steps, i).queue, b), y, x)
    ensures var now := StateAt(s, steps, k);
      Grants(now, steps[k], y) ==> y in now.attempts && now.attempts[y].batch != b
  {
    hide Inv, Apply, StateAt, Waiting, Idles, Occupy, Grants;
    var now := StateAt(s, steps, k);
    NeverAhead(s, steps, i, k, x, y, b);
    InvAt(s, steps, k);
    if Grants(now, steps[k], y) {
      GrantIsFifo(now, steps[k], y);
      var w := Waiting(now.queue, b);
      var q :| 0 <= q < |w| && w[q] == x;
      assert q > 0 ==> w[0] != y;
    }
  }
}
