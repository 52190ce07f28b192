/** The place in the queue that a waiting examinee is shown. */
module QueuePosition {
  import opened ExamState
  import opened ExamSteps
  import opened AllocationInvariant
  import opened FifoOrder
  import opened DrainLoop

  lemma {:induction false} WaitingConcat(x: seq<QueueRow>, y: seq<QueueRow>, b: BatchId)
    ensures Waiting(x + y, b) == Waiting(x, b) + Waiting(y, b)
  {
    if x == [] {
      assert x + y == y;
    } else {
      assert (x + y)[1..] == x[1..] + y;
      WaitingConcat(x[1..], y, b);
    }
  }

  /** Rows of the batch that were queued before row i. */
  function Earlier(queue: seq<QueueRow>, b: BatchId, i: nat): set<nat>
    requires i <= |queue|
  {
    set j: nat | j < i && queue[j].batch == b
  }

  lemma {:induction false} EarlierCount(queue: seq<QueueRow>, b: BatchId, i: nat)
    requires i <= |queue|
    ensures |Earlier(queue, b, i)| == |Waiting(queue[..i], b)|
  {
    if i > 0 {
      EarlierCount(queue, b, i - 1);
      assert queue[..i] == queue[..i - 1] + [queue[i - 1]];
      WaitingAppend(queue[..i - 1], queue[i - 1], b);
      assert Earlier(queue, b, i) == Earlier(queue, b, i - 1) + if queue[i - 1].batch == b then {i - 1} else {};
    }
  }

  /** The count of earlier rows is the index in the waiting list. */
  lemma RowPlace(queue: seq<QueueRow>, i: nat)
    requires i < |queue|
    ensures var b := queue[i].batch; var n := |Earlier(queue, b, i)|;
      n < |Waiting(queue, b)| && Waiting(queue, b)[n] == queue[i].attempt
  {
    var b := queue[i].batch;
    EarlierCount(queue, b, i);
    assert queue == queue[..i] + queue[i..];
    WaitingConcat(queue[..i], queue[i..], b);
  }

  /** Where x stands. */
  function Place(w: seq<AttemptId>, x: AttemptId): (r: nat)
    requires x in w
    ensures r < |w| && w[r] == x
  {
    if w[0] == x then 0 else 1 + Place(w[1..], x)
  }

  lemma PlaceStep(w: seq<AttemptId>, w': seq<AttemptId>, x: AttemptId)
    requires WaitingStep(w, w') && Distinct(w) && Distinct(w') && x in w && x in w'
    ensures Place(w', x) <= Place(w, x)
  {
    var p, q := Place(w, x), Place(w', x);
    if |w'| == |w| + 1 {
      assert w'[..|w|][p] == w'[p];
    } else if w' != w {
      assert w'[q] == w[q + 1];
    }
  }

  /** Over any run, an examinee who stays in the queue never falls back. */
  lemma {:induction false} PlaceNeverGrows(s: State, steps: seq<Step>, i: nat, k: nat, x: AttemptId, b: BatchId)
    requires Inv(s) && i <= k <= |steps|
    requires forall m :: i <= m <= k ==> x in Waiting(StateAt(s, steps, m).queue, b)
    ensures Place(Waiting(StateAt(s, steps, k).queue, b), x) <= Place(Waiting(StateAt(s, steps, i).queue, b), x)
    decreases k
  {
    hide Inv, Apply, StateAt, Waiting, WaitingStep, Place, Distinct;
    if i < k {
      PlaceNeverGrows(s, steps, i, k - 1, x, b);
      NextState(s, steps, k - 1);
      InvAt(s, steps, k - 1);
      InvAt(s, steps, k);
      StepWaiting(StateAt(s, steps, k - 1), steps[k - 1], b);
      InvDistinct(StateAt(s, steps, k - 1), b);
      InvDistinct(StateAt(s, steps, k), b);
      PlaceStep(Waiting(StateAt(s, steps, k - 1).queue, b), Waiting(StateAt(s, steps, k).queue, b), x);
    }
  }

  lemma InvDistinct(s: State, b: BatchId)
    requires Inv(s)
    ensures Distinct(Waiting(s.queue, b))
  {
    hide SlotsOk, OneSlotEach, SubmissionsOk, AttemptsOk, WaitsWithoutSlot, QueueOk, QueuedOnce, Waiting, Distinct;
    WaitingOnce(s.queue, b);
  }
}
