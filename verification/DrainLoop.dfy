/** The drain loop of a reconcile pass hands the i-th lowest idle slot to the i-th oldest waiting attempt. */
module DrainLoop {
  import opened Wrappers
  import opened ExamState
  import opened ExamSteps
  import opened AllocationInvariant
  import opened FifoOrder

  /** The members of a set, from the least on. */
  ghost function Ascending(s: set<nat>): (r: seq<nat>)
    ensures |r| == |s| && forall n :: n in r <==> n in s
  {
    if s == {} then [] else [Least(s)] + Ascending(s - {Least(s)})
  }

  predicate Increasing(r: seq<nat>) {
    forall i, j :: 0 <= i < j < |r| ==> r[i] < r[j]
  }

  predicate Distinct(w: seq<AttemptId>) {
    forall i, j :: 0 <= i < j < |w| ==> w[i] != w[j]
  }

  lemma {:induction false} AscendingSorted(s: set<nat>)
    ensures Increasing(Ascending(s))
  {
    hide Least;
    if s != {} {
      var rest := Ascending(s - {Least(s)});
      AscendingSorted(s - {Least(s)});
      forall n | n in rest
        ensures Least(s) < n
      {
        assert n in s - {Least(s)};
      }
      ConsSorted(Least(s), rest);
    }
  }

  lemma ConsSorted(n: nat, r: seq<nat>)
    requires Increasing(r) && forall m :: m in r ==> n < m
    ensures Increasing([n] + r)
  {
    forall i, j | 0 <= i < j < |[n] + r|
      ensures ([n] + r)[i] < ([n] + r)[j]
    {
      assert r[j - 1] in r && (i > 0 ==> r[i - 1] < r[j - 1]);
    }
  }

  lemma NotBefore(r: seq<nat>, k: nat)
    requires Increasing(r) && k < |r|
    ensures r[k] !in r[..k]
  {
  }

  lemma AscendingStep(s: set<nat>)
    requires s != {}
    ensures |Ascending(s)| > 0 && Ascending(s)[0] == Least(s) && Ascending(s)[1..] == Ascending(s - {Least(s)})
  {
    hide Least;
  }

  /** One transaction of the loop per entry of `nows`, the time at which it ran. */
  ghost function Drained(s: State, b: BatchId, nows: seq<Time>): State
    decreases |nows|
  {
    if nows == [] then s else Drain(Drained(s, b, nows[..|nows| - 1]), b, nows[|nows| - 1])
  }

  /** The queue without the rows of these attempts. */
  function WithoutAll(queue: seq<QueueRow>, gone: seq<AttemptId>): seq<QueueRow> {
    if queue == [] then []
    else if queue[0].attempt in gone then WithoutAll(queue[1..], gone)
    else [queue[0]] + WithoutAll(queue[1..], gone)
  }

  lemma {:induction false} WithoutAllNone(queue: seq<QueueRow>)
    ensures WithoutAll(queue, []) == queue
  {
    if queue != [] {
      WithoutAllNone(queue[1..]);
    }
  }

  lemma {:induction false} WithoutAllOne(queue: seq<QueueRow>, gone: seq<AttemptId>, a: AttemptId)
    ensures Without(WithoutAll(queue, gone), a) == WithoutAll(queue, gone + [a])
  {
    if queue != [] {
      var rest := WithoutAll(queue[1..], gone);
      WithoutAllOne(queue[1..], gone, a);
      if queue[0].attempt !in gone {
        assert WithoutAll(queue, gone)[1..] == rest;
      }
    }
  }

  // ---- the simple description ----

  /** Slot I[i] of the batch is assigned to attempt W[i]; every other row is as before. */
  ghost predicate Zipped(old_: map<SlotKey, Slot>, new_: map<SlotKey, Slot>, b: BatchId, I: seq<nat>, W: seq<AttemptId>)
    requires |I| == |W|
  {
    && new_.Keys == old_.Keys
    && (forall i :: 0 <= i < |I| ==> SlotKey(b, I[i]) in new_ && new_[SlotKey(b, I[i])] == Slot(Assigned, Some(W[i])))
    && (forall k :: k in old_ && (k.batch != b || k.no !in I) ==> new_[k] == old_[k])
  }

  /** A ready or running attempt has two hours from now on. */
  function Fresh(at: Attempt, now: Time): Attempt {
    if at.status in {Ready, Running} then at.(deadlineAt := Some(now + 7200000)) else at
  }

  /** The time of an attempt starts when it is given its slot, unless it is already over; nobody else is touched. */
  ghost predicate Restarted(old_: map<AttemptId, Attempt>, new_: map<AttemptId, Attempt>, W: seq<AttemptId>, nows: seq<Time>)
    requires |W| == |nows|
  {
    && new_.Keys == old_.Keys
    && (forall i :: 0 <= i < |W| ==> W[i] in old_ && new_[W[i]] == Fresh(old_[W[i]], nows[i]))
    && (forall a :: a in old_ && a !in W ==> new_[a] == old_[a])
  }

  // ---- one more transaction ----

  lemma OccupyIdles(slots: map<SlotKey, Slot>, b: BatchId, a: AttemptId)
    requires Idles(slots, b) != {}
    ensures var no := Least(Idles(slots, b));
      Idles(Occupy(slots, b, no, a), b) == Idles(slots, b) - {no} && SlotKey(b, no) in slots
  {
    var no := Least(Idles(slots, b));
    var t := Occupy(slots, b, no, a);
    forall n | n in Idles(slots, b) - {no}
      ensures n in Idles(t, b)
    {
      assert SlotKey(b, n) in t;
    }
  }

  lemma ZipMore(old_: map<SlotKey, Slot>, new_: map<SlotKey, Slot>, b: BatchId, I: seq<nat>, W: seq<AttemptId>,
                no: nat, a: AttemptId)
    requires |I| == |W| && Zipped(old_, new_, b, I, W) && no !in I && SlotKey(b, no) in new_
    ensures Zipped(old_, Occupy(new_, b, no, a), b, I + [no], W + [a])
  {
  }

  lemma RestartMore(old_: map<AttemptId, Attempt>, new_: map<AttemptId, Attempt>, W: seq<AttemptId>, nows: seq<Time>,
                    a: AttemptId, now: Time)
    requires |W| == |nows| && Restarted(old_, new_, W, nows) && a !in W && a in old_
    ensures Restarted(old_, WithDeadline(new_, a, now + DURATION), W + [a], nows + [now])
  {
    var t := WithDeadline(new_, a, now + DURATION);
    assert t.Keys == new_.Keys && t[a] == Fresh(old_[a], now);
    forall i | 0 <= i < |W + [a]|
      ensures t[(W + [a])[i]] == Fresh(old_[(W + [a])[i]], (nows + [now])[i])
    {
      if i < |W| {
        assert W[i] != a && t[W[i]] == new_[W[i]];
      }
    }
    assert forall x :: x in W + [a] <==> x in W || x == a;
  }

  lemma {:induction false} WaitingOnce(queue: seq<QueueRow>, b: BatchId)
    requires QueuedOnce(queue)
    ensures Distinct(Waiting(queue, b))
  {
    if queue != [] {
      var rest := queue[1..];
      WaitingOnce(rest, b);
      forall j | 0 <= j < |Waiting(rest, b)|
        ensures Waiting(rest, b)[j] != queue[0].attempt
      {
        WaitingRows(rest, b, Waiting(rest, b)[j]);
        var i :| 0 <= i < |rest| && rest[i] == QueueRow(Waiting(rest, b)[j], b);
        assert queue[i + 1] == rest[i];
      }
    }
  }

  /** How far the loop is after these transactions, for as long as somebody waits and a slot is idle. */
  ghost predicate DrainedTo(s: State, t: State, b: BatchId, nows: seq<Time>)
    requires |nows| <= |Waiting(s.queue, b)| && |nows| <= |Idles(s.slots, b)|
  {
    var W, I, k := Waiting(s.queue, b), Ascending(Idles(s.slots, b)), |nows|;
    && Waiting(t.queue, b) == W[k..] && Ascending(Idles(t.slots, b)) == I[k..]
    && t == s.(slots := t.slots, queue := WithoutAll(s.queue, W[..k]), attempts := t.attempts)
    && Zipped(s.slots, t.slots, b, I[..k], W[..k])
    && Restarted(s.attempts, t.attempts, W[..k], nows)
  }

  lemma SliceStep<T>(w: seq<T>, k: nat)
    requires k < |w|
    ensures w[k..] != [] && w[k..][0] == w[k] && w[k..][1..] == w[k + 1..] && w[..k + 1] == w[..k] + [w[k]]
  {
  }

  lemma DrainMore(s: State, t: State, b: BatchId, nows: seq<Time>, now: Time)
    requires Inv(s) && Inv(t) && |nows| < |Waiting(s.queue, b)| && |nows| < |Idles(s.slots, b)|
    requires DrainedTo(s, t, b, nows)
    ensures CanDrain(t, b) && DrainedTo(s, Drain(t, b, now), b, nows + [now])
  {
    hide Inv, Idles, Waiting, Without, WithoutAll, Zipped, Restarted, Occupy, WithDeadline, Ascending, Least, CanDrain,
         Drain, Increasing;
    var W, I, k := Waiting(s.queue, b), Ascending(Idles(s.slots, b)), |nows|;
    SliceStep(W, k);
    SliceStep(I, k);
    NextPair(t, b);
    DrainIs(t, b, now);
    AscendingSorted(Idles(s.slots, b));
    NotBefore(I, k);
    HeadNew(s, b, k);
    HeadGone(t, b);
    ZipMore(s.slots, t.slots, b, I[..k], W[..k], I[k], W[k]);
    RestartMore(s.attempts, t.attempts, W[..k], nows, W[k], now);
    WithoutAllOne(s.queue, W[..k], W[k]);
  }

  lemma DrainIs(t: State, b: BatchId, now: Time)
    requires CanDrain(t, b) && Waiting(t.queue, b) != [] && Idles(t.slots, b) != {}
    ensures var head := Waiting(t.queue, b)[0];
      Drain(t, b, now) == t.(slots := Occupy(t.slots, b, Least(Idles(t.slots, b)), head),
                             queue := Without(t.queue, head), attempts := WithDeadline(t.attempts, head, now + DURATION))
  {
    hide CanDrain, Idles, Waiting, Without, Occupy, WithDeadline, Least;
  }

  /** The next transaction takes the first of the waiting and the first of the idle. */
  lemma NextPair(t: State, b: BatchId)
    requires Inv(t) && Waiting(t.queue, b) != [] && Ascending(Idles(t.slots, b)) != []
    ensures CanDrain(t, b) && Idles(t.slots, b) != {}
    ensures var no, idles := Least(Idles(t.slots, b)), Ascending(Idles(t.slots, b));
      && idles[0] == no && SlotKey(b, no) in t.slots
      && Ascending(Idles(Occupy(t.slots, b, no, Waiting(t.queue, b)[0]), b)) == idles[1..]
  {
    hide Inv, Idles, Waiting, Occupy, Least, CanDrain;
    DrainNeverViolates(t, b);
    AscendingStep(Idles(t.slots, b));
    OccupyIdles(t.slots, b, Waiting(t.queue, b)[0]);
  }

  /** The k-th waiting attempt is not among the first k. */
  lemma HeadNew(s: State, b: BatchId, k: nat)
    requires Inv(s) && k < |Waiting(s.queue, b)|
    ensures var W := Waiting(s.queue, b); W[k] !in W[..k] && W[k] in s.attempts
  {
    hide SlotsOk, OneSlotEach, SubmissionsOk, AttemptsOk, WaitsWithoutSlot, Waiting, QueuedOnce;
    WaitingOnce(s.queue, b);
    WaitingRows(s.queue, b, Waiting(s.queue, b)[k]);
  }

  lemma HeadGone(t: State, b: BatchId)
    requires Inv(t) && Waiting(t.queue, b) != []
    ensures Waiting(Without(t.queue, Waiting(t.queue, b)[0]), b) == Waiting(t.queue, b)[1..]
  {
    hide SlotsOk, OneSlotEach, SubmissionsOk, AttemptsOk, WaitsWithoutSlot, QueueOk, QueuedOnce, Waiting, Without;
    WaitingWithoutHead(t.queue, b);
  }

  lemma {:induction false} DrainedKeeps(s: State, b: BatchId, nows: seq<Time>)
    requires Inv(s)
    ensures Inv(Drained(s, b, nows))
    decreases |nows|
  {
    hide Inv, Drain;
    if nows != [] {
      DrainedKeeps(s, b, nows[..|nows| - 1]);
      DrainKeeps(Drained(s, b, nows[..|nows| - 1]), b, nows[|nows| - 1]);
    }
  }

  /**
   * The drain loop refines a zip: after k transactions, k at most the number waiting and the number idle, the i-th
   * oldest waiting attempt has the i-th lowest idle slot for i < k, exactly those k rows have left the queue, no
   * other slot or attempt has changed, and the loop goes on exactly if somebody waits and a slot is idle.
   */
  lemma {:induction false} DrainIsZip(s: State, b: BatchId, nows: seq<Time>)
    requires Inv(s) && |nows| <= |Waiting(s.queue, b)| && |nows| <= |Idles(s.slots, b)|
    ensures DrainedTo(s, Drained(s, b, nows), b, nows)
    ensures CanDrain(Drained(s, b, nows), b) <==> |nows| < |Waiting(s.queue, b)| && |nows| < |Idles(s.slots, b)|
    decreases |nows|
  {
    hide Inv, Idles, Waiting, Without, Drain, CanDrain, DrainedTo;
    if nows == [] {
      NotYet(s, b);
    } else {
      var before, now := nows[..|nows| - 1], nows[|nows| - 1];
      assert before + [now] == nows;
      DrainIsZip(s, b, before);
      DrainedKeeps(s, b, before);
      DrainMore(s, Drained(s, b, before), b, before, now);
    }
    DrainedKeeps(s, b, nows);
    GoesOn(s, Drained(s, b, nows), b, nows);
  }

  lemma NotYet(s: State, b: BatchId)
    ensures DrainedTo(s, s, b, [])
  {
    hide Idles, Waiting;
    WithoutAllNone(s.queue);
  }

  lemma GoesOn(s: State, t: State, b: BatchId, nows: seq<Time>)
    requires Inv(t) && |nows| <= |Waiting(s.queue, b)| && |nows| <= |Idles(s.slots, b)|
    requires DrainedTo(s, t, b, nows)
    ensures CanDrain(t, b) <==> |nows| < |Waiting(s.queue, b)| && |nows| < |Idles(s.slots, b)|
  {
    hide Inv, Idles, Waiting, Zipped, Restarted, WithoutAll;
    DrainNeverViolates(t, b);
    assert |Ascending(Idles(t.slots, b))| == |Idles(t.slots, b)|;
  }
}
