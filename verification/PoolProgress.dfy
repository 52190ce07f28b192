/** The pool grows to what is asked for: one reconcile pass orders the pods, the next one hands them out. */
module PoolProgress {
  import opened ExamState
  import opened ExamSteps
  import opened AllocationInvariant
  import opened FifoOrder
  import opened SlotEpoch

  // ---- runs within an epoch ----

  /** Each step of the run may happen within the epoch, in the state it is taken from. */
  ghost predicate EpochRun(s: State, steps: seq<Step>, b: BatchId)
    decreases |steps|
  {
    steps == [] ||
    (EpochRun(s, steps[..|steps| - 1], b) && WithinEpoch(Run(s, steps[..|steps| - 1]), steps[|steps| - 1], b))
  }

  /** Within an epoch no busy or idle slot is beyond the replicas, and the replicas never fall or exceed the pool. */
  lemma {:induction false} EpochFramed(s: State, steps: seq<Step>, b: BatchId)
    requires Framed(s, b) && EpochRun(s, steps, b)
    ensures Framed(Run(s, steps), b) && s.replicas <= Run(s, steps).replicas
    decreases |steps|
  {
    hide Apply, Framed, WithinEpoch;
    if steps != [] {
      EpochFramed(s, steps[..|steps| - 1], b);
      StepFramed(Run(s, steps[..|steps| - 1]), steps[|steps| - 1], b);
    }
  }

  // ---- demand ----

  /** Busy slots and waiting attempts. */
  function Demand(s: State, b: BatchId): nat {
    |BusyNumbers(s.slots, b)| + CountWaiting(s.queue, b)
  }

  /** The replicas cover the demand, up to the pool size. */
  ghost predicate Covered(s: State, b: BatchId) {
    b in s.batches && (s.replicas >= Demand(s, b) || s.replicas >= PoolSize(s.batches[b]))
  }

  lemma ScaleCovers(s: State, b: BatchId)
    requires b in s.batches
    ensures Covered(Scale(s, b), b)
  {
  }

  lemma SameBusy(old_: map<SlotKey, Slot>, new_: map<SlotKey, Slot>, b: BatchId)
    requires forall k: SlotKey :: k.batch == b ==>
      (k in new_ && IsBusy(new_[k].state) <==> k in old_ && IsBusy(old_[k].state))
    ensures BusyNumbers(new_, b) == BusyNumbers(old_, b)
  {
    forall n | n in BusyNumbers(new_, b)
      ensures n in BusyNumbers(old_, b)
    {
      assert SlotKey(b, n) in new_;
    }
    forall n | n in BusyNumbers(old_, b)
      ensures n in BusyNumbers(new_, b)
    {
      assert SlotKey(b, n) in old_;
    }
  }

  lemma OccupyBusy(slots: map<SlotKey, Slot>, c: BatchId, a: AttemptId, b: BatchId)
    requires Idles(slots, c) != {}
    ensures var t := Occupy(slots, c, Least(Idles(slots, c)), a);
      |BusyNumbers(t, b)| == |BusyNumbers(slots, b)| + if c == b then 1 else 0
  {
    var no := Least(Idles(slots, c));
    var t := Occupy(slots, c, no, a);
    assert SlotKey(c, no) in slots && slots[SlotKey(c, no)].state == Idle;
    if c != b {
      SameBusy(slots, t, b);
    } else {
      assert no !in BusyNumbers(slots, b);
      assert BusyNumbers(t, b) == BusyNumbers(slots, b) + {no} by {
        forall n | n in BusyNumbers(t, b)
          ensures n in BusyNumbers(slots, b) + {no}
        {
          assert SlotKey(b, n) in t;
        }
        forall n | n in BusyNumbers(slots, b) + {no}
          ensures n in BusyNumbers(t, b)
        {
          assert SlotKey(b, n) in t;
        }
      }
    }
  }

  /** Relabelling steps of an epoch leave the busy set of the batch alone. */
  lemma RelabelBusy(s: State, step: Step, b: BatchId)
    requires !step.StartTx? && !step.DrainTx? && !EndsEpoch(step, b)
    ensures BusyNumbers(Apply(s, step).slots, b) == BusyNumbers(s.slots, b)
  {
    hide Apply, BusyNumbers;
    SlotsAfter(s, step);
    var t := Apply(s, step).slots;
    SameBusy(s.slots, t, b);
  }

  /** A start that asks for one more slot of b: a restart does not, nor does a start in another batch. */
  ghost predicate Arrives(s: State, step: Step, b: BatchId) {
    && step.StartTx? && Startable(s, step.a, step.user) && s.attempts[step.a].batch == b
    && !HasSlot(s.slots, step.a) && !IsQueued(s.queue, step.a)
  }

  /** Nobody arrives at b during the run. */
  ghost predicate QuietRun(s: State, steps: seq<Step>, b: BatchId)
    decreases |steps|
  {
    steps == [] ||
    (QuietRun(s, steps[..|steps| - 1], b) && !Arrives(Run(s, steps[..|steps| - 1]), steps[|steps| - 1], b))
  }

  lemma QuietStart(s: State, a: AttemptId, user: UserId, deadline: Time, now: Time, b: BatchId)
    requires Inv(s) && !Arrives(s, StartTx(a, user, deadline, now), b)
    ensures var t := Start(s, a, user, deadline, now);
      Waiting(t.queue, b) == Waiting(s.queue, b) && |BusyNumbers(t.slots, b)| == |BusyNumbers(s.slots, b)|
  {
    hide Inv, Idles, Waiting, BusyNumbers, HasSlot, IsQueued, Occupy;
    if Startable(s, a, user) && !HasSlot(s.slots, a) {
      var c := s.attempts[a].batch;
      StartNeverViolates(s.slots, c, a);
      if Waiting(s.queue, c) == [] {
        NotQueued(s, a);
        if Idles(s.slots, c) != {} {
          OccupyBusy(s.slots, c, a, b);
        }
      }
      WaitingAppend(s.queue, QueueRow(a, c), b);
    }
  }

  /** Without arrivals the waiting list never grows, and a drain of b shortens it by one. */
  lemma QuietWaiting(s: State, step: Step, b: BatchId)
    requires Inv(s) && !step.StartTx?
    ensures CountWaiting(Apply(s, step).queue, b) <= CountWaiting(s.queue, b)
    ensures step.DrainTx? && step.b == b && CanDrain(s, b) ==>
      CountWaiting(Apply(s, step).queue, b) == CountWaiting(s.queue, b) - 1
  {
    hide Inv, Finish, Package, VoidAttempt, WithDeadline, Desired, BusyNumbers, Waiting, SyncUp, SyncDown,
         Register, ResetBatch, MarkDown, Without, WithoutBatch, Upsert, PutFile, AssignIdle;
    match step
    case SubmitTx(a, _, now) => FinishQueue(s, a, now);
    case ForceSubmitTx(a, now) => FinishQueue(s, a, now);
    case AutoCollectTx(a, now) => FinishQueue(s, a, now);
    case VoidTx(a) => VoidQueue(s, a);
    case PackageTx(a, artifact, chat, now) => PackageQueue(s, a, artifact, chat, now);
    case ClearQueue(c) => WaitingWithoutBatch(s.queue, c, b);
    case DrainTx(c, now) => if CanDrain(s, c) { DrainCounts(s, c, b); }
    case _ =>
  }

  lemma DrainCounts(s: State, c: BatchId, b: BatchId)
    requires Inv(s) && Waiting(s.queue, c) != []
    ensures Waiting(Without(s.queue, Waiting(s.queue, c)[0]), b) ==
      if c == b then Waiting(s.queue, b)[1..] else Waiting(s.queue, b)
  {
    hide SlotsOk, OneSlotEach, SubmissionsOk, AttemptsOk, WaitsWithoutSlot, Waiting, Without;
    if c == b {
      WaitingWithoutHead(s.queue, b);
    } else {
      HeadFacts(s, c);
      WaitingWithoutOther(s.queue, Waiting(s.queue, c)[0], b);
    }
  }

  /** Nobody arrives: the demand does not rise. */
  lemma QuietDemand(s: State, step: Step, b: BatchId)
    requires Inv(s) && !Arrives(s, step, b) && !EndsEpoch(step, b)
    ensures Demand(Apply(s, step), b) <= Demand(s, b)
  {
    hide Inv, Apply, BusyNumbers, Waiting, CanDrain, Drain, Start, Arrives;
    match step
    case StartTx(a, user, deadline, now) =>
      QuietStart(s, a, user, deadline, now, b);
      ApplyStart(s, a, user, deadline, now);
    case DrainTx(c, now) =>
      QuietWaiting(s, step, b);
      DrainBusy(s, c, now, b);
      ApplyDrain(s, c, now);
    case _ =>
      QuietWaiting(s, step, b);
      RelabelBusy(s, step, b);
  }

  lemma ApplyStart(s: State, a: AttemptId, user: UserId, deadline: Time, now: Time)
    ensures Apply(s, StartTx(a, user, deadline, now)) == Start(s, a, user, deadline, now)
  {
    hide Start;
  }

  lemma ApplyDrain(s: State, c: BatchId, now: Time)
    ensures Apply(s, DrainTx(c, now)) == Drain(s, c, now)
  {
    hide Drain;
  }

  lemma DrainBusy(s: State, c: BatchId, now: Time, b: BatchId)
    ensures |BusyNumbers(Drain(s, c, now).slots, b)| ==
      |BusyNumbers(s.slots, b)| + if c == b && CanDrain(s, c) then 1 else 0
  {
    hide BusyNumbers, Waiting, Without, WithDeadline, Idles;
    if CanDrain(s, c) {
      OccupyBusy(s.slots, c, Waiting(s.queue, c)[0], b);
    }
  }

  lemma {:induction false} QuietCovered(s: State, steps: seq<Step>, b: BatchId)
    requires Inv(s) && Framed(s, b) && EpochRun(s, steps, b) && QuietRun(s, steps, b) && Covered(s, b)
    ensures Covered(Run(s, steps), b)
    decreases |steps|
  {
    hide Inv, Apply, Demand, Framed, Arrives;
    if steps != [] {
      var before, last := steps[..|steps| - 1], steps[|steps| - 1];
      QuietCovered(s, before, b);
      RunKeeps(s, before);
      EpochFramed(s, before, b);
      QuietDemand(Run(s, before), last, b);
      ReplicasAfter(Run(s, before), last, b);
    }
  }

  // ---- all pods up ----

  /** Every slot that has a pod is idle or busy. */
  ghost predicate AllUp(s: State, b: BatchId) {
    forall n: nat :: n < s.replicas ==>
      SlotKey(b, n) in s.slots && s.slots[SlotKey(b, n)].state in {Idle, Assigned, Submitting, Recycling}
  }

  lemma SyncAllUp(s: State, b: BatchId, pods: set<nat>)
    requires Framed(s, b) && forall n :: 0 <= n < s.replicas ==> n in pods
    ensures AllUp(Apply(Apply(s, SyncUpdate(b, pods)), SyncRevoke(b, pods)), b)
  {
  }

  /** What other requests can do to a batch while its reconcile pass drains the queue: only the pass itself syncs
      and scales. */
  predicate DuringDrain(step: Step, b: BatchId) {
    && !EndsEpoch(step, b) && !step.ScaleUp? && !step.ScaleTo?
    && (step.SyncUpdate? || step.SyncRevoke? ==> step.b != b)
    && (step.RegisterTx? && step.b == b ==> step.state == Idle)
  }

  lemma StepAllUp(s: State, step: Step, b: BatchId)
    requires AllUp(s, b) && DuringDrain(step, b)
    ensures AllUp(Apply(s, step), b) && Apply(s, step).replicas == s.replicas
  {
    hide Apply;
    SlotsAfter(s, step);
    SameReplicas(s, step);
    match step
    case StartTx(_, _, _, _) =>
    case DrainTx(_, _) =>
    case _ =>
  }

  lemma SameReplicas(s: State, step: Step)
    requires !step.ScaleUp? && !step.ScaleTo?
    ensures Apply(s, step).replicas == s.replicas
  {
    hide Idles, Occupy, MarkSubmitting, MarkRecycling, SyncUp, SyncDown, Register, ResetBatch, MarkDown, Waiting,
         Without, WithoutBatch, WithDeadline, BusyNumbers, HasSlot, IsQueued, Upsert, PutFile, AssignIdle;
  }

  lemma {:induction false} RunAllUp(s: State, steps: seq<Step>, b: BatchId)
    requires AllUp(s, b) && forall step :: step in steps ==> DuringDrain(step, b)
    ensures AllUp(Run(s, steps), b) && Run(s, steps).replicas == s.replicas
    decreases |steps|
  {
    hide Apply, AllUp, DuringDrain;
    if steps != [] {
      assert steps[|steps| - 1] in steps;
      RunAllUp(s, steps[..|steps| - 1], b);
      StepAllUp(Run(s, steps[..|steps| - 1]), steps[|steps| - 1], b);
    }
  }

  // ---- progress ----

  ghost predicate AllBusy(s: State, b: BatchId)
    requires b in s.batches
  {
    forall n: nat :: n < s.batches[b].capacity && n < 50 ==>
      SlotKey(b, n) in s.slots && s.slots[SlotKey(b, n)].state in {Assigned, Submitting, Recycling}
  }

  function Below(n: nat): (r: set<nat>)
    ensures |r| == n && forall i: nat :: i in r <==> i < n
  {
    if n == 0 then {} else Below(n - 1) + {n - 1}
  }

  lemma AllBusyCount(s: State, b: BatchId)
    requires Framed(s, b) && AllUp(s, b) && Idles(s.slots, b) == {}
    ensures |BusyNumbers(s.slots, b)| == s.replicas
    ensures forall n: nat :: n < s.replicas ==> SlotKey(b, n) in s.slots && IsBusy(s.slots[SlotKey(b, n)].state)
  {
    forall n: nat | n < s.replicas
      ensures SlotKey(b, n) in s.slots && IsBusy(s.slots[SlotKey(b, n)].state)
    {
      assert s.slots[SlotKey(b, n)].state == Idle ==> n in Idles(s.slots, b);
    }
    assert BusyNumbers(s.slots, b) == Below(s.replicas) by {
      assert forall n: nat :: n in Below(s.replicas) ==> SlotKey(b, n) in s.slots;
    }
  }

  /** When a pass can drain no further with all its pods up, nobody waits or the whole pool is busy. */
  lemma DrainedDry(s: State, b: BatchId)
    requires Inv(s) && Framed(s, b) && Covered(s, b) && AllUp(s, b) && !CanDrain(s, b)
    ensures Waiting(s.queue, b) == [] || AllBusy(s, b)
  {
    hide Inv, AllUp, CanDrain, Waiting, BusyNumbers, Idles;
    DrainNeverViolates(s, b);
    if Waiting(s.queue, b) != [] {
      AllBusyCount(s, b);
      assert Demand(s, b) > s.replicas;
    }
  }

  /** The two updates of `syncReadySlots` for these pods. */
  ghost function Synced(s: State, b: BatchId, pods: set<nat>): State {
    Apply(Apply(s, SyncUpdate(b, pods)), SyncRevoke(b, pods))
  }

  lemma SyncedKeeps(s: State, b: BatchId, pods: set<nat>)
    requires Inv(s) && Framed(s, b) && Covered(s, b) && forall n :: n in pods ==> n < s.replicas
    ensures Inv(Synced(s, b, pods)) && Framed(Synced(s, b, pods), b) && Covered(Synced(s, b, pods), b)
  {
    hide Inv, Apply, Framed, Demand;
    var up := Apply(s, SyncUpdate(b, pods));
    StepKeeps(s, SyncUpdate(b, pods));
    StepFramed(s, SyncUpdate(b, pods), b);
    QuietDemand(s, SyncUpdate(b, pods), b);
    ReplicasAfter(s, SyncUpdate(b, pods), b);
    StepKeeps(up, SyncRevoke(b, pods));
    StepFramed(up, SyncRevoke(b, pods), b);
    QuietDemand(up, SyncRevoke(b, pods), b);
    ReplicasAfter(up, SyncRevoke(b, pods), b);
  }

  /**
   * Pool progress. A pass ends by scaling in `s`. Then anything of the epoch may run but nobody arrives, all pods
   * below the replicas report Ready, and the next pass drains, interleaved with anything but arrivals, until it
   * can drain no more. Now the queue is empty or all min(capacity, 50) slots are busy.
   */
  lemma PoolMakesProgress(s: State, between: seq<Step>, pods: set<nat>, draining: seq<Step>, b: BatchId)
    requires Inv(s) && Framed(s, b)
    requires EpochRun(Scale(s, b), between, b) && QuietRun(Scale(s, b), between, b)
    requires forall n :: n in pods <==> 0 <= n < Run(Scale(s, b), between).replicas
    requires var next := Synced(Run(Scale(s, b), between), b, pods);
      EpochRun(next, draining, b) && QuietRun(next, draining, b) &&
      (forall step :: step in draining ==> DuringDrain(step, b)) &&
      !CanDrain(Run(next, draining), b)
    ensures var end := Run(Synced(Run(Scale(s, b), between), b, pods), draining);
      b in end.batches && (Waiting(end.queue, b) == [] || AllBusy(end, b))
  {
    hide Inv, Framed, Covered, AllUp, CanDrain, Run, EpochRun, QuietRun, AllBusy, Scale, Synced, WithinEpoch;
    var scaled := Scale(s, b);
    Scaled(s, b);
    var ready := Run(scaled, between);
    QuietCovered(scaled, between, b);
    RunKeeps(scaled, between);
    EpochFramed(scaled, between, b);
    SyncedKeeps(ready, b, pods);
    SyncedUp(ready, b, pods);
    var next := Synced(ready, b, pods);
    var end := Run(next, draining);
    RunAllUp(next, draining, b);
    QuietCovered(next, draining, b);
    RunKeeps(next, draining);
    EpochFramed(next, draining, b);
    FramedBatch(end, b);
    DrainedDry(end, b);
  }

  lemma FramedBatch(s: State, b: BatchId)
    requires Framed(s, b)
    ensures b in s.batches
  {
  }

  lemma Scaled(s: State, b: BatchId)
    requires Inv(s) && Framed(s, b)
    ensures Inv(Scale(s, b)) && Framed(Scale(s, b), b) && Covered(Scale(s, b), b)
  {
    hide Inv, Covered, Desired;
    StepKeeps(s, ScaleUp(b));
    StepFramed(s, ScaleUp(b), b);
    ScaleCovers(s, b);
    assert Apply(s, ScaleUp(b)) == Scale(s, b);
  }

  lemma SyncedUp(s: State, b: BatchId, pods: set<nat>)
    requires Framed(s, b) && forall n :: n in pods <==> 0 <= n < s.replicas
    ensures AllUp(Synced(s, b, pods), b)
  {
    SyncAllUp(s, b, pods);
  }
}
