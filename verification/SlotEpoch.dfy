/**
 * One epoch of a batch: from its slot reset and registration to its next close or reset.
 * Single tenancy of a slot, and progress of the pool.
 */
module SlotEpoch {
  import opened ExamState
  import opened ExamSteps

  predicate EndsEpoch(step: Step, b: BatchId) {
    (step.ResetSlots? && step.b == b) || (step.DownSlots? && step.b == b)
  }

  // ---- single tenancy ----

  /** A slot has an attempt exactly when it is assigned, submitting or recycling. */
  ghost predicate Tenanted(slots: map<SlotKey, Slot>, b: BatchId) {
    forall k :: k in slots && k.batch == b ==>
      (slots[k].attempt.Some? <==> slots[k].state in {Assigned, Submitting, Recycling})
  }

  function Rank(st: SlotState): nat {
    match st
    case Assigned => 1
    case Submitting => 2
    case Recycling => 3
    case _ => 0
  }

  /** Tenants stay, and their slots only move from assigned to submitting to recycling. */
  ghost predicate TenantsStay(old_: map<SlotKey, Slot>, new_: map<SlotKey, Slot>, b: BatchId) {
    forall k :: k in old_ && k.batch == b ==>
      && k in new_
      && (old_[k].state in {Assigned, Submitting, Recycling} ==> new_[k].attempt == old_[k].attempt && Rank(old_[k].state) <= Rank(new_[k].state))
  }

  lemma OccupyTenancy(slots: map<SlotKey, Slot>, c: BatchId, a: AttemptId, b: BatchId)
    requires Tenanted(slots, b) && Idles(slots, c) != {}
    ensures var t := Occupy(slots, c, Least(Idles(slots, c)), a); Tenanted(t, b) && TenantsStay(slots, t, b)
  {
    assert SlotKey(c, Least(Idles(slots, c))) in slots;
  }

  lemma MarkTenancy(slots: map<SlotKey, Slot>, a: AttemptId, b: BatchId)
    requires Tenanted(slots, b)
    ensures Tenanted(MarkSubmitting(slots, a), b) && TenantsStay(slots, MarkSubmitting(slots, a), b)
    ensures Tenanted(MarkRecycling(slots, a), b) && TenantsStay(slots, MarkRecycling(slots, a), b)
  {
  }

  lemma SyncTenancy(slots: map<SlotKey, Slot>, c: BatchId, pods: set<nat>, b: BatchId)
    requires Tenanted(slots, b)
    ensures Tenanted(SyncUp(slots, c, pods), b) && TenantsStay(slots, SyncUp(slots, c, pods), b)
    ensures Tenanted(SyncDown(slots, c, pods), b) && TenantsStay(slots, SyncDown(slots, c, pods), b)
  {
  }

  lemma RegisterTenancy(slots: map<SlotKey, Slot>, k: SlotKey, state: SlotState, b: BatchId)
    requires Tenanted(slots, b) && !IsBusy(state)
    ensures Tenanted(Register(slots, k, state), b) && TenantsStay(slots, Register(slots, k, state), b)
  {
  }

  lemma EndTenancy(slots: map<SlotKey, Slot>, c: BatchId, b: BatchId)
    requires Tenanted(slots, b) && c != b
    ensures Tenanted(ResetBatch(slots, c), b) && TenantsStay(slots, ResetBatch(slots, c), b)
    ensures Tenanted(MarkDown(slots, c), b) && TenantsStay(slots, MarkDown(slots, c), b)
  {
  }

  /** Which slot table a step produces. */
  lemma SlotsAfter(s: State, step: Step)
    ensures var t := Apply(s, step).slots;
      match step
      case StartTx(a, _, _, _) => t == s.slots ||
        (exists c :: Idles(s.slots, c) != {} && t == Occupy(s.slots, c, Least(Idles(s.slots, c)), a))
      case DrainTx(b, _) => t == s.slots ||
        (exists a :: Idles(s.slots, b) != {} && t == Occupy(s.slots, b, Least(Idles(s.slots, b)), a))
      case SubmitTx(a, _, _) => t == s.slots || t == MarkSubmitting(s.slots, a)
      case ForceSubmitTx(a, _) => t == s.slots || t == MarkSubmitting(s.slots, a)
      case AutoCollectTx(a, _) => t == s.slots || t == MarkSubmitting(s.slots, a)
      case PackageTx(a, _, _, _) => t == s.slots || t == MarkRecycling(s.slots, a)
      case SyncUpdate(b, pods) => t == SyncUp(s.slots, b, pods)
      case SyncRevoke(b, pods) => t == SyncDown(s.slots, b, pods)
      case RegisterTx(b, no, state) => t == s.slots || (!IsBusy(state) && t == Register(s.slots, SlotKey(b, no), state))
      case ResetSlots(b) => t == ResetBatch(s.slots, b)
      case DownSlots(b) => t == MarkDown(s.slots, b)
      case _ => t == s.slots
  {
    hide Idles, Occupy, MarkSubmitting, MarkRecycling, SyncUp, SyncDown, Register, ResetBatch, MarkDown, Waiting,
         Without, WithoutBatch, WithDeadline, Desired, BusyNumbers, HasSlot, IsQueued, Upsert, PutFile;
    match step
    case StartTx(a, user, deadline, now) =>
    case DrainTx(b, now) =>
    case _ =>
  }

  lemma StepTenancy(s: State, step: Step, b: BatchId)
    requires Tenanted(s.slots, b) && !EndsEpoch(step, b)
    ensures Tenanted(Apply(s, step).slots, b) && TenantsStay(s.slots, Apply(s, step).slots, b)
  {
    hide Apply, Tenanted, TenantsStay, Idles, Occupy, MarkSubmitting, MarkRecycling, SyncUp, SyncDown, Register,
         ResetBatch, MarkDown;
    var t := Apply(s, step).slots;
    SlotsAfter(s, step);
    StaysSelf(s.slots, b);
    match step
    case StartTx(a, _, _, _) =>
      if t != s.slots {
        var c :| Idles(s.slots, c) != {} && t == Occupy(s.slots, c, Least(Idles(s.slots, c)), a);
        OccupyTenancy(s.slots, c, a, b);
      }
    case DrainTx(c, _) =>
      if t != s.slots {
        var a :| Idles(s.slots, c) != {} && t == Occupy(s.slots, c, Least(Idles(s.slots, c)), a);
        OccupyTenancy(s.slots, c, a, b);
      }
    case SubmitTx(a, _, _) => MarkTenancy(s.slots, a, b);
    case ForceSubmitTx(a, _) => MarkTenancy(s.slots, a, b);
    case AutoCollectTx(a, _) => MarkTenancy(s.slots, a, b);
    case PackageTx(a, _, _, _) => MarkTenancy(s.slots, a, b);
    case SyncUpdate(c, pods) => SyncTenancy(s.slots, c, pods, b);
    case SyncRevoke(c, pods) => SyncTenancy(s.slots, c, pods, b);
    case RegisterTx(c, no, state) => if t != s.slots { RegisterTenancy(s.slots, SlotKey(c, no), state, b); }
    case ResetSlots(c) => EndTenancy(s.slots, c, b);
    case DownSlots(c) => EndTenancy(s.slots, c, b);
    case _ =>
  }

  lemma StaysSelf(slots: map<SlotKey, Slot>, b: BatchId)
    ensures TenantsStay(slots, slots, b)
  {
  }

  lemma StaysTrans(x: map<SlotKey, Slot>, y: map<SlotKey, Slot>, z: map<SlotKey, Slot>, b: BatchId)
    requires TenantsStay(x, y, b) && TenantsStay(y, z, b)
    ensures TenantsStay(x, z, b)
  {
    forall k | k in x && k.batch == b && x[k].state in {Assigned, Submitting, Recycling}
      ensures z[k].attempt == x[k].attempt && Rank(x[k].state) <= Rank(z[k].state)
    {
      assert Rank(y[k].state) > 0 && y[k].state in {Assigned, Submitting, Recycling};
    }
  }

  /**
   * Single tenancy per epoch: whatever steps run, of this batch or of others, a slot that once has an attempt
   * keeps it and only moves forward, and a slot without one is not busy.
   */
  lemma {:induction false} EpochTenancy(s: State, steps: seq<Step>, b: BatchId)
    requires Tenanted(s.slots, b) && forall step :: step in steps ==> !EndsEpoch(step, b)
    ensures Tenanted(Run(s, steps).slots, b) && TenantsStay(s.slots, Run(s, steps).slots, b)
    decreases |steps|
  {
    hide Apply, Tenanted, TenantsStay;
    if steps != [] {
      var before, last := steps[..|steps| - 1], steps[|steps| - 1];
      EpochTenancy(s, before, b);
      assert last in steps;
      StepTenancy(Run(s, before), last, b);
      StaysTrans(s.slots, Run(s, before).slots, Run(s, steps).slots, b);
    } else {
      StaysSelf(s.slots, b);
    }
  }

  // ---- the frame of an epoch ----

  /** Every idle or busy slot has a pod, the pods are within the pool, and the whole pool is registered. */
  ghost predicate Framed(s: State, b: BatchId) {
    && b in s.batches && s.replicas <= PoolSize(s.batches[b])
    && (forall k :: k in s.slots && k.batch == b && s.slots[k].state in {Idle, Assigned, Submitting, Recycling} ==>
          k.no < s.replicas)
    && (forall n: nat :: n < PoolSize(s.batches[b]) ==> SlotKey(b, n) in s.slots)
  }

  /**
   * What may happen within an epoch of b, in state s. Only pods that exist report Ready or register, and
   * the one StatefulSet is scaled for b alone, by its reconcile pass.
   */
  predicate WithinEpoch(s: State, step: Step, b: BatchId) {
    && !EndsEpoch(step, b) && !step.ScaleTo?
    && (step.ScaleUp? ==> step.b == b)
    && (step.SyncUpdate? && step.b == b ==> forall n :: n in step.pods ==> n < s.replicas)
    && (step.RegisterTx? && step.b == b ==> step.no < s.replicas)
  }

  lemma ReplicasAfter(s: State, step: Step, b: BatchId)
    requires Framed(s, b) && WithinEpoch(s, step, b)
    ensures var t := Apply(s, step);
      && b in t.batches && PoolSize(t.batches[b]) == PoolSize(s.batches[b])
      && s.replicas <= t.replicas <= PoolSize(s.batches[b])
  {
    hide Idles, Occupy, MarkSubmitting, MarkRecycling, SyncUp, SyncDown, Register, ResetBatch, MarkDown, Waiting,
         Without, WithoutBatch, WithDeadline, BusyNumbers, HasSlot, IsQueued, Upsert, PutFile, AssignIdle;
  }

  lemma StepFramed(s: State, step: Step, b: BatchId)
    requires Framed(s, b) && WithinEpoch(s, step, b)
    ensures Framed(Apply(s, step), b) && s.replicas <= Apply(s, step).replicas
  {
    hide Apply;
    var t := Apply(s, step);
    ReplicasAfter(s, step, b);
    SlotsAfter(s, step);
    match step
    case StartTx(a, _, _, _) =>
      if t.slots != s.slots {
        var c :| Idles(s.slots, c) != {} && t.slots == Occupy(s.slots, c, Least(Idles(s.slots, c)), a);
        assert SlotKey(c, Least(Idles(s.slots, c))) in s.slots;
      }
    case DrainTx(c, _) =>
      if t.slots != s.slots {
        assert SlotKey(c, Least(Idles(s.slots, c))) in s.slots;
      }
    case _ =>
  }
}
