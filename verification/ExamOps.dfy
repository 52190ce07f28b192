/** The pool of a batch: provisioning it, reconciling it with its pods and its queue, and closing it. */
module ExamOps {
  import opened Wrappers
  import opened ExamState
  import opened ExamSteps
  import opened AllocationInvariant
  import opened FifoOrder
  import opened SlotEpoch
  import opened PoolProgress
  import opened DrainLoop
  import opened QueuePosition
  import opened ExamTables
  import opened ExamService

  // ---- reconcile ----

  function Min(x: int, y: int): int {
    if x < y then x else y
  }

  /** On the rows: the first row i of the batch leaves the queue, its attempt gets the first ready slot, and two hours
      from now if it is ready or running. */
  ghost predicate ServedAs(s: State, t: State, b: BatchId, i: nat, no: nat, now: Time) {
    && i < |s.queue| && s.queue[i].batch == b && (forall j :: 0 <= j < i ==> s.queue[j].batch != b)
    && LowestIdle(s.slots, b, no)
    && var a := s.queue[i].attempt;
      && a in s.attempts && t == s.(queue := s.queue[..i] + s.queue[i + 1..],
        slots := s.slots[SlotKey(b, no) := Slot(Assigned, Some(a))],
        attempts := if s.attempts[a].status in {Ready, Running}
          then s.attempts[a := s.attempts[a].(deadlineAt := Some(now + 7200000))] else s.attempts)
  }

  lemma {:induction false} WithoutRow(queue: seq<QueueRow>, i: nat)
    requires i < |queue| && QueuedOnce(queue)
    ensures Without(queue, queue[i].attempt) == queue[..i] + queue[i + 1..]
  {
    var a, rest := queue[i].attempt, queue[1..];
    if i == 0 {
      NotThere(rest, a);
      assert queue[..0] + rest == rest;
    } else {
      assert rest[i - 1] == queue[i] && queue[0].attempt != a;
      WithoutRow(rest, i - 1);
      assert queue[..i] + queue[i + 1..] == [queue[0]] + (rest[..i - 1] + rest[i..]);
    }
  }

  lemma {:induction false} NotThere(queue: seq<QueueRow>, a: AttemptId)
    requires forall i :: 0 <= i < |queue| ==> queue[i].attempt != a
    ensures Without(queue, a) == queue
  {
    if queue != [] {
      NotThere(queue[1..], a);
    }
  }

  lemma ServedRows(s: State, b: BatchId, now: Time)
    requires Inv(s) && CanDrain(s, b)
    ensures exists i: nat, no: nat :: ServedAs(s, Drain(s, b, now), b, i, no, now)
  {
    hide SlotsOk, OneSlotEach, QueueOk, WaitsWithoutSlot, AttemptsOk, SubmissionsOk, QueuedOnce, Waiting, Idles, Without,
         Least, CanDrain;
    DrainNeverViolates(s, b);
    DrainIs(s, b, now);
    var i := FirstWaiting(s.queue, b);
    var no := Least(Idles(s.slots, b));
    HeadFacts(s, b);
    WithoutRow(s.queue, i);
    IdlesAre(s.slots, b);
    assert ServedAs(s, Drain(s, b, now), b, i, no, now);
  }

  /** One transaction of the drain loop. The invariant rules out a roll-back. */
  method DrainOne(db: Tables, b: BatchId) returns (given: bool)
    requires Inv(db.Snapshot())
    modifies db
    ensures old(db.clock) <= db.clock
    ensures given <==> CanDrain(old(db.Snapshot()), b)
    ensures given ==> exists i: nat, no: nat :: ServedAs(old(db.Snapshot()), db.Snapshot(), b, i, no, db.clock)
    ensures !given ==> db.Snapshot() == old(db.Snapshot())
    ensures !given ==> ((forall row :: row in db.queue ==> row.batch != b) ||
                        (forall k :: k in db.slots && k.batch == b ==> db.slots[k].state != Idle))
    ensures db.Snapshot() == Drain(old(db.Snapshot()), b, db.clock)
  {
    hide Inv, Idles, Waiting, Without, WithDeadline, ServedAs;
    ghost var s := db.Snapshot();
    DrainNeverViolates(db.Snapshot(), b);
    var head := db.LockHead(b);
    if head.None? { return false; }
    var slot := db.AssignReadySlot(b, head.value);
    if !slot.Given? { return false; }
    db.queue := Without(db.queue, head.value);
    var now := db.Now();
    db.attempts := WithDeadline(db.attempts, head.value, now + DURATION);
    given := true;
    assert db.Snapshot() == Drain(s, b, now);
    ServedRows(s, b, now);
  }

  /** What is in use, and who waits, counted by rows. */
  function UsedRows(slots: map<SlotKey, Slot>, b: BatchId): set<SlotKey> {
    set k | k in slots && k.batch == b && slots[k].state in {Assigned, Submitting, Recycling}
  }

  function WaitingRowsOf(queue: seq<QueueRow>, b: BatchId): set<nat> {
    set i: nat | i < |queue| && queue[i].batch == b
  }

  lemma {:induction false} NumbersOf(keys: set<SlotKey>, b: BatchId)
    requires forall k :: k in keys ==> k.batch == b
    ensures |set k | k in keys :: k.no| == |keys|
    decreases |keys|
  {
    var numbers := set k | k in keys :: k.no;
    if keys == {} {
      assert numbers == {};
    } else {
      var x :| x in keys;
      var rest := keys - {x};
      NumbersOf(rest, b);
      assert x.no !in (set k | k in rest :: k.no) by {
        assert forall k :: k in rest ==> k != x && k == SlotKey(b, k.no) && x == SlotKey(b, x.no);
      }
      assert numbers == (set k | k in rest :: k.no) + {x.no};
    }
  }

  lemma DemandByRows(slots: map<SlotKey, Slot>, queue: seq<QueueRow>, b: BatchId)
    ensures |BusyNumbers(slots, b)| == |UsedRows(slots, b)|
    ensures CountWaiting(queue, b) == |WaitingRowsOf(queue, b)|
  {
    hide Waiting;
    NumbersOf(UsedRows(slots, b), b);
    assert BusyNumbers(slots, b) == set k | k in UsedRows(slots, b) :: k.no;
    EarlierCount(queue, b, |queue|);
    assert queue[..|queue|] == queue;
    assert Earlier(queue, b, |queue|) == WaitingRowsOf(queue, b);
  }

  /** The pass on an open batch: sync with the Ready pods, drain at these times, scale. */
  ghost function Pass(s: State, b: BatchId, pods: set<nat>, nows: seq<Time>): State {
    Scale(Drained(Synced(s, b, pods), b, nows), b)
  }

  /** As many as can be served: the shorter of the queue and the idle slots, once the pods are synced. */
  ghost function Served(s: State, b: BatchId, pods: set<nat>): nat {
    Min(CountWaiting(Synced(s, b, pods).queue, b), |Idles(Synced(s, b, pods).slots, b)|)
  }

  /**
   * A reconcile pass serves the shorter of the queue and the idle slots, in one drain transaction each, and then
   * scales. A batch that is not open is left alone.
   */
  method ReconcilePool(db: Tables, b: BatchId, pods: set<nat>) returns (ghost nows: seq<Time>)
    requires Inv(db.Snapshot())
    modifies db
    ensures Inv(db.Snapshot())
    ensures b !in old(db.batches) || old(db.batches)[b].status != Open ==> db.Snapshot() == old(db.Snapshot())
    ensures b in old(db.batches) && old(db.batches)[b].status == Open ==>
      |nows| == Served(old(db.Snapshot()), b, pods) && db.Snapshot() == Pass(old(db.Snapshot()), b, pods, nows)
    ensures forall i :: 0 <= i < |nows| ==> old(db.clock) <= nows[i] <= db.clock
    ensures b in old(db.batches) && old(db.batches)[b].status == Open ==>
      var batch := old(db.batches)[b];
      var most := if batch.capacity < 50 then batch.capacity else 50;
      var warm := if batch.warmCount.Some? then batch.warmCount.value else most;
      var demand := |UsedRows(db.slots, b)| + |WaitingRowsOf(db.queue, b)|;
      var wanted := if warm < demand then demand else warm;
      var pods := if wanted < most then wanted else most;
      db.replicas == if pods > old(db.replicas) then pods else old(db.replicas)
  {
    hide Inv, Idles, Waiting, Drain, CanDrain, DrainedTo, BusyNumbers, Apply, Synced;
    nows := [];
    if b !in db.batches || db.batches[b].status != Open { return; }
    ghost var s := db.Snapshot();
    db.SyncReadySlots(b, pods);
    ghost var synced := db.Snapshot();
    SyncedIs(s, b, pods);
    SyncKeeps(s, b, pods);
    var given := true;
    while given
      invariant old(db.clock) <= db.clock && forall i :: 0 <= i < |nows| ==> old(db.clock) <= nows[i] <= db.clock
      invariant |nows| <= CountWaiting(synced.queue, b) && |nows| <= |Idles(synced.slots, b)|
      invariant db.Snapshot() == Drained(synced, b, nows)
      invariant given || !CanDrain(db.Snapshot(), b)
      decreases CountWaiting(synced.queue, b) - |nows|, given
    {
      ghost var before, t := nows, db.Snapshot();
      DrainedKeeps(synced, b, nows);
      DrainIsZip(synced, b, nows);
      given := DrainOne(db, b);
      if given {
        nows := nows + [db.clock];
        assert nows[..|nows| - 1] == before;
      } else {
        NoDrain(t, b, db.clock);
      }
    }
    DrainIsZip(synced, b, nows);
    DrainedKeeps(synced, b, nows);
    ghost var drained := db.Snapshot();
    DrainedRest(synced, b, nows);
    var used, waiting := |BusyNumbers(db.slots, b)|, CountWaiting(db.queue, b);
    var desired := Desired(db.batches[b], used, waiting);
    if desired > db.replicas {
      db.replicas := desired;
    }
    assert db.Snapshot() == Scale(drained, b);
    DemandByRows(db.slots, db.queue, b);
    ScaleKeeps(drained, b);
  }

  lemma SyncedIs(s: State, b: BatchId, pods: set<nat>)
    ensures Synced(s, b, pods) == s.(slots := SyncDown(SyncUp(s.slots, b, pods), b, pods))
  {
  }

  lemma SyncKeeps(s: State, b: BatchId, pods: set<nat>)
    requires Inv(s)
    ensures Inv(Synced(s, b, pods))
  {
    hide Inv, Apply;
    StepKeeps(s, SyncUpdate(b, pods));
    StepKeeps(Apply(s, SyncUpdate(b, pods)), SyncRevoke(b, pods));
  }

  lemma NoDrain(s: State, b: BatchId, now: Time)
    requires !CanDrain(s, b)
    ensures Drain(s, b, now) == s
  {
    hide CanDrain;
  }

  lemma ScaleKeeps(s: State, b: BatchId)
    requires Inv(s)
    ensures Inv(Scale(s, b))
  {
    hide Inv, Scale;
    StepKeeps(s, ScaleUp(b));
    ApplyScale(s, b);
  }

  /** Draining changes neither the batches nor the replicas. */
  lemma {:induction false} DrainedRest(s: State, b: BatchId, nows: seq<Time>)
    ensures var t := Drained(s, b, nows); t.batches == s.batches && t.replicas == s.replicas
    decreases |nows|
  {
    hide CanDrain, Idles, Waiting, Without, WithDeadline, Occupy;
    if nows != [] {
      DrainedRest(s, b, nows[..|nows| - 1]);
    }
  }

  // ---- what passes achieve ----

  ghost function DrainSteps(b: BatchId, nows: seq<Time>): (r: seq<Step>)
    ensures |r| == |nows| && forall step :: step in r ==> step.DrainTx? && step.b == b
  {
    if nows == [] then [] else DrainSteps(b, nows[..|nows| - 1]) + [DrainTx(b, nows[|nows| - 1])]
  }

  /** The loop is a run of drain steps, and belongs to the epoch. */
  lemma {:induction false} DrainedIsRun(s: State, b: BatchId, nows: seq<Time>)
    ensures Run(s, DrainSteps(b, nows)) == Drained(s, b, nows) && EpochRun(s, DrainSteps(b, nows), b)
    decreases |nows|
  {
    hide Drain, Apply;
    if nows != [] {
      var before, now := nows[..|nows| - 1], nows[|nows| - 1];
      var steps := DrainSteps(b, before);
      DrainedIsRun(s, b, before);
      assert (steps + [DrainTx(b, now)])[..|steps|] == steps;
      ApplyDrain(Drained(s, b, before), b, now);
    }
  }

  lemma {:induction false} DrainIsQuiet(s: State, b: BatchId, nows: seq<Time>)
    ensures QuietRun(s, DrainSteps(b, nows), b)
    decreases |nows|
  {
    hide Run;
    if nows != [] {
      var before := nows[..|nows| - 1];
      DrainIsQuiet(s, b, before);
      assert DrainSteps(b, nows)[..|nows| - 1] == DrainSteps(b, before);
    }
  }

  ghost function PassSteps(b: BatchId, pods: set<nat>, nows: seq<Time>): seq<Step> {
    [SyncUpdate(b, pods)] + [SyncRevoke(b, pods)] + DrainSteps(b, nows) + [ScaleUp(b)]
  }

  /** A whole pass is a run of the protocol's steps. */
  lemma PassIsRun(s: State, b: BatchId, pods: set<nat>, nows: seq<Time>)
    ensures Run(s, PassSteps(b, pods, nows)) == Pass(s, b, pods, nows)
  {
    hide Run, Apply, Drained, DrainSteps, Scale;
    var up, revoke, drain := [SyncUpdate(b, pods)], [SyncRevoke(b, pods)], DrainSteps(b, nows);
    RunNone(s);
    RunMore(s, [], SyncUpdate(b, pods));
    assert [] + up == up;
    RunMore(s, up, SyncRevoke(b, pods));
    RunConcat(s, up + revoke, drain);
    DrainedIsRun(Synced(s, b, pods), b, nows);
    RunMore(s, up + revoke + drain, ScaleUp(b));
    assert Apply(Drained(Synced(s, b, pods), b, nows), ScaleUp(b)) == Pass(s, b, pods, nows) by {
      ApplyScale(Drained(Synced(s, b, pods), b, nows), b);
    }
  }

  lemma ApplyScale(s: State, b: BatchId)
    ensures Apply(s, ScaleUp(b)) == Scale(s, b)
  {
    hide Scale;
  }

  /** After a pass nobody waits or no slot is idle, and the replicas cover the demand up to the pool size. */
  lemma PassServes(s: State, b: BatchId, pods: set<nat>, nows: seq<Time>)
    requires Inv(s) && b in s.batches && |nows| == Served(s, b, pods)
    ensures var t := Pass(s, b, pods, nows);
      Covered(t, b) && (Waiting(t.queue, b) == [] || Idles(t.slots, b) == {})
  {
    hide Inv, Idles, Waiting, Drain, CanDrain, DrainedTo, Synced, Scale, Covered;
    var synced := Synced(s, b, pods);
    var t := Drained(synced, b, nows);
    SyncedIs(s, b, pods);
    SyncKeeps(s, b, pods);
    DrainIsZip(synced, b, nows);
    DrainedKeeps(synced, b, nows);
    DrainNeverViolates(t, b);
    DrainedRest(synced, b, nows);
    ScaleCovers(t, b);
    ScaleIs(t, b);
  }

  lemma ScaleIs(s: State, b: BatchId)
    ensures var t := Scale(s, b); t == s.(replicas := t.replicas)
  {
    hide Desired, BusyNumbers, Waiting;
  }

  lemma PassFramed(s: State, b: BatchId, pods: set<nat>, nows: seq<Time>)
    requires Inv(s) && Framed(s, b) && forall n :: n in pods ==> n < s.replicas
    ensures var t := Drained(Synced(s, b, pods), b, nows); Inv(t) && Framed(t, b)
  {
    hide Inv, Framed, Drain, Apply;
    var up, synced := Apply(s, SyncUpdate(b, pods)), Synced(s, b, pods);
    SyncKeeps(s, b, pods);
    StepFramed(s, SyncUpdate(b, pods), b);
    StepFramed(up, SyncRevoke(b, pods), b);
    DrainedIsRun(synced, b, nows);
    EpochFramed(synced, DrainSteps(b, nows), b);
    DrainedKeeps(synced, b, nows);
  }

  /**
   * Two passes are enough: after the first, whatever of the epoch runs while nobody arrives, once all pods that it
   * ordered are Ready the second pass leaves nobody waiting or all min(capacity, 50) slots busy.
   */
  lemma TwoPassesServe(s: State, b: BatchId, pods: set<nat>, nows: seq<Time>, between: seq<Step>,
                       pods': set<nat>, nows': seq<Time>)
    requires Inv(s) && Framed(s, b) && forall n :: n in pods ==> n < s.replicas
    requires EpochRun(Pass(s, b, pods, nows), between, b) && QuietRun(Pass(s, b, pods, nows), between, b)
    requires var ready := Run(Pass(s, b, pods, nows), between);
      (forall n :: n in pods' <==> 0 <= n < ready.replicas) && |nows'| == Served(ready, b, pods')
    ensures var end := Pass(Run(Pass(s, b, pods, nows), between), b, pods', nows');
      b in end.batches && (Waiting(end.queue, b) == [] || AllBusy(end, b))
  {
    hide Inv, Framed, Run, EpochRun, QuietRun, Synced, Drained, Scale, Idles, Waiting, CanDrain, DrainedTo, Drain, DrainSteps,
         WithinEpoch, AllUp, Covered, BusyNumbers;
    var t := Drained(Synced(s, b, pods), b, nows);
    PassFramed(s, b, pods, nows);
    Scaled(t, b);
    var ready := Run(Scale(t, b), between);
    RunKeeps(Scale(t, b), between);
    var next := Synced(ready, b, pods');
    SyncKeeps(ready, b, pods');
    DrainIsZip(next, b, nows');
    DrainedIsRun(next, b, nows');
    DrainIsQuiet(next, b, nows');
    PoolMakesProgress(t, between, pods', DrainSteps(b, nows'), b);
    ScaleIs(Drained(next, b, nows'), b);
  }

  // ---- provision and close ----

  datatype OpsError = BatchNotFound | NoSlots | InProgress

  /** Work in progress, in any batch: there is one StatefulSet for all. */
  predicate HasBusySlots(slots: map<SlotKey, Slot>) {
    exists k :: k in slots && (slots[k].state == Assigned || slots[k].state == Submitting)
  }

  function WarmPods(batch: Batch, warmOverride: Option<int>): int {
    var asked: int := if warmOverride.Some? then warmOverride.value
      else if batch.warmCount.Some? then batch.warmCount.value else PoolSize(batch);
    Min(PoolSize(batch), if asked < 0 then 0 else asked)
  }

  ghost function RegisterSteps(b: BatchId, n: nat): seq<Step> {
    if n == 0 then [] else RegisterSteps(b, n - 1) + [RegisterTx(b, n - 1, Down)]
  }

  ghost function OpeningSteps(b: BatchId, n: nat): seq<Step> {
    [ResetSlots(b), ClearQueue(b)] + RegisterSteps(b, n)
  }

  /** The slots of the batch that are registered so far are down and free; other batches are as they were. */
  ghost predicate Registered(old_: map<SlotKey, Slot>, new_: map<SlotKey, Slot>, b: BatchId, n: nat) {
    && (forall k :: k in new_ && k.batch == b ==> new_[k] == Slot(Down, None))
    && (forall i: nat :: i < n ==> SlotKey(b, i) in new_)
    && (forall k: SlotKey :: k.batch != b ==> (k in new_ <==> k in old_) && (k in old_ ==> new_[k] == old_[k]))
  }

  /**
   * The last part of provisioning, in whatever state the tables are by then: an epoch begins with the whole pool
   * registered, free and down, and nobody waiting. Work that began since the check loses its slots.
   */
  method OpenEpoch(db: Tables, b: BatchId, slots: nat)
    requires b in db.batches && slots == (if db.batches[b].capacity < 50 then db.batches[b].capacity else 50)
    modifies db
    ensures db.Snapshot() == old(db.Snapshot()).(slots := db.slots, queue := WithoutBatch(old(db.queue), b))
    ensures Registered(old(db.slots), db.slots, b, slots)
    ensures Tenanted(db.slots, b) && Waiting(db.queue, b) == [] && (db.replicas <= slots ==> Framed(db.Snapshot(), b))
    ensures db.Snapshot() == Run(old(db.Snapshot()), OpeningSteps(b, slots))
  {
    hide Run, Waiting, WithoutBatch, Register, ResetBatch, RegisterSteps;
    ghost var s := db.Snapshot();
    db.slots := ResetBatch(db.slots, b);
    db.queue := WithoutBatch(db.queue, b);
    WaitingWithoutBatch(s.queue, b, b);
    ResetRegisters(s.slots, b);
    FirstSteps(s, b);
    for i := 0 to slots
      invariant db.Snapshot() == s.(slots := db.slots, queue := WithoutBatch(s.queue, b))
      invariant Registered(s.slots, db.slots, b, i)
      invariant db.Snapshot() == Run(s, OpeningSteps(b, i))
    {
      RegisterMore(s.slots, db.slots, b, i);
      NextSteps(s, b, i);
      db.RegisterSlot(b, i, Down);
    }
  }

  /** Provisioning, with nothing between the check and the rest. It is refused while any batch has work in progress. */
  method ProvisionBatch(db: Tables, b: BatchId, warmOverride: Option<int>) returns (r: Result<nat, OpsError>)
    modifies db
    ensures r.Failure? && r.error.BatchNotFound? <==> b !in old(db.batches)
    ensures r.Failure? && r.error.NoSlots? <==> b in old(db.batches) && old(db.batches)[b].capacity < 1
    ensures r.Failure? && r.error.InProgress? <==> (
      && b in old(db.batches) && old(db.batches)[b].capacity >= 1
      && exists k :: k in old(db.slots) && old(db.slots)[k].state in {Assigned, Submitting})
    ensures r.Success? ==> r.value == (if old(db.batches)[b].capacity < 50 then old(db.batches)[b].capacity else 50)
    ensures r.Failure? ==> db.Snapshot() == old(db.Snapshot())
    ensures r.Success? ==> Framed(db.Snapshot(), b) && Tenanted(db.slots, b) && Waiting(db.queue, b) == []
    ensures r.Success? ==> Registered(old(db.slots), db.slots, b, r.value)
    ensures r.Success? ==>
      var asked := if warmOverride.Some? then warmOverride.value
                   else if old(db.batches)[b].warmCount.Some? then old(db.batches)[b].warmCount.value else r.value;
      db.replicas == if asked < 0 then 0 else if asked < r.value then asked else r.value
    ensures r.Success? ==>
      db.Snapshot() == Run(old(db.Snapshot()), [ScaleTo(b, 0), ScaleTo(b, db.replicas)] + OpeningSteps(b, r.value))
  {
    hide Run, Waiting, WithoutBatch, OpeningSteps, Registered, Tenanted, Framed;
    if b !in db.batches { return Failure(BatchNotFound); }
    var batch := db.batches[b];
    var slots := PoolSize(batch);
    if slots < 1 { return Failure(NoSlots); }
    if HasBusySlots(db.slots) { return Failure(InProgress); }
    var warm := WarmPods(batch, warmOverride);
    ghost var s := db.Snapshot();
    db.replicas := 0;
    db.replicas := warm;
    ScaledTo(s, b, warm);
    OpenEpoch(db, b, slots);
    RunConcat(s, [ScaleTo(b, 0), ScaleTo(b, warm)], OpeningSteps(b, slots));
    r := Success(slots);
  }

  lemma ScaledTo(s: State, b: BatchId, warm: nat)
    ensures Run(s, [ScaleTo(b, 0), ScaleTo(b, warm)]) == s.(replicas := warm)
  {
    hide Run, Apply;
    RunNone(s);
    RunMore(s, [], ScaleTo(b, 0));
    RunMore(s, [] + [ScaleTo(b, 0)], ScaleTo(b, warm));
    ApplyEnds(s, b, 0);
    ApplyEnds(s.(replicas := 0), b, warm);
    assert [ScaleTo(b, 0), ScaleTo(b, warm)] == [] + [ScaleTo(b, 0)] + [ScaleTo(b, warm)];
  }

  lemma ResetRegisters(slots: map<SlotKey, Slot>, b: BatchId)
    ensures Registered(slots, ResetBatch(slots, b), b, 0)
  {
  }

  lemma RegisterMore(old_: map<SlotKey, Slot>, new_: map<SlotKey, Slot>, b: BatchId, n: nat)
    requires Registered(old_, new_, b, n)
    ensures Registered(old_, Register(new_, SlotKey(b, n), Down), b, n + 1)
  {
  }

  /** The steps that only provisioning and closing take. */
  lemma ApplyEnds(s: State, b: BatchId, n: nat)
    ensures Apply(s, ScaleTo(b, n)) == s.(replicas := n)
    ensures Apply(s, ResetSlots(b)) == s.(slots := ResetBatch(s.slots, b))
    ensures Apply(s, DownSlots(b)) == s.(slots := MarkDown(s.slots, b))
    ensures Apply(s, ClearQueue(b)) == s.(queue := WithoutBatch(s.queue, b))
  {
    hide ResetBatch, MarkDown, WithoutBatch;
  }

  lemma FirstSteps(s: State, b: BatchId)
    ensures Run(s, OpeningSteps(b, 0)) == s.(slots := ResetBatch(s.slots, b), queue := WithoutBatch(s.queue, b))
  {
    hide ResetBatch, WithoutBatch, Run, Apply;
    RunNone(s);
    RunMore(s, [], ResetSlots(b));
    RunMore(s, [] + [ResetSlots(b)], ClearQueue(b));
    ApplyEnds(s, b, 0);
    ApplyEnds(s.(slots := ResetBatch(s.slots, b)), b, 0);
    assert OpeningSteps(b, 0) == [] + [ResetSlots(b)] + [ClearQueue(b)];
  }

  lemma NextSteps(s: State, b: BatchId, n: nat)
    requires b in Run(s, OpeningSteps(b, n)).batches
    ensures var t := Run(s, OpeningSteps(b, n));
      Run(s, OpeningSteps(b, n + 1)) == t.(slots := Register(t.slots, SlotKey(b, n), Down))
  {
    hide Run, Register;
    RunMore(s, OpeningSteps(b, n), RegisterTx(b, n, Down));
    assert OpeningSteps(b, n) + [RegisterTx(b, n, Down)] == OpeningSteps(b, n + 1);
  }

  function ClosedSlot(k: SlotKey, slot: Slot, b: BatchId, due: set<AttemptId>): Slot {
    if k.batch == b then slot.(state := Down) else Released(slot, due)
  }

  /**
   * Closing collects what is overdue, then takes every slot of the batch down, keeping its attempt for the record,
   * and empties the queue. The pods go too, if the teardown succeeds. The slots go down and the queue is emptied
   * even if the teardown or the sweep fails; a sweep that fails half-way (`failAfter`) has collected only `done`.
   */
  method CloseBatch(db: Tables, b: BatchId, teardown: bool, failAfter: Option<nat>)
    returns (r: Result<Option<nat>, OpsError>, ghost began: Time, ghost done: set<AttemptId>, ghost trace: seq<Step>)
    modifies db
    ensures r.Failure? <==> b !in old(db.batches)
    ensures r.Failure? ==> db.Snapshot() == old(db.Snapshot())
    ensures r.Success? ==> old(db.clock) <= began <= db.clock && done <= OverdueSet(old(db.attempts), Some(b), began)
    ensures r.Success? && r.value.Some? ==>
      done == OverdueSet(old(db.attempts), Some(b), began) && r.value.value == |done|
    ensures r.Success? ==> forall a :: a in done ==> (
      && a in old(db.attempts) && old(db.attempts)[a].batch == b && old(db.attempts)[a].status == Running
      && old(db.attempts)[a].deadlineAt.Some? && old(db.attempts)[a].deadlineAt.value < began)
    ensures r.Success? && r.value.Some? ==> forall a :: a in db.attempts ==> NotLate(db.attempts[a], Some(b), began)
    ensures r.Success? && r.value.None? ==> failAfter == Some(|done|)
    ensures r.Success? ==> forall a :: a in old(db.attempts) ==>
      if a in done then a in db.attempts && HandedInBetween(old(db.attempts)[a], db.attempts[a], began, db.clock)
      else a in db.attempts && db.attempts[a] == old(db.attempts)[a]
    ensures r.Success? ==> db.slots.Keys == old(db.slots).Keys
    ensures r.Success? ==> forall k :: k in db.slots ==> db.slots[k] == ClosedSlot(k, old(db.slots)[k], b, done)
    ensures r.Success? ==> db.queue == WithoutBatch(old(db.queue), b) && Waiting(db.queue, b) == []
    ensures r.Success? ==> db.replicas == if teardown then 0 else old(db.replicas)
    ensures db.Snapshot() == Run(old(db.Snapshot()), trace)
  {
    hide Run, Waiting, WithoutBatch, Overdue, HandedInBetween, OverdueSet, NotLate;
    if b !in db.batches {
      RunNone(db.Snapshot());
      return Failure(BatchNotFound), db.clock, {}, [];
    }
    ghost var s := db.Snapshot();
    var swept, start, collected, steps := SweepDeadlines(db, Some(b), failAfter);
    ClosedIs(s, steps, b, teardown);
    if teardown {
      db.replicas := 0;
    }
    db.slots := MarkDown(db.slots, b);
    WaitingWithoutBatch(db.queue, b, b);
    db.queue := WithoutBatch(db.queue, b);
    r, began, done, trace := Success(swept), start, collected, steps + CloseSteps(b, teardown);
  }

  ghost function CloseSteps(b: BatchId, teardown: bool): seq<Step> {
    (if teardown then [ScaleTo(b, 0)] else []) + [DownSlots(b), ClearQueue(b)]
  }

  lemma ClosedIs(s: State, steps: seq<Step>, b: BatchId, teardown: bool)
    ensures var t := Run(s, steps);
      Run(s, steps + CloseSteps(b, teardown)) ==
      t.(replicas := if teardown then 0 else t.replicas, slots := MarkDown(t.slots, b), queue := WithoutBatch(t.queue, b))
  {
    hide Run, MarkDown, WithoutBatch, Apply;
    var t := Run(s, steps);
    var u := if teardown then t.(replicas := 0) else t;
    ApplyEnds(t, b, 0);
    ApplyEnds(u, b, 0);
    ApplyEnds(u.(slots := MarkDown(u.slots, b)), b, 0);
    var x := if teardown then steps + [ScaleTo(b, 0)] else steps;
    RunMore(s, steps, ScaleTo(b, 0));
    RunMore(s, x, DownSlots(b));
    RunMore(s, x + [DownSlots(b)], ClearQueue(b));
    assert steps + CloseSteps(b, teardown) == x + [DownSlots(b)] + [ClearQueue(b)];
  }
}
