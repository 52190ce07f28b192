/** The repositories: each method is one statement on the tables. */
module ExamTables {
  import opened Wrappers
  import opened ExamState
  import opened ExamSteps
  import opened AllocationInvariant
  import opened DrainLoop
  import opened QueuePosition

  /** The row stands at i, and no earlier row is of its batch. */
  predicate IsFirstOf(queue: seq<QueueRow>, i: int, row: QueueRow) {
    0 <= i < |queue| && queue[i] == row && forall j :: 0 <= j < i ==> queue[j].batch != row.batch
  }

  lemma {:induction false} FirstWaiting(queue: seq<QueueRow>, b: BatchId) returns (i: nat)
    requires Waiting(queue, b) != []
    ensures IsFirstOf(queue, i, QueueRow(Waiting(queue, b)[0], b))
  {
    if queue[0].batch == b {
      i := 0;
    } else {
      var j := FirstWaiting(queue[1..], b);
      i := j + 1;
    }
  }

  /** A running attempt whose deadline has passed, in this batch if one is given. */
  predicate Overdue(at: Attempt, batch: Option<BatchId>, now: Time) {
    && at.status == Running && at.deadlineAt.Some? && at.deadlineAt.value < now
    && (batch.Some? ==> at.batch == batch.value)
  }

  /** What a sync does to one row: the pod decides for a slot nobody uses; a warming slot keeps warming. */
  function SyncedRow(k: SlotKey, slot: Slot, b: BatchId, pods: set<nat>): Slot {
    if k.batch != b || slot.state in {Assigned, Submitting, Recycling} then slot
    else if k.no in pods then slot.(state := Idle)
    else if slot.state == Idle then slot.(state := Down)
    else slot
  }

  /** The first ready slot of the batch. */
  ghost predicate LowestIdle(slots: map<SlotKey, Slot>, b: BatchId, no: nat) {
    && SlotKey(b, no) in slots && slots[SlotKey(b, no)].state == Idle
    && forall k :: k in slots && k.batch == b && slots[k].state == Idle ==> no <= k.no
  }

  lemma LeastIs(s: set<nat>, n: nat)
    requires n in s && forall x :: x in s ==> n <= x
    ensures Least(s) == n
  {
    hide Least;
  }

  lemma OccupyIs(slots: map<SlotKey, Slot>, b: BatchId, no: nat, a: AttemptId)
    ensures Occupy(slots, b, no, a) == slots[SlotKey(b, no) := Slot(Assigned, Some(a))]
  {
  }

  lemma IdlesAre(slots: map<SlotKey, Slot>, b: BatchId)
    ensures forall n :: n in Idles(slots, b) ==> SlotKey(b, n) in slots && slots[SlotKey(b, n)].state == Idle
    ensures forall k :: k in slots && k.batch == b && slots[k].state == Idle ==> k.no in Idles(slots, b)
  {
  }

  class Tables {
    var batches: map<BatchId, Batch>
    var attempts: map<AttemptId, Attempt>
    var slots: map<SlotKey, Slot>
    var queue: seq<QueueRow>
    var submissions: map<AttemptId, Submission>
    var replicas: nat
    var clock: Time

    function Snapshot(): State
      reads this
    {
      State(batches, attempts, slots, queue, submissions, replicas)
    }

    constructor ()
      ensures Snapshot() == EMPTY
    {
      batches, attempts, slots, queue, submissions, replicas, clock := map[], map[], map[], [], map[], 0, 0;
    }

    /** Time passes, by any amount, between two readings of the clock. */
    method Now() returns (now: Time)
      modifies `clock
      ensures old(clock) <= now == clock
    {
      var passed :| passed >= 0;
      clock := clock + passed;
      now := clock;
    }

    // ---- attempts ----

    method StartRunning(a: AttemptId, deadline: Time, now: Time) returns (updated: bool)
      modifies `attempts
      ensures updated <==> a in old(attempts) && old(attempts)[a].status in {Ready, Running}
      ensures attempts.Keys == old(attempts).Keys
      ensures forall x :: x in attempts && (x != a || !updated) ==> attempts[x] == old(attempts)[x]
      ensures updated ==> attempts[a] == old(attempts)[a].(status := Running, deadlineAt := Some(deadline),
        startsAt := if old(attempts)[a].startsAt.Some? then old(attempts)[a].startsAt else Some(now))
    {
      updated := a in attempts && IsLive(attempts[a].status);
      if updated {
        var at := attempts[a];
        var startsAt := if at.startsAt.Some? then at.startsAt else Some(now);
        attempts := attempts[a := at.(status := Running, startsAt := startsAt, deadlineAt := Some(deadline))];
      }
    }

    method ForceSubmitRow(a: AttemptId, now: Time) returns (updated: bool)
      modifies `attempts
      ensures updated <==> a in old(attempts) && old(attempts)[a].status in {Ready, Running}
      ensures attempts == if updated
        then old(attempts)[a := old(attempts)[a].(status := Submitted, submittedAt := Some(now))] else old(attempts)
    {
      updated := a in attempts && IsLive(attempts[a].status);
      if updated {
        attempts := attempts[a := attempts[a].(status := Submitted, submittedAt := Some(now))];
      }
    }

    /** The ids of the running attempts past their deadline, of one batch or of all, each once, in no set order. */
    method ListExpiredRunning(batch: Option<BatchId>, now: Time) returns (ids: seq<AttemptId>)
      ensures Distinct(ids)
      ensures forall a :: a in ids <==> a in attempts && Overdue(attempts[a], batch, now)
      ensures forall a :: a in ids <==> (
        && a in attempts && attempts[a].status == Running && attempts[a].deadlineAt.Some?
        && attempts[a].deadlineAt.value < now && (batch.None? || attempts[a].batch == batch.value))
    {
      var left := set a | a in attempts && Overdue(attempts[a], batch, now);
      ids := [];
      while left != {}
        invariant forall a :: a in ids || a in left <==> a in attempts && Overdue(attempts[a], batch, now)
        invariant forall a :: a in ids ==> a !in left
        invariant Distinct(ids)
        decreases |left|
      {
        var a :| a in left;
        left := left - {a};
        ids := ids + [a];
      }
    }

    // ---- slots ----

    /** The lowest idle slot of the batch goes to the attempt; a second slot for it would break UNIQUE(attempt_id). */
    method AssignReadySlot(b: BatchId, a: AttemptId) returns (r: Assignment)
      modifies `slots
      ensures r == AssignIdle(old(slots), b, a)
      ensures slots == if r.Given? then Occupy(old(slots), b, r.no, a) else old(slots)
      ensures slots == if r.Given? then old(slots)[SlotKey(b, r.no) := Slot(Assigned, Some(a))] else old(slots)
      ensures r.Given? ==> LowestIdle(old(slots), b, r.no)
      ensures r.NoneIdle? <==> forall k :: k in old(slots) && k.batch == b ==> old(slots)[k].state != Idle
      ensures r.UniqueViolation? ==> exists k :: k in old(slots) && old(slots)[k].attempt == Some(a)
    {
      hide Idles, Least, Occupy;
      var idles := Idles(slots, b);
      IdlesAre(slots, b);
      if idles == {} {
        return NoneIdle;
      }
      ghost var some :| some in idles;
      LeastExists(idles, some);
      var no :| no in idles && forall x :: x in idles ==> no <= x;
      LeastIs(idles, no);
      assert LowestIdle(slots, b, no);
      OccupyIs(slots, b, no, a);
      if k :| k in slots && k != SlotKey(b, no) && slots[k].attempt == Some(a) {
        return UniqueViolation;
      }
      slots := slots[SlotKey(b, no) := Slot(Assigned, Some(a))];
      r := Given(no);
    }

    /** An upsert: a new row has no attempt; a busy row keeps its state. */
    method RegisterSlot(b: BatchId, no: nat, state: SlotState)
      requires state in {Down, Warming, Idle}
      modifies `slots
      ensures slots == Register(old(slots), SlotKey(b, no), state)
      ensures slots.Keys == old(slots).Keys + {SlotKey(b, no)}
      ensures forall k :: k in old(slots) && k != SlotKey(b, no) ==> slots[k] == old(slots)[k]
      ensures SlotKey(b, no) !in old(slots) ==> slots[SlotKey(b, no)] == Slot(state, None)
      ensures SlotKey(b, no) in old(slots) ==>
        var row := old(slots)[SlotKey(b, no)];
        slots[SlotKey(b, no)] == if row.state in {Assigned, Submitting, Recycling} then row else row.(state := state)
    {
      var k := SlotKey(b, no);
      var row := if k in slots then slots[k] else Slot(state, None);
      slots := slots[k := if IsBusy(row.state) then row else row.(state := state)];
    }

    /** Two updates: Ready pods bring their slots up, idle slots without a Ready pod go down; busy ones stay. */
    method SyncReadySlots(b: BatchId, pods: set<nat>)
      modifies `slots
      ensures slots == SyncDown(SyncUp(old(slots), b, pods), b, pods)
      ensures slots.Keys == old(slots).Keys
      ensures forall k :: k in slots ==> slots[k] == SyncedRow(k, old(slots)[k], b, pods)
    {
      slots := map k | k in slots ::
        if k.batch == b && k.no in pods && slots[k].state in {Down, Warming} then slots[k].(state := Idle) else slots[k];
      slots := SyncDown(slots, b, pods);
    }

    // ---- the entry queue ----

    /** The oldest waiting attempt of the batch: no row of the batch is before its row. */
    method LockHead(b: BatchId) returns (head: Option<AttemptId>)
      ensures head.None? <==> Waiting(queue, b) == []
      ensures head.None? ==> forall row :: row in queue ==> row.batch != b
      ensures head.Some? ==> head.value == Waiting(queue, b)[0]
      ensures head.Some? ==> exists i :: IsFirstOf(queue, i, QueueRow(head.value, b))
    {
      var waiting := Waiting(queue, b);
      if waiting == [] {
        forall row | row in queue
          ensures row.batch != b
        {
          WaitingRows(queue, b, row.attempt);
        }
        return None;
      }
      ghost var i := FirstWaiting(queue, b);
      head := Some(waiting[0]);
    }

    /** Idempotent: an attempt already in the queue keeps its place. */
    method Enqueue(b: BatchId, a: AttemptId)
      modifies `queue
      ensures queue == if IsQueued(old(queue), a) then old(queue) else old(queue) + [QueueRow(a, b)]
      ensures IsQueued(queue, a) && (old(QueuedOnce(queue)) ==> QueuedOnce(queue))
    {
      if !exists i :: 0 <= i < |queue| && queue[i].attempt == a {
        queue := queue + [QueueRow(a, b)];
        assert queue[|queue| - 1] in queue;
      }
    }

    /** One plus the number of rows of the batch that came earlier: the place in the waiting list, from 1. */
    method PositionOf(a: AttemptId) returns (pos: Option<nat>)
      requires QueuedOnce(queue)
      ensures pos.Some? <==> IsQueued(queue, a)
      ensures forall row :: row in queue && row.attempt == a ==>
        pos.Some? && 1 <= pos.value <= CountWaiting(queue, row.batch) && Waiting(queue, row.batch)[pos.value - 1] == a
    {
      if i :| 0 <= i < |queue| && queue[i].attempt == a {
        RowPlace(queue, i);
        pos := Some(|Earlier(queue, queue[i].batch, i)| + 1);
      } else {
        pos := None;
      }
    }
  }
}
