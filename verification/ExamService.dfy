/** Starting, handing in and collecting exams. */
module ExamService {
  import opened Wrappers
  import opened ExamState
  import opened ExamSteps
  import opened AllocationInvariant
  import opened DrainLoop
  import opened ExamTables

  // ---- start ----

  datatype StartResult =
    | Started(deadline: Time, queued: bool)
    | NotFound
    | AlreadySubmitted
    | NotAllowed
    | NotOpen
    | Failed

  /** A restart keeps the deadline it finds. */
  function StartDeadline(at: Attempt, now: Time): Time {
    if at.deadlineAt.Some? then at.deadlineAt.value else now + DURATION
  }

  /** Who has no slot is given one only if nobody waits. */
  ghost function Outcome(slots: map<SlotKey, Slot>, queue: seq<QueueRow>, b: BatchId, a: AttemptId): Assignment {
    if HasSlot(slots, a) || Waiting(queue, b) != [] then NoneIdle else AssignIdle(slots, b, a)
  }

  ghost function PlacedSlots(slots: map<SlotKey, Slot>, queue: seq<QueueRow>, b: BatchId, a: AttemptId): map<SlotKey, Slot> {
    var r := Outcome(slots, queue, b, a);
    if r.Given? then Occupy(slots, b, r.no, a) else slots
  }

  ghost function PlacedQueue(slots: map<SlotKey, Slot>, queue: seq<QueueRow>, b: BatchId, a: AttemptId): seq<QueueRow> {
    if HasSlot(slots, a) || Outcome(slots, queue, b, a).Given? || IsQueued(queue, a) then queue else queue + [QueueRow(a, b)]
  }

  /** The slot part of a start, on the rows: an attempt with a slot keeps it; if a row of the batch waits, or no slot
      of it is ready, the attempt queues; else it gets the first ready slot. */
  ghost predicate PlacedAs(slots: map<SlotKey, Slot>, queue: seq<QueueRow>, slots': map<SlotKey, Slot>,
                           queue': seq<QueueRow>, b: BatchId, a: AttemptId) {
    if exists k :: k in slots && slots[k].attempt == Some(a) then slots' == slots && queue' == queue
    else if (exists row :: row in queue && row.batch == b) ||
            (forall k :: k in slots && k.batch == b ==> slots[k].state != Idle) then
      slots' == slots &&
      queue' == if exists row :: row in queue && row.attempt == a then queue else queue + [QueueRow(a, b)]
    else
      queue' == queue &&
      exists no: nat :: LowestIdle(slots, b, no) && slots' == slots[SlotKey(b, no) := Slot(Assigned, Some(a))]
  }

  lemma PlacedIs(slots: map<SlotKey, Slot>, queue: seq<QueueRow>, b: BatchId, a: AttemptId)
    ensures PlacedAs(slots, queue, PlacedSlots(slots, queue, b, a), PlacedQueue(slots, queue, b, a), b, a)
  {
    hide Idles, Waiting;
    WaitsInBatch(queue, b);
    IdlesAre(slots, b);
    if !HasSlot(slots, a) {
      StartNeverViolates(slots, b, a);
      if Waiting(queue, b) == [] && Idles(slots, b) != {} {
        assert LowestIdle(slots, b, Least(Idles(slots, b)));
      } else if Idles(slots, b) == {} {
        assert forall k :: k in slots && k.batch == b ==> slots[k].state != Idle;
      }
    }
  }

  lemma WaitsInBatch(queue: seq<QueueRow>, b: BatchId)
    ensures Waiting(queue, b) != [] <==> exists row :: row in queue && row.batch == b
  {
    hide Waiting;
    if Waiting(queue, b) != [] {
      WaitingRows(queue, b, Waiting(queue, b)[0]);
    }
    if row :| row in queue && row.batch == b {
      WaitingRows(queue, b, row.attempt);
    }
  }

  /** The slot part of the start transaction. The UNIQUE constraint never rolls it back. */
  method GiveOrQueue(db: Tables, b: BatchId, a: AttemptId) returns (queued: bool)
    modifies db`slots, db`queue
    ensures db.slots == PlacedSlots(old(db.slots), old(db.queue), b, a)
    ensures db.queue == PlacedQueue(old(db.slots), old(db.queue), b, a)
    ensures PlacedAs(old(db.slots), old(db.queue), db.slots, db.queue, b, a)
    ensures (queued <==> !HasSlot(db.slots, a)) && (queued ==> IsQueued(db.queue, a))
  {
    hide Idles, Waiting, PlacedAs;
    PlacedIs(db.slots, db.queue, b, a);
    queued := false;
    if !exists k :: k in db.slots && db.slots[k].attempt == Some(a) {
      StartNeverViolates(db.slots, b, a);
      assert !HasSlot(db.slots, a);
      var given := NoneIdle;
      if CountWaiting(db.queue, b) == 0 {
        given := db.AssignReadySlot(b, a);
      }
      if given.Given? {
        assert SlotKey(b, given.no) in db.slots;
      } else {
        db.Enqueue(b, a);
        queued := true;
      }
    }
  }

  function Begun(at: Attempt, deadline: Time, now: Time): Attempt {
    at.(status := Running, startsAt := if at.startsAt.Some? then at.startsAt else Some(now), deadlineAt := Some(deadline))
  }

  lemma StartIs(s: State, a: AttemptId, user: UserId, deadline: Time, now: Time)
    requires Startable(s, a, user)
    ensures var b := s.attempts[a].batch;
      Apply(s, StartTx(a, user, deadline, now)) ==
      s.(attempts := s.attempts[a := Begun(s.attempts[a], deadline, now)],
         slots := PlacedSlots(s.slots, s.queue, b, a), queue := PlacedQueue(s.slots, s.queue, b, a))
  {
    hide Idles, Waiting, Occupy, IsQueued;
    if !HasSlot(s.slots, a) {
      StartNeverViolates(s.slots, s.attempts[a].batch, a);
    }
  }

  /** What startExam reads before its transaction, without a lock: the deadline to write, or a quick refusal. */
  method CheckStart(db: Tables, a: AttemptId, user: UserId) returns (r: Result<Time, StartResult>)
    modifies db`clock
    ensures old(db.clock) <= db.clock
    ensures r.Success? <==> Startable(db.Snapshot(), a, user)
    ensures r.Success? ==> r.value == StartDeadline(db.attempts[a], db.clock)
    ensures r.Success? ==>
      r.value == if db.attempts[a].deadlineAt.Some? then db.attempts[a].deadlineAt.value else db.clock + 7200000
    ensures r.Failure? ==> !r.error.Started?
  {
    if a !in db.attempts || db.attempts[a].examinee != user || db.attempts[a].batch !in db.batches {
      return Failure(NotFound);
    }
    var at := db.attempts[a];
    if at.status == Submitted { return Failure(AlreadySubmitted); }
    if at.status == Expired || at.status == Void { return Failure(NotAllowed); }
    if db.batches[at.batch].status != Open { return Failure(NotOpen); }
    var now := db.Now();
    r := Success(StartDeadline(at, now));
  }

  /**
   * The transaction of startExam, in whatever state the tables are by then and with whatever deadline was read:
   * an attempt that has a slot keeps it; one that has none gets the lowest idle slot, but only if nobody waits;
   * else it queues. Owner and batch of an attempt never change, so they may be read before.
   */
  method StartTransaction(db: Tables, a: AttemptId, ghost user: UserId, batch: BatchId, deadline: Time)
    returns (r: StartResult)
    requires a in db.attempts && db.attempts[a].examinee == user && db.attempts[a].batch == batch
    modifies db
    ensures old(db.clock) <= db.clock
    ensures db.Snapshot() == Apply(old(db.Snapshot()), StartTx(a, user, deadline, db.clock))
    ensures r.Started? <==> Startable(old(db.Snapshot()), a, user)
    ensures r.Started? <==> (
      && old(db.attempts)[a].status in {Ready, Running}
      && batch in old(db.batches) && old(db.batches)[batch].status == Open)
    ensures r.Started? ==> db.attempts == old(db.attempts)[a := old(db.attempts)[a].(status := Running,
      startsAt := Some(if old(db.attempts)[a].startsAt.Some? then old(db.attempts)[a].startsAt.value else db.clock),
      deadlineAt := Some(deadline))]
    ensures r.Started? ==> PlacedAs(old(db.slots), old(db.queue), db.slots, db.queue, batch, a)
    ensures r.Started? ==> r.deadline == deadline && (r.queued <==> !HasSlot(db.slots, a))
    ensures r.Started? && r.queued ==> IsQueued(db.queue, a)
    ensures !r.Started? ==> db.Snapshot() == old(db.Snapshot())
  {
    hide HasSlot, IsQueued, Start, PlacedSlots, PlacedQueue, PlacedAs;
    NotStartable(db.Snapshot(), a, user, deadline);
    if batch !in db.batches || db.batches[batch].status != Open { return NotOpen; }
    ghost var at := db.attempts[a];
    var now := db.Now();
    var updated := db.StartRunning(a, deadline, now);
    if !updated { return Failed; }
    var queued := GiveOrQueue(db, batch, a);
    r := Started(deadline, queued);
    StartIs(old(db.Snapshot()), a, user, deadline, now);
    assert db.attempts == old(db.attempts)[a := Begun(at, deadline, now)];
  }

  lemma NotStartable(s: State, a: AttemptId, user: UserId, deadline: Time)
    ensures !Startable(s, a, user) ==> forall now :: Apply(s, StartTx(a, user, deadline, now)) == s
  {
  }

  /** With nothing between the reading and the transaction. */
  method StartExam(db: Tables, a: AttemptId, user: UserId) returns (r: StartResult)
    modifies db
    ensures r.Started? <==> (
      && a in old(db.attempts) && old(db.attempts)[a].examinee == user && old(db.attempts)[a].status in {Ready, Running}
      && old(db.attempts)[a].batch in old(db.batches) && old(db.batches)[old(db.attempts)[a].batch].status == Open)
    ensures !r.Started? ==> db.Snapshot() == old(db.Snapshot())
    ensures r.Started? ==> db.Snapshot() == Apply(old(db.Snapshot()), StartTx(a, user, r.deadline, db.clock))
    ensures r.Started? ==> db.attempts[a].deadlineAt == Some(r.deadline)
    ensures r.Started? && old(db.attempts)[a].deadlineAt.Some? ==> r.deadline == old(db.attempts)[a].deadlineAt.value
    ensures r.Started? && old(db.attempts)[a].deadlineAt.None? ==>
      old(db.clock) + 7200000 <= r.deadline <= db.clock + 7200000
    ensures r.Started? ==> PlacedAs(old(db.slots), old(db.queue), db.slots, db.queue, old(db.attempts)[a].batch, a)
    ensures r.Started? ==> (r.queued <==> !HasSlot(db.slots, a)) && (r.queued ==> IsQueued(db.queue, a))
  {
    hide HasSlot, IsQueued, Apply, PlacedAs;
    var checked := CheckStart(db, a, user);
    if checked.Failure? { return checked.error; }
    ghost var read := db.clock;
    r := StartTransaction(db, a, user, db.attempts[a].batch, checked.value);
    assert old(db.clock) <= read <= db.clock;
  }

  /** Restarting is idempotent: it keeps the slot or the place in the queue, the start and the deadline. */
  lemma RestartChangesNothing(s: State, a: AttemptId, user: UserId, deadline: Time, now: Time, read: Time, later: Time)
    requires Inv(s) && Startable(s, a, user)
    ensures var t := Apply(s, StartTx(a, user, deadline, now));
      && Startable(t, a, user)
      && Apply(t, StartTx(a, user, StartDeadline(t.attempts[a], read), later)) == t
  {
    hide Inv, Start, PlacedSlots, PlacedQueue, HasSlot, IsQueued;
    var t := Apply(s, StartTx(a, user, deadline, now));
    var b := s.attempts[a].batch;
    StartIs(s, a, user, deadline, now);
    StepKeeps(s, StartTx(a, user, deadline, now));
    StartIs(t, a, user, StartDeadline(t.attempts[a], read), later);
    if Waiting(t.queue, b) == [] {
      NotQueued(t, a);
    }
    PlacedStays(s.slots, s.queue, b, a);
    assert t.attempts[a := t.attempts[a]] == t.attempts;
  }

  /** Placing again changes nothing, as the attempt now has a slot or waits. */
  lemma PlacedStays(slots: map<SlotKey, Slot>, queue: seq<QueueRow>, b: BatchId, a: AttemptId)
    requires IsQueued(PlacedQueue(slots, queue, b, a), a) ==> Waiting(PlacedQueue(slots, queue, b, a), b) != []
    ensures var slots', queue' := PlacedSlots(slots, queue, b, a), PlacedQueue(slots, queue, b, a);
      PlacedSlots(slots', queue', b, a) == slots' && PlacedQueue(slots', queue', b, a) == queue'
  {
    hide Idles, Waiting;
    var r, q := Outcome(slots, queue, b, a), PlacedQueue(slots, queue, b, a);
    if r.Given? {
      assert SlotKey(b, r.no) in PlacedSlots(slots, queue, b, a);
    } else if !HasSlot(slots, a) && !IsQueued(queue, a) {
      assert q[|q| - 1] in q;
    }
  }

  // ---- when a deadline moves earlier ----

  ghost predicate MovesEarlier(s: State, t: State, a: AttemptId) {
    && a in s.attempts && s.attempts[a].deadlineAt.Some?
    && (a !in t.attempts || t.attempts[a].deadlineAt.None? || t.attempts[a].deadlineAt.value < s.attempts[a].deadlineAt.value)
  }

  /** An attempt gets its slot from the queue while its deadline, extended as it waited, is further away than the
      full duration. */
  ghost predicate DrainTakesTime(s: State, step: Step, a: AttemptId) {
    && step.DrainTx? && CanDrain(s, step.b) && Waiting(s.queue, step.b)[0] == a
    && a in s.attempts && s.attempts[a].status in {Ready, Running}
    && s.attempts[a].deadlineAt.Some? && s.attempts[a].deadlineAt.value > step.now + 7200000
  }

  /** A start writes a deadline that is earlier than the present one: it was read before that one was set. */
  ghost predicate StartTakesTime(s: State, step: Step, a: AttemptId) {
    && step.StartTx? && step.a == a && Startable(s, a, step.user)
    && s.attempts[a].deadlineAt.Some? && s.attempts[a].deadlineAt.value > step.deadline
  }

  /** A deadline can move earlier, though no step is meant to cost an examinee time: exactly in these two cases. */
  lemma WhenDeadlinesMoveEarlier(s: State, step: Step, a: AttemptId)
    ensures MovesEarlier(s, Apply(s, step), a) <==> DrainTakesTime(s, step, a) || StartTakesTime(s, step, a)
  {
    hide Idles, Occupy, MarkSubmitting, MarkRecycling, SyncUp, SyncDown, Register, ResetBatch, MarkDown, Waiting,
         Without, WithoutBatch, BusyNumbers, Upsert, PutFile, AssignIdle, Desired, Extended, Start, PlacedSlots,
         PlacedQueue;
    match step
    case StartTx(b, user, deadline, now) =>
      NotStartable(s, b, user, deadline);
      if Startable(s, b, user) {
        StartIs(s, b, user, deadline, now);
      }
    case _ =>
  }

  // ---- runs ----

  lemma {:induction false} RunConcat(s: State, x: seq<Step>, y: seq<Step>)
    ensures Run(s, x + y) == Run(Run(s, x), y)
    decreases |y|
  {
    hide Apply;
    if y == [] {
      assert x + y == x;
    } else {
      var before := y[..|y| - 1];
      RunConcat(s, x, before);
      assert (x + y)[..|x + y| - 1] == x + before;
    }
  }

  /** What a run leads to from a reachable state is reachable: every service call is such a run. */
  lemma RunReaches(s: State, steps: seq<Step>)
    requires Reachable(s)
    ensures Reachable(Run(s, steps)) && Inv(Run(s, steps))
  {
    hide Inv, Run;
    var before :| Run(EMPTY, before) == s;
    RunConcat(EMPTY, before, steps);
    AllReachable(Run(s, steps));
  }

  /**
   * Over a run: a start whose deadline was read in an earlier state of the run takes time exactly when it still
   * succeeds and the deadline has since come to lie beyond the one read, by an extension, a drain or another start.
   */
  lemma StaleStartTakesTime(s: State, steps: seq<Step>, i: nat, a: AttemptId, user: UserId, read: Time, now: Time)
    requires Inv(s) && i <= |steps| && a in Run(s, steps[..i]).attempts
    ensures var early, late := Run(s, steps[..i]), Run(s, steps);
      a in late.attempts &&
      (MovesEarlier(late, Apply(late, StartTx(a, user, StartDeadline(early.attempts[a], read), now)), a) <==>
       Startable(late, a, user) && late.attempts[a].deadlineAt.Some? &&
       late.attempts[a].deadlineAt.value > StartDeadline(early.attempts[a], read))
  {
    hide Inv, Run, Apply, MovesEarlier;
    var early, late := Run(s, steps[..i]), Run(s, steps);
    assert steps == steps[..i] + steps[i..];
    RunConcat(s, steps[..i], steps[i..]);
    RunKeeps(s, steps[..i]);
    RunForward(early, steps[i..]);
    WhenDeadlinesMoveEarlier(late, StartTx(a, user, StartDeadline(early.attempts[a], read), now), a);
  }

  // ---- hand in ----

  datatype OpsResult = Done | Missing | Refused

  /** The attempt is over, and so is its use of a slot: an assigned slot now waits to be packaged. */
  ghost predicate HandedIn(s: State, t: State, a: AttemptId, now: Time) {
    && a in s.attempts
    && t == s.(attempts := s.attempts[a := s.attempts[a].(status := Submitted, submittedAt := Some(now))], slots := t.slots)
    && t.slots.Keys == s.slots.Keys
    && forall k :: k in s.slots ==>
      t.slots[k] == if s.slots[k] == Slot(Assigned, Some(a)) then Slot(Submitting, Some(a)) else s.slots[k]
  }

  method SubmitExam(db: Tables, a: AttemptId, user: UserId) returns (r: OpsResult)
    modifies db
    ensures db.Snapshot() == Apply(old(db.Snapshot()), SubmitTx(a, user, db.clock))
    ensures r.Missing? <==> a !in old(db.attempts)
    ensures r.Done? <==>
      a in old(db.attempts) && old(db.attempts)[a].examinee == user && old(db.attempts)[a].status == Running
    ensures if r.Done? then HandedIn(old(db.Snapshot()), db.Snapshot(), a, db.clock)
      else db.Snapshot() == old(db.Snapshot())
  {
    if a !in db.attempts { return Missing; }
    if db.attempts[a].examinee != user || db.attempts[a].status != Running { return Refused; }
    var now := db.Now();
    db.attempts := db.attempts[a := db.attempts[a].(status := Submitted, submittedAt := Some(now))];
    db.slots := MarkSubmitting(db.slots, a);
    r := Done;
  }

  // ---- collect at the deadline ----

  /** The server judges the deadline again, whatever the caller believes. */
  method AutoCollectAttempt(db: Tables, a: AttemptId) returns (collected: bool)
    modifies db
    ensures old(db.clock) <= db.clock
    ensures db.Snapshot() == Apply(old(db.Snapshot()), AutoCollectTx(a, db.clock))
    ensures collected ==> a in old(db.attempts) && IsDue(old(db.attempts)[a], db.clock)
    ensures a in old(db.attempts) && IsDue(old(db.attempts)[a], old(db.clock)) ==> collected
    ensures collected ==> (
      && a in old(db.attempts) && old(db.attempts)[a].status == Running
      && old(db.attempts)[a].deadlineAt.Some? && old(db.attempts)[a].deadlineAt.value <= db.clock)
    ensures !collected ==> (
      || a !in old(db.attempts) || old(db.attempts)[a].status != Running
      || old(db.attempts)[a].deadlineAt.None? || old(db.attempts)[a].deadlineAt.value > old(db.clock))
    ensures if collected then HandedIn(old(db.Snapshot()), db.Snapshot(), a, db.clock)
      else db.Snapshot() == old(db.Snapshot())
  {
    if a !in db.attempts || db.attempts[a].status != Running { return false; }
    var now := db.Now();
    if db.attempts[a].deadlineAt.None? || db.attempts[a].deadlineAt.value > now { return false; }
    var at := db.Now();
    var updated := db.ForceSubmitRow(a, at);
    db.slots := MarkSubmitting(db.slots, a);
    collected := true;
  }

  /** The attempts in `done` were handed in between these times; every other attempt and its slot is untouched. */
  ghost predicate Collected(s: State, t: State, done: set<AttemptId>, began: Time, ended: Time) {
    && t == s.(attempts := t.attempts, slots := t.slots)
    && t.attempts.Keys == s.attempts.Keys && t.slots.Keys == s.slots.Keys
    && (forall a :: a in s.attempts ==> if a in done then HandedInBetween(s.attempts[a], t.attempts[a], began, ended)
          else t.attempts[a] == s.attempts[a])
    && (forall k :: k in s.slots ==> t.slots[k] == Released(s.slots[k], done))
  }

  predicate HandedInBetween(before: Attempt, after: Attempt, began: Time, ended: Time) {
    && after == before.(status := Submitted, submittedAt := after.submittedAt)
    && after.submittedAt.Some? && began <= after.submittedAt.value <= ended
  }

  function Released(slot: Slot, done: set<AttemptId>): Slot {
    if slot.state == Assigned && slot.attempt.Some? && slot.attempt.value in done then slot.(state := Submitting) else slot
  }

  function OverdueSet(attempts: map<AttemptId, Attempt>, batch: Option<BatchId>, now: Time): set<AttemptId> {
    set a | a in attempts && Overdue(attempts[a], batch, now)
  }

  lemma CollectMore(s: State, t: State, u: State, done: set<AttemptId>, a: AttemptId, began: Time, ended: Time, now: Time)
    requires Collected(s, t, done, began, ended) && HandedIn(t, u, a, now) && began <= ended <= now && a !in done
    ensures Collected(s, u, done + {a}, began, now)
  {
  }

  /**
   * The sweep hands in exactly the running attempts of the batch, or of all batches, whose deadline was over when
   * it began, counts them, and touches nothing else; it is a run of collecting steps. If the database fails after
   * some of them (`failAfter`), exactly those are handed in.
   */
  method SweepDeadlines(db: Tables, batch: Option<BatchId>, failAfter: Option<nat>)
    returns (collected: Option<nat>, ghost began: Time, ghost done: set<AttemptId>, ghost trace: seq<Step>)
    modifies db
    ensures old(db.clock) <= began <= db.clock
    ensures done <= OverdueSet(old(db.attempts), batch, began)
    ensures Collected(old(db.Snapshot()), db.Snapshot(), done, began, db.clock)
    ensures collected.Some? ==> collected.value == |done| && done == OverdueSet(old(db.attempts), batch, began)
    ensures forall a :: a in done ==> (
      && a in old(db.attempts) && old(db.attempts)[a].status == Running
      && old(db.attempts)[a].deadlineAt.Some? && old(db.attempts)[a].deadlineAt.value < began
      && (batch.None? || old(db.attempts)[a].batch == batch.value))
    ensures collected.Some? ==> forall a :: a in db.attempts ==> NotLate(db.attempts[a], batch, began)
    ensures collected.None? ==> failAfter == Some(|done|)
    ensures db.Snapshot() == Run(old(db.Snapshot()), trace) && forall step :: step in trace ==> step.AutoCollectTx?
  {
    hide Apply, HandedIn, Collected, Overdue, IsDue, Run, SeenIn;
    var now := db.Now();
    began, trace, done := now, [], {};
    ghost var s, due := db.Snapshot(), OverdueSet(db.attempts, batch, began);
    var ids := db.ListExpiredRunning(batch, now);
    var count := 0;
    NothingCollected(s, began);
    assert SeenIn(ids, 0) == {} by { SeenNone(ids); }
    assert Run(s, []) == s by { RunNone(s); }
    for i := 0 to |ids|
      invariant began <= db.clock && count == i == |done| && done == SeenIn(ids, i) && done <= due
      invariant Collected(s, db.Snapshot(), done, began, db.clock)
      invariant db.Snapshot() == Run(s, trace) && forall step :: step in trace ==> step.AutoCollectTx?
    {
      if failAfter == Some(i) {
        OverdueMeans(s.attempts, batch, began);
        return None, began, done, trace;
      }
      ghost var t, clock := db.Snapshot(), db.clock;
      SeenMore(ids, i);
      StillDue(s, t, done, ids[i], began, clock, batch);
      var r := AutoCollectAttempt(db, ids[i]);
      CollectMore(s, t, db.Snapshot(), done, ids[i], began, clock, db.clock);
      RunMore(s, trace, AutoCollectTx(ids[i], db.clock));
      trace, done, count := trace + [AutoCollectTx(ids[i], db.clock)], done + {ids[i]}, count + 1;
    }
    assert done == due by { SeenAll(ids); }
    NoneLeft(s, db.Snapshot(), batch, began, db.clock);
    OverdueMeans(s.attempts, batch, began);
    collected := Some(count);
  }

  function SeenIn(ids: seq<AttemptId>, i: nat): set<AttemptId>
    requires i <= |ids|
  {
    set a | a in ids[..i]
  }

  lemma SeenNone(ids: seq<AttemptId>)
    ensures SeenIn(ids, 0) == {}
  {
  }

  lemma SeenAll(ids: seq<AttemptId>)
    ensures forall a :: a in SeenIn(ids, |ids|) <==> a in ids
  {
    assert ids[..|ids|] == ids;
  }

  lemma SeenMore(ids: seq<AttemptId>, i: nat)
    requires i < |ids| && Distinct(ids)
    ensures ids[i] !in SeenIn(ids, i) && SeenIn(ids, i + 1) == SeenIn(ids, i) + {ids[i]}
  {
    assert ids[..i + 1] == ids[..i] + [ids[i]];
  }

  lemma NothingCollected(s: State, now: Time)
    ensures Collected(s, s, {}, now, now)
  {
  }

  lemma StillDue(s: State, t: State, done: set<AttemptId>, a: AttemptId, began: Time, now: Time, batch: Option<BatchId>)
    requires Collected(s, t, done, began, now) && a !in done && began <= now
    requires a in s.attempts && Overdue(s.attempts[a], batch, began)
    ensures a in t.attempts && IsDue(t.attempts[a], now)
  {
  }

  lemma NoneLeft(s: State, t: State, batch: Option<BatchId>, began: Time, ended: Time)
    requires Collected(s, t, OverdueSet(s.attempts, batch, began), began, ended)
    ensures forall a :: a in t.attempts ==> NotLate(t.attempts[a], batch, began)
  {
  }

  /** Not running, without a deadline or with one from `began` on, or in another batch. */
  predicate NotLate(at: Attempt, batch: Option<BatchId>, began: Time) {
    || at.status != Running || at.deadlineAt.None? || at.deadlineAt.value >= began
    || (batch.Some? && at.batch != batch.value)
  }

  lemma OverdueMeans(attempts: map<AttemptId, Attempt>, batch: Option<BatchId>, began: Time)
    ensures forall a :: a in OverdueSet(attempts, batch, began) <==> (
      && a in attempts && attempts[a].status == Running
      && attempts[a].deadlineAt.Some? && attempts[a].deadlineAt.value < began
      && (batch.None? || attempts[a].batch == batch.value))
  {
  }

  lemma RunNone(s: State)
    ensures Run(s, []) == s
  {
  }

  lemma RunMore(s: State, steps: seq<Step>, step: Step)
    ensures Run(s, steps + [step]) == Apply(Run(s, steps), step)
  {
    assert (steps + [step])[..|steps|] == steps;
  }
}
