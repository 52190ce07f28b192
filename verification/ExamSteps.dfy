/**
 * The atomic steps of the pool protocol: every transaction and every single UPDATE is one function on the
 * state, whose guards are the WHERE clauses. A step whose guard fails leaves the state as it is.
 */
module ExamSteps {
  import opened Wrappers
  import opened ExamState

  // ---- statements ----

  /** UPDATE slots SET state='assigned', attempt_id=a: the first idle slot, unless that breaks UNIQUE(attempt_id). */
  datatype Assignment = NoneIdle | UniqueViolation | Given(no: nat)

  ghost function AssignIdle(slots: map<SlotKey, Slot>, b: BatchId, a: AttemptId): Assignment {
    if Idles(slots, b) == {} then NoneIdle
    else
      var no := Least(Idles(slots, b));
      if exists k :: k in slots && k != SlotKey(b, no) && slots[k].attempt == Some(a) then UniqueViolation
      else Given(no)
  }

  function Occupy(slots: map<SlotKey, Slot>, b: BatchId, no: nat, a: AttemptId): map<SlotKey, Slot> {
    slots[SlotKey(b, no) := Slot(Assigned, Some(a))]
  }

  function MarkSubmitting(slots: map<SlotKey, Slot>, a: AttemptId): map<SlotKey, Slot> {
    map k | k in slots ::
      if slots[k].attempt == Some(a) && slots[k].state == Assigned then slots[k].(state := Submitting) else slots[k]
  }

  function MarkRecycling(slots: map<SlotKey, Slot>, a: AttemptId): map<SlotKey, Slot> {
    map k | k in slots ::
      if slots[k].attempt == Some(a) && (slots[k].state == Assigned || slots[k].state == Submitting)
      then slots[k].(state := Recycling) else slots[k]
  }

  /** Pods that are Ready now: their idle-able slots become idle. */
  function SyncUp(slots: map<SlotKey, Slot>, b: BatchId, pods: set<nat>): map<SlotKey, Slot> {
    map k | k in slots ::
      if k.batch == b && k.no in pods && (slots[k].state == Down || slots[k].state == Warming)
      then slots[k].(state := Idle) else slots[k]
  }

  /** Idle slots without a Ready pod are taken back. */
  function SyncDown(slots: map<SlotKey, Slot>, b: BatchId, pods: set<nat>): map<SlotKey, Slot> {
    map k | k in slots ::
      if k.batch == b && k.no !in pods && slots[k].state == Idle then slots[k].(state := Down) else slots[k]
  }

  /** INSERT ... ON CONFLICT: a busy slot keeps its state. */
  function Register(slots: map<SlotKey, Slot>, k: SlotKey, state: SlotState): map<SlotKey, Slot> {
    if k !in slots then slots[k := Slot(state, None)]
    else if IsBusy(slots[k].state) then slots
    else slots[k := slots[k].(state := state)]
  }

  function ResetBatch(slots: map<SlotKey, Slot>, b: BatchId): map<SlotKey, Slot> {
    map k | k in slots :: if k.batch == b then Slot(Down, None) else slots[k]
  }

  /** Closing keeps attempt_id, for the record. */
  function MarkDown(slots: map<SlotKey, Slot>, b: BatchId): map<SlotKey, Slot> {
    map k | k in slots :: if k.batch == b then slots[k].(state := Down) else slots[k]
  }

  function OtherKinds(files: seq<SubmissionFile>, kind: FileKind): seq<SubmissionFile> {
    if files == [] then []
    else if files[0].kind == kind then OtherKinds(files[1..], kind)
    else [files[0]] + OtherKinds(files[1..], kind)
  }

  /** DELETE the files of this kind, then INSERT the new one. */
  function PutFile(files: seq<SubmissionFile>, f: SubmissionFile): seq<SubmissionFile> {
    OtherKinds(files, f.kind) + [f]
  }

  function Upsert(submissions: map<AttemptId, Submission>, a: AttemptId, now: Time): Submission {
    if a in submissions then submissions[a].(status := Accepted, acceptedAt := now)
    else Submission(Accepted, now, now, [])
  }

  // ---- steps ----

  datatype Step =
    | CreateBatch(b: BatchId, capacity: int, warmCount: Option<nat>)
    | SetStatus(b: BatchId, status: BatchStatus)
    | Enroll(a: AttemptId, b: BatchId, user: UserId)
    | StartTx(a: AttemptId, user: UserId, deadline: Time, now: Time)
    | SubmitTx(a: AttemptId, user: UserId, now: Time)
    | ForceSubmitTx(a: AttemptId, now: Time)
    | AutoCollectTx(a: AttemptId, now: Time)
    | VoidTx(a: AttemptId)
    | ExtendTx(a: AttemptId, minutes: real, now: Time)
    | PackageTx(a: AttemptId, artifact: SubmissionFile, chat: Option<SubmissionFile>, now: Time)
    | SyncUpdate(b: BatchId, pods: set<nat>)
    | SyncRevoke(b: BatchId, pods: set<nat>)
    | DrainTx(b: BatchId, now: Time)
    | ScaleUp(b: BatchId)
    | ScaleTo(b: BatchId, n: nat)
    | RegisterTx(b: BatchId, no: nat, state: SlotState)
    | ResetSlots(b: BatchId)
    | DownSlots(b: BatchId)
    | ClearQueue(b: BatchId)

  predicate Startable(s: State, a: AttemptId, user: UserId) {
    && a in s.attempts && s.attempts[a].examinee == user && IsLive(s.attempts[a].status)
    && s.attempts[a].batch in s.batches && s.batches[s.attempts[a].batch].status == Open
  }

  /** The transaction of startExam. `deadline` was read before it, without a lock, so it is arbitrary here. */
  ghost function Start(s: State, a: AttemptId, user: UserId, deadline: Time, now: Time): State {
    if !Startable(s, a, user) then s
    else
      var at := s.attempts[a];
      var startsAt := if at.startsAt.Some? then at.startsAt else Some(now);
      var s1 := s.(attempts := s.attempts[a := at.(status := Running, startsAt := startsAt, deadlineAt := Some(deadline))]);
      if HasSlot(s.slots, a) then s1
      else
        var given := if CountWaiting(s.queue, at.batch) == 0 then AssignIdle(s.slots, at.batch, a) else NoneIdle;
        match given
        case Given(no) => s1.(slots := Occupy(s.slots, at.batch, no, a))
        case UniqueViolation => s
        case NoneIdle => if IsQueued(s.queue, a) then s1 else s1.(queue := s.queue + [QueueRow(a, at.batch)])
  }

  function Finish(s: State, a: AttemptId, now: Time): State
    requires a in s.attempts
  {
    s.(attempts := s.attempts[a := s.attempts[a].(status := Submitted, submittedAt := Some(now))],
       slots := MarkSubmitting(s.slots, a))
  }

  function Submit(s: State, a: AttemptId, user: UserId, now: Time): State {
    if a in s.attempts && s.attempts[a].examinee == user && s.attempts[a].status == Running then Finish(s, a, now) else s
  }

  function ForceSubmit(s: State, a: AttemptId, now: Time): State {
    if a in s.attempts && IsLive(s.attempts[a].status) then Finish(s, a, now) else s
  }

  /** Running, with a deadline that is not in the future. */
  predicate IsDue(at: Attempt, now: Time) {
    at.status == Running && at.deadlineAt.Some? && at.deadlineAt.value <= now
  }

  function AutoCollect(s: State, a: AttemptId, now: Time): State {
    if a in s.attempts && IsDue(s.attempts[a], now) then Finish(s, a, now) else s
  }

  function VoidAttempt(s: State, a: AttemptId): State {
    if a in s.attempts && s.attempts[a].status != Submitted
    then s.(attempts := s.attempts[a := s.attempts[a].(status := Void)]) else s
  }

  function WithDeadline(attempts: map<AttemptId, Attempt>, a: AttemptId, deadline: Time): map<AttemptId, Attempt> {
    if a in attempts && IsLive(attempts[a].status) then attempts[a := attempts[a].(deadlineAt := Some(deadline))]
    else attempts
  }

  /** `new Date(t)` drops the fraction of a millisecond. */
  function TimeClip(t: real): Time {
    if t >= 0.0 then t.Floor else -(-t).Floor
  }

  /** The later of now and the present deadline, and the minutes on top. */
  function Extended(at: Attempt, minutes: real, now: Time): (r: Time)
    ensures minutes > 0.0 ==> r >= now && (at.deadlineAt.Some? ==> r >= at.deadlineAt.value)
  {
    var base := if at.deadlineAt.Some? && at.deadlineAt.value > now then at.deadlineAt.value else now;
    TimeClip(base as real + minutes * 60000.0)
  }

  function Extend(s: State, a: AttemptId, minutes: real, now: Time): State {
    if !(0.0 < minutes <= 600.0) || a !in s.attempts then s
    else s.(attempts := WithDeadline(s.attempts, a, Extended(s.attempts[a], minutes, now)))
  }

  function Package(s: State, a: AttemptId, artifact: SubmissionFile, chat: Option<SubmissionFile>, now: Time): State {
    if a !in s.attempts || s.attempts[a].status != Submitted then s
    else
      var sub := Upsert(s.submissions, a, now);
      var files := PutFile(sub.files, artifact.(kind := Artifact));
      var files' := if chat.Some? then PutFile(files, chat.value.(kind := ChatLog)) else files;
      s.(submissions := s.submissions[a := sub.(files := files')], slots := MarkRecycling(s.slots, a))
  }

  /** One transaction of the drain loop: the oldest waiting attempt gets the lowest idle slot. */
  ghost function Drain(s: State, b: BatchId, now: Time): State {
    if !CanDrain(s, b) then s
    else
      var head, no := Waiting(s.queue, b)[0], Least(Idles(s.slots, b));
      s.(slots := Occupy(s.slots, b, no, head), queue := Without(s.queue, head),
         attempts := WithDeadline(s.attempts, head, now + DURATION))
  }

  ghost predicate CanDrain(s: State, b: BatchId) {
    Waiting(s.queue, b) != [] && AssignIdle(s.slots, b, Waiting(s.queue, b)[0]).Given?
  }

  /** Replicas for the demand seen now, at least the warm count, at most the pool. */
  function Desired(batch: Batch, used: nat, waiting: nat): int {
    var warm := if batch.warmCount.Some? then batch.warmCount.value else PoolSize(batch);
    var demand := if warm < used + waiting then used + waiting else warm;
    if demand < PoolSize(batch) then demand else PoolSize(batch)
  }

  function Scale(s: State, b: BatchId): State {
    if b !in s.batches then s
    else
      var desired := Desired(s.batches[b], |BusyNumbers(s.slots, b)|, CountWaiting(s.queue, b));
      if desired > s.replicas then s.(replicas := desired) else s
  }

  ghost function Apply(s: State, step: Step): State {
    match step
    case CreateBatch(b, capacity, warmCount) =>
      if b in s.batches then s else s.(batches := s.batches[b := Batch(Scheduled, capacity, warmCount)])
    case SetStatus(b, status) =>
      if b !in s.batches then s else s.(batches := s.batches[b := s.batches[b].(status := status)])
    case Enroll(a, b, user) =>
      if a in s.attempts || b !in s.batches then s
      else if exists x :: x in s.attempts && s.attempts[x].batch == b && s.attempts[x].examinee == user then s
      else s.(attempts := s.attempts[a := Attempt(b, user, Ready, None, None, None)])
    case StartTx(a, user, deadline, now) => Start(s, a, user, deadline, now)
    case SubmitTx(a, user, now) => Submit(s, a, user, now)
    case ForceSubmitTx(a, now) => ForceSubmit(s, a, now)
    case AutoCollectTx(a, now) => AutoCollect(s, a, now)
    case VoidTx(a) => VoidAttempt(s, a)
    case ExtendTx(a, minutes, now) => Extend(s, a, minutes, now)
    case PackageTx(a, artifact, chat, now) => Package(s, a, artifact, chat, now)
    case SyncUpdate(b, pods) => s.(slots := SyncUp(s.slots, b, pods))
    case SyncRevoke(b, pods) => s.(slots := SyncDown(s.slots, b, pods))
    case DrainTx(b, now) => Drain(s, b, now)
    case ScaleUp(b) => Scale(s, b)
    case ScaleTo(b, n) => s.(replicas := n)
    case RegisterTx(b, no, state) =>
      if b !in s.batches || IsBusy(state) then s else s.(slots := Register(s.slots, SlotKey(b, no), state))
    case ResetSlots(b) => s.(slots := ResetBatch(s.slots, b))
    case DownSlots(b) => s.(slots := MarkDown(s.slots, b))
    case ClearQueue(b) => s.(queue := WithoutBatch(s.queue, b))
  }

  ghost function Run(s: State, steps: seq<Step>): State
    decreases |steps|
  {
    if steps == [] then s else Apply(Run(s, steps[..|steps| - 1]), steps[|steps| - 1])
  }

  /** Every state the service can get its tables into. */
  ghost predicate Reachable(s: State) {
    exists steps :: Run(EMPTY, steps) == s
  }
}
