/** What holds in every reachable state, whatever mix of steps led there. */
module AllocationInvariant {
  import opened Wrappers
  import opened ExamState
  import opened ExamSteps

  /** A started attempt of this batch. */
  predicate StartedIn(attempts: map<AttemptId, Attempt>, a: AttemptId, b: BatchId) {
    a in attempts && attempts[a].batch == b && attempts[a].startsAt.Some?
  }

  /** A slot's attempt is a started attempt of the slot's batch; submitting and recycling slots belong to
      submitted attempts; a busy slot has an attempt. */
  predicate SlotOk(attempts: map<AttemptId, Attempt>, k: SlotKey, slot: Slot) {
    && (slot.attempt.Some? ==> StartedIn(attempts, slot.attempt.value, k.batch))
    && (slot.state in {Assigned, Submitting, Recycling} ==> slot.attempt.Some?)
    && (slot.state == Submitting || slot.state == Recycling ==>
          slot.attempt.Some? && slot.attempt.value in attempts && attempts[slot.attempt.value].status == Submitted)
  }

  ghost predicate SlotsOk(attempts: map<AttemptId, Attempt>, slots: map<SlotKey, Slot>) {
    forall k :: k in slots ==> SlotOk(attempts, k, slots[k])
  }

  /** UNIQUE(attempt_id): no attempt holds two slots. */
  ghost predicate OneSlotEach(slots: map<SlotKey, Slot>) {
    forall j, k :: j in slots && k in slots && slots[j].attempt.Some? && slots[j].attempt == slots[k].attempt ==> j == k
  }

  ghost predicate QueueOk(attempts: map<AttemptId, Attempt>, queue: seq<QueueRow>) {
    forall row :: row in queue ==> StartedIn(attempts, row.attempt, row.batch)
  }

  /** PRIMARY KEY (attempt_id) of the queue. */
  ghost predicate QueuedOnce(queue: seq<QueueRow>) {
    forall i, j :: 0 <= i < j < |queue| ==> queue[i].attempt != queue[j].attempt
  }

  /** No attempt both waits and holds a slot. */
  ghost predicate WaitsWithoutSlot(slots: map<SlotKey, Slot>, queue: seq<QueueRow>) {
    forall row, k :: row in queue && k in slots ==> slots[k].attempt != Some(row.attempt)
  }

  predicate AttemptOk(at: Attempt) {
    && (at.submittedAt.Some? <==> at.status == Submitted)
    && (at.status == Running ==> at.startsAt.Some? && at.deadlineAt.Some?)
  }

  ghost predicate AttemptsOk(attempts: map<AttemptId, Attempt>) {
    forall a :: a in attempts ==> AttemptOk(attempts[a])
  }

  ghost predicate OneFilePerKind(files: seq<SubmissionFile>) {
    forall i, j :: 0 <= i < j < |files| ==> files[i].kind != files[j].kind
  }

  ghost predicate HasArtifact(files: seq<SubmissionFile>) {
    exists f :: f in files && f.kind == Artifact
  }

  ghost predicate SubmissionsOk(attempts: map<AttemptId, Attempt>, submissions: map<AttemptId, Submission>) {
    forall a :: a in submissions ==>
      && a in attempts && attempts[a].status == Submitted && submissions[a].status == Accepted
      && OneFilePerKind(submissions[a].files) && HasArtifact(submissions[a].files)
  }

  ghost predicate Inv(s: State) {
    && SlotsOk(s.attempts, s.slots) && OneSlotEach(s.slots)
    && QueueOk(s.attempts, s.queue) && QueuedOnce(s.queue) && WaitsWithoutSlot(s.slots, s.queue)
    && AttemptsOk(s.attempts) && SubmissionsOk(s.attempts, s.submissions)
  }

  // ---- attempts only move forward ----

  /** How one attempt may change: it stays in its batch, started stays started, and submitted and void are final. */
  predicate AttemptForward(old_: Attempt, new_: Attempt) {
    && new_.batch == old_.batch && new_.examinee == old_.examinee
    && (old_.startsAt.Some? ==> new_.startsAt == old_.startsAt)
    && (old_.status == Submitted ==> new_ == old_)
    && (old_.status == Void ==> new_ == old_)
    && (new_.status == Ready ==> old_.status == Ready)
    && (new_.status == Expired ==> old_.status == Expired)
  }

  ghost predicate AttemptsForward(old_: map<AttemptId, Attempt>, new_: map<AttemptId, Attempt>) {
    forall a :: a in old_ ==> a in new_ && AttemptForward(old_[a], new_[a])
  }

  /** Tables that refer to attempts stay right when attempts move forward. */
  lemma ForwardKeeps(s: State, t: State)
    requires Inv(s) && AttemptsForward(s.attempts, t.attempts) && AttemptsOk(t.attempts)
    ensures SlotsOk(t.attempts, s.slots) && QueueOk(t.attempts, s.queue) && SubmissionsOk(t.attempts, s.submissions)
  {
    hide OneFilePerKind, HasArtifact;
    forall k | k in s.slots
      ensures SlotOk(t.attempts, k, s.slots[k])
    {
      assert SlotOk(s.attempts, k, s.slots[k]);
    }
  }

  // ---- slots ----

  /** Updates of the slot table that move no attempt into another slot. */
  ghost predicate SlotsRelabel(attempts: map<AttemptId, Attempt>, old_: map<SlotKey, Slot>, new_: map<SlotKey, Slot>) {
    forall k :: k in new_ ==>
      SlotOk(attempts, k, new_[k]) &&
      (new_[k].attempt == None || (k in old_ && new_[k].attempt == old_[k].attempt))
  }

  lemma RelabelKeeps(s: State, slots: map<SlotKey, Slot>)
    requires Inv(s) && SlotsRelabel(s.attempts, s.slots, slots)
    ensures SlotsOk(s.attempts, slots) && OneSlotEach(slots) && WaitsWithoutSlot(slots, s.queue)
  {
    hide SlotOk;
  }

  lemma OccupyKeeps(attempts: map<AttemptId, Attempt>, slots: map<SlotKey, Slot>, queue: seq<QueueRow>,
                    b: BatchId, no: nat, a: AttemptId)
    requires SlotsOk(attempts, slots) && OneSlotEach(slots) && WaitsWithoutSlot(slots, queue)
    requires StartedIn(attempts, a, b) && !IsQueued(queue, a)
    requires forall k :: k in slots && k != SlotKey(b, no) ==> slots[k].attempt != Some(a)
    ensures var t := Occupy(slots, b, no, a);
      SlotsOk(attempts, t) && OneSlotEach(t) && WaitsWithoutSlot(t, queue)
  {
    var t := Occupy(slots, b, no, a);
    assert SlotOk(attempts, SlotKey(b, no), t[SlotKey(b, no)]);
    forall k | k in t
      ensures SlotOk(attempts, k, t[k])
    {
      if k != SlotKey(b, no) {
        assert SlotOk(attempts, k, slots[k]);
      }
    }
  }

  // ---- queue ----

  lemma {:induction false} WithoutRows(queue: seq<QueueRow>, a: AttemptId, row: QueueRow)
    ensures row in Without(queue, a) <==> row in queue && row.attempt != a
  {
    if queue != [] {
      WithoutRows(queue[1..], a, row);
    }
  }

  lemma {:induction false} WithoutOnce(queue: seq<QueueRow>, a: AttemptId)
    requires QueuedOnce(queue)
    ensures QueuedOnce(Without(queue, a))
  {
    if queue != [] {
      var rest := queue[1..];
      WithoutOnce(rest, a);
      forall i | 0 <= i < |Without(rest, a)|
        ensures Without(rest, a)[i].attempt != queue[0].attempt
      {
        WithoutRows(rest, a, Without(rest, a)[i]);
        var j :| 0 <= j < |rest| && rest[j] == Without(rest, a)[i];
        assert queue[j + 1] == rest[j];
      }
    }
  }

  lemma {:induction false} WithoutBatchRows(queue: seq<QueueRow>, b: BatchId, row: QueueRow)
    ensures row in WithoutBatch(queue, b) <==> row in queue && row.batch != b
  {
    if queue != [] {
      WithoutBatchRows(queue[1..], b, row);
    }
  }

  lemma {:induction false} WithoutBatchOnce(queue: seq<QueueRow>, b: BatchId)
    requires QueuedOnce(queue)
    ensures QueuedOnce(WithoutBatch(queue, b))
  {
    if queue != [] {
      var rest := queue[1..];
      WithoutBatchOnce(rest, b);
      forall i | 0 <= i < |WithoutBatch(rest, b)|
        ensures WithoutBatch(rest, b)[i].attempt != queue[0].attempt
      {
        WithoutBatchRows(rest, b, WithoutBatch(rest, b)[i]);
        var j :| 0 <= j < |rest| && rest[j] == WithoutBatch(rest, b)[i];
        assert queue[j + 1] == rest[j];
      }
    }
  }

  lemma {:induction false} WaitingRows(queue: seq<QueueRow>, b: BatchId, a: AttemptId)
    ensures a in Waiting(queue, b) <==> QueueRow(a, b) in queue
  {
    if queue != [] {
      WaitingRows(queue[1..], b, a);
    }
  }

  // ---- submissions ----

  lemma {:induction false} OtherKindsRows(files: seq<SubmissionFile>, kind: FileKind, f: SubmissionFile)
    ensures f in OtherKinds(files, kind) <==> f in files && f.kind != kind
  {
    if files != [] {
      OtherKindsRows(files[1..], kind, f);
    }
  }

  lemma {:induction false} OtherKindsOnce(files: seq<SubmissionFile>, kind: FileKind)
    requires OneFilePerKind(files)
    ensures OneFilePerKind(OtherKinds(files, kind))
  {
    if files != [] {
      var rest := files[1..];
      OtherKindsOnce(rest, kind);
      forall i | 0 <= i < |OtherKinds(rest, kind)|
        ensures OtherKinds(rest, kind)[i].kind != files[0].kind
      {
        OtherKindsRows(rest, kind, OtherKinds(rest, kind)[i]);
        var j :| 0 <= j < |rest| && rest[j] == OtherKinds(rest, kind)[i];
        assert files[j + 1] == rest[j];
      }
    }
  }

  /** Replacing a file keeps one per kind, and the other kind as it was. */
  lemma PutFileKeeps(files: seq<SubmissionFile>, f: SubmissionFile)
    requires OneFilePerKind(files)
    ensures OneFilePerKind(PutFile(files, f)) && f in PutFile(files, f)
    ensures forall g: SubmissionFile :: g.kind != f.kind ==> (g in PutFile(files, f) <==> g in files)
  {
    OtherKindsOnce(files, f.kind);
    forall g: SubmissionFile
      ensures g in OtherKinds(files, f.kind) <==> g in files && g.kind != f.kind
    {
      OtherKindsRows(files, f.kind, g);
    }
  }

  // ---- each step keeps the invariant ----

  /** A step that only moves attempts forward. */
  lemma AttemptsStep(s: State, t: State)
    requires Inv(s) && AttemptsForward(s.attempts, t.attempts) && AttemptsOk(t.attempts)
    requires t.slots == s.slots && t.queue == s.queue && t.submissions == s.submissions
    ensures Inv(t)
  {
    hide SlotsOk, OneSlotEach, QueueOk, QueuedOnce, WaitsWithoutSlot, SubmissionsOk, AttemptsOk, AttemptsForward;
    ForwardKeeps(s, t);
  }

  /** A step that only relabels slots. */
  lemma SlotsStep(s: State, t: State)
    requires Inv(s) && SlotsRelabel(s.attempts, s.slots, t.slots)
    requires t.attempts == s.attempts && t.queue == s.queue && t.submissions == s.submissions
    ensures Inv(t)
  {
    hide SlotsOk, OneSlotEach, QueueOk, QueuedOnce, WaitsWithoutSlot, SubmissionsOk, AttemptsOk, SlotsRelabel;
    RelabelKeeps(s, t.slots);
  }

  lemma EnrollKeeps(s: State, a: AttemptId, b: BatchId, user: UserId)
    requires Inv(s)
    ensures Inv(Apply(s, Enroll(a, b, user)))
  {
    hide SlotOk, OneFilePerKind, HasArtifact;
    var t := Apply(s, Enroll(a, b, user));
    AttemptsStep(s, t);
  }

  lemma FinishKeeps(s: State, a: AttemptId, now: Time)
    requires Inv(s) && a in s.attempts && IsLive(s.attempts[a].status)
    ensures Inv(Finish(s, a, now)) && AttemptsForward(s.attempts, Finish(s, a, now).attempts)
  {
    hide OneFilePerKind, HasArtifact;
    var t := Finish(s, a, now);
    var s1 := s.(attempts := t.attempts);
    AttemptsStep(s, s1);
    forall k | k in s.slots
      ensures SlotOk(s1.attempts, k, t.slots[k])
    {
      assert SlotOk(s1.attempts, k, s.slots[k]);
    }
    SlotsStep(s1, t);
  }

  lemma VoidKeeps(s: State, a: AttemptId)
    requires Inv(s)
    ensures Inv(VoidAttempt(s, a))
  {
    if a in s.attempts && s.attempts[a].status == Void {
      assert VoidAttempt(s, a).attempts == s.attempts;
    }
    VoidOk(s, a);
    AttemptsStep(s, VoidAttempt(s, a));
  }

  lemma VoidOk(s: State, a: AttemptId)
    requires AttemptsOk(s.attempts)
    ensures AttemptsForward(s.attempts, VoidAttempt(s, a).attempts) && AttemptsOk(VoidAttempt(s, a).attempts)
  {
  }

  lemma DeadlineKeeps(s: State, a: AttemptId, deadline: Time)
    requires Inv(s)
    ensures Inv(s.(attempts := WithDeadline(s.attempts, a, deadline)))
    ensures AttemptsForward(s.attempts, WithDeadline(s.attempts, a, deadline))
  {
    DeadlineOk(s.attempts, a, deadline);
    AttemptsStep(s, s.(attempts := WithDeadline(s.attempts, a, deadline)));
  }

  lemma DeadlineOk(attempts: map<AttemptId, Attempt>, a: AttemptId, deadline: Time)
    requires AttemptsOk(attempts)
    ensures AttemptsForward(attempts, WithDeadline(attempts, a, deadline))
    ensures AttemptsOk(WithDeadline(attempts, a, deadline))
  {
  }

  lemma QueueAppend(s: State, a: AttemptId, b: BatchId)
    requires Inv(s) && StartedIn(s.attempts, a, b) && !IsQueued(s.queue, a) && !HasSlot(s.slots, a)
    ensures Inv(s.(queue := s.queue + [QueueRow(a, b)]))
  {
    hide SlotOk, OneFilePerKind, HasArtifact, AttemptOk;
    var q := s.queue + [QueueRow(a, b)];
    forall i, j | 0 <= i < j < |q|
      ensures q[i].attempt != q[j].attempt
    {
      assert q[i] in s.queue;
    }
  }

  /** No start ever breaks the UNIQUE constraint: the attempt has no slot when one is given. */
  lemma StartNeverViolates(slots: map<SlotKey, Slot>, b: BatchId, a: AttemptId)
    requires !HasSlot(slots, a)
    ensures !AssignIdle(slots, b, a).UniqueViolation?
    ensures AssignIdle(slots, b, a).Given? <==> Idles(slots, b) != {}
  {
    hide Idles;
  }

  lemma StartRunningOk(s: State, a: AttemptId, at: Attempt)
    requires Inv(s) && a in s.attempts && IsLive(s.attempts[a].status) && AttemptForward(s.attempts[a], at) && AttemptOk(at)
    ensures Inv(s.(attempts := s.attempts[a := at]))
  {
    var t := s.(attempts := s.attempts[a := at]);
    assert AttemptsForward(s.attempts, t.attempts);
    assert AttemptsOk(t.attempts);
    AttemptsStep(s, t);
  }

  lemma StartKeeps(s: State, a: AttemptId, user: UserId, deadline: Time, now: Time)
    requires Inv(s)
    ensures Inv(Start(s, a, user, deadline, now))
    ensures AttemptsForward(s.attempts, Start(s, a, user, deadline, now).attempts)
  {
    hide SlotsOk, OneSlotEach, QueueOk, QueuedOnce, WaitsWithoutSlot, SubmissionsOk, Idles, Waiting;
    if a in s.attempts && IsLive(s.attempts[a].status) {
      var at := s.attempts[a];
      var b := at.batch;
      var startsAt := if at.startsAt.Some? then at.startsAt else Some(now);
      var running := at.(status := Running, startsAt := startsAt, deadlineAt := Some(deadline));
      var s1 := s.(attempts := s.attempts[a := running]);
      StartRunningOk(s, a, running);
      if !HasSlot(s.slots, a) {
        StartNeverViolates(s.slots, b, a);
        if CountWaiting(s.queue, b) == 0 && Idles(s.slots, b) != {} {
          NotQueued(s, a);
          OccupyKeeps(s1.attempts, s.slots, s.queue, b, Least(Idles(s.slots, b)), a);
        } else if !IsQueued(s.queue, a) {
          QueueAppend(s1, a, b);
        }
      }
    }
  }

  /** With nobody waiting in its batch, an attempt is not queued. */
  lemma NotQueued(s: State, a: AttemptId)
    requires Inv(s) && a in s.attempts && Waiting(s.queue, s.attempts[a].batch) == []
    ensures !IsQueued(s.queue, a)
  {
    var b := s.attempts[a].batch;
    WaitingRows(s.queue, b, a);
    assert forall row :: row in s.queue && row.attempt == a ==> row == QueueRow(a, b);
  }

  lemma HeadFacts(s: State, b: BatchId)
    requires Inv(s) && Waiting(s.queue, b) != []
    ensures var head := Waiting(s.queue, b)[0];
      QueueRow(head, b) in s.queue && StartedIn(s.attempts, head, b) && !HasSlot(s.slots, head)
  {
    hide SlotsOk, OneSlotEach, SubmissionsOk, AttemptsOk;
    var head := Waiting(s.queue, b)[0];
    WaitingRows(s.queue, b, head);
  }

  /** Nor does the drain loop: a waiting attempt holds no slot, so it drains whenever it can. */
  lemma DrainNeverViolates(s: State, b: BatchId)
    requires Inv(s)
    ensures CanDrain(s, b) <==> Waiting(s.queue, b) != [] && Idles(s.slots, b) != {}
  {
    hide Idles, Inv, Waiting;
    if Waiting(s.queue, b) != [] {
      HeadFacts(s, b);
      StartNeverViolates(s.slots, b, Waiting(s.queue, b)[0]);
    }
  }

  lemma DrainKeeps(s: State, b: BatchId, now: Time)
    requires Inv(s)
    ensures Inv(Drain(s, b, now)) && AttemptsForward(s.attempts, Drain(s, b, now).attempts)
  {
    hide SlotsOk, OneSlotEach, SubmissionsOk, Waiting, Idles, WithDeadline, Without, Occupy, AttemptOk;
    if CanDrain(s, b) {
      var head, no := Waiting(s.queue, b)[0], Least(Idles(s.slots, b));
      HeadFacts(s, b);
      QueueRemoved(s, head);
      var s1 := s.(queue := Without(s.queue, head));
      OccupyKeeps(s.attempts, s.slots, s1.queue, b, no, head);
      var s2 := s1.(slots := Occupy(s.slots, b, no, head));
      DeadlineKeeps(s2, head, now + DURATION);
    }
  }

  lemma QueueRemoved(s: State, a: AttemptId)
    requires Inv(s)
    ensures Inv(s.(queue := Without(s.queue, a))) && !IsQueued(Without(s.queue, a), a)
  {
    hide SlotOk, OneFilePerKind, HasArtifact, AttemptOk, OneSlotEach, SubmissionsOk;
    WithoutOnce(s.queue, a);
    forall row | row in Without(s.queue, a)
      ensures row in s.queue && row.attempt != a
    {
      WithoutRows(s.queue, a, row);
    }
  }

  lemma ClearKeeps(s: State, b: BatchId)
    requires Inv(s)
    ensures Inv(s.(queue := WithoutBatch(s.queue, b)))
  {
    hide SlotOk, OneFilePerKind, HasArtifact, AttemptOk, OneSlotEach, SubmissionsOk;
    WithoutBatchOnce(s.queue, b);
    forall row | row in WithoutBatch(s.queue, b)
      ensures row in s.queue
    {
      WithoutBatchRows(s.queue, b, row);
    }
  }

  lemma PackageKeeps(s: State, a: AttemptId, artifact: SubmissionFile, chat: Option<SubmissionFile>, now: Time)
    requires Inv(s)
    ensures Inv(Package(s, a, artifact, chat, now))
  {
    hide PutFile;
    if a in s.attempts && s.attempts[a].status == Submitted {
      var t := Package(s, a, artifact, chat, now);
      var sub := Upsert(s.submissions, a, now);
      var af := artifact.(kind := Artifact);
      PutFileKeeps(sub.files, af);
      if chat.Some? {
        PutFileKeeps(PutFile(sub.files, af), chat.value.(kind := ChatLog));
      }
      assert af in t.submissions[a].files;
      PackagedSubmissions(s, a, t.submissions[a]);
      PackagedSlots(s, a);
      SlotsStep(s.(submissions := t.submissions), t);
    }
  }

  lemma PackagedSubmissions(s: State, a: AttemptId, sub: Submission)
    requires Inv(s) && a in s.attempts && s.attempts[a].status == Submitted && sub.status == Accepted
    requires OneFilePerKind(sub.files) && HasArtifact(sub.files)
    ensures Inv(s.(submissions := s.submissions[a := sub]))
  {
    hide SlotOk, OneFilePerKind, HasArtifact, AttemptOk;
  }

  lemma PackagedSlots(s: State, a: AttemptId)
    requires Inv(s) && a in s.attempts && s.attempts[a].status == Submitted
    ensures SlotsRelabel(s.attempts, s.slots, MarkRecycling(s.slots, a))
  {
    forall k | k in s.slots
      ensures SlotOk(s.attempts, k, MarkRecycling(s.slots, a)[k])
    {
      assert SlotOk(s.attempts, k, s.slots[k]);
    }
  }

  /** The two updates of a sync only relabel. */
  lemma SyncUpStep(s: State, b: BatchId, pods: set<nat>)
    requires Inv(s)
    ensures Inv(s.(slots := SyncUp(s.slots, b, pods)))
  {
    hide OneSlotEach, QueueOk, QueuedOnce, WaitsWithoutSlot, SubmissionsOk, AttemptsOk, StartedIn;
    SlotsStep(s, s.(slots := SyncUp(s.slots, b, pods)));
  }

  lemma SyncDownStep(s: State, b: BatchId, pods: set<nat>)
    requires Inv(s)
    ensures Inv(s.(slots := SyncDown(s.slots, b, pods)))
  {
    hide OneSlotEach, QueueOk, QueuedOnce, WaitsWithoutSlot, SubmissionsOk, AttemptsOk, StartedIn;
    SlotsStep(s, s.(slots := SyncDown(s.slots, b, pods)));
  }

  /** So does a registration. */
  lemma RegisterStep(s: State, k: SlotKey, state: SlotState)
    requires Inv(s) && !IsBusy(state)
    ensures Inv(s.(slots := Register(s.slots, k, state)))
  {
    hide OneSlotEach, QueueOk, QueuedOnce, WaitsWithoutSlot, SubmissionsOk, AttemptsOk, StartedIn;
    SlotsStep(s, s.(slots := Register(s.slots, k, state)));
  }

  /** So do reset and close. */
  lemma EpochSteps(s: State, b: BatchId)
    requires Inv(s)
    ensures Inv(s.(slots := ResetBatch(s.slots, b))) && Inv(s.(slots := MarkDown(s.slots, b)))
  {
    hide OneSlotEach, QueueOk, QueuedOnce, WaitsWithoutSlot, SubmissionsOk, AttemptsOk, StartedIn;
    SlotsStep(s, s.(slots := ResetBatch(s.slots, b)));
    SlotsStep(s, s.(slots := MarkDown(s.slots, b)));
  }

  lemma StepKeeps(s: State, step: Step)
    requires Inv(s)
    ensures Inv(Apply(s, step))
  {
    hide SlotsOk, OneSlotEach, QueueOk, QueuedOnce, WaitsWithoutSlot, SubmissionsOk, AttemptsOk, Start, Finish, Package,
         Drain, Without, WithoutBatch, VoidAttempt, WithDeadline, SyncUp, SyncDown, Register, ResetBatch, MarkDown,
         Desired, BusyNumbers, Waiting;
    match step
    case CreateBatch(_, _, _) =>
    case SetStatus(_, _) =>
    case Enroll(a, b, user) => EnrollKeeps(s, a, b, user);
    case StartTx(a, user, deadline, now) => StartKeeps(s, a, user, deadline, now);
    case SubmitTx(a, user, now) => if Submit(s, a, user, now) != s { FinishKeeps(s, a, now); }
    case ForceSubmitTx(a, now) => if ForceSubmit(s, a, now) != s { FinishKeeps(s, a, now); }
    case AutoCollectTx(a, now) => if AutoCollect(s, a, now) != s { FinishKeeps(s, a, now); }
    case VoidTx(a) => VoidKeeps(s, a);
    case ExtendTx(a, minutes, now) =>
      if Extend(s, a, minutes, now) != s {
        DeadlineKeeps(s, a, Extended(s.attempts[a], minutes, now));
      }
    case PackageTx(a, artifact, chat, now) => PackageKeeps(s, a, artifact, chat, now);
    case SyncUpdate(b, pods) => SyncUpStep(s, b, pods);
    case SyncRevoke(b, pods) => SyncDownStep(s, b, pods);
    case DrainTx(b, now) => DrainKeeps(s, b, now);
    case ScaleUp(_) =>
    case ScaleTo(_, _) =>
    case RegisterTx(b, no, state) => if !IsBusy(state) { RegisterStep(s, SlotKey(b, no), state); }
    case ResetSlots(b) => EpochSteps(s, b);
    case DownSlots(b) => EpochSteps(s, b);
    case ClearQueue(b) => ClearKeeps(s, b);
  }

  lemma {:induction false} RunKeeps(s: State, steps: seq<Step>)
    requires Inv(s)
    ensures Inv(Run(s, steps))
    decreases |steps|
  {
    hide Inv, Apply;
    if steps != [] {
      RunKeeps(s, steps[..|steps| - 1]);
      StepKeeps(Run(s, steps[..|steps| - 1]), steps[|steps| - 1]);
    }
  }

  /** The allocation and lifecycle invariant holds in every reachable state. */
  lemma AllReachable(s: State)
    requires Reachable(s)
    ensures Inv(s)
  {
    hide Run;
    var steps :| Run(EMPTY, steps) == s;
    EmptyOk();
    RunKeeps(EMPTY, steps);
  }

  lemma EmptyOk()
    ensures Inv(EMPTY)
  {
  }

  // ---- attempts over whole runs ----

  lemma StepForward(s: State, step: Step)
    requires Inv(s)
    ensures AttemptsForward(s.attempts, Apply(s, step).attempts)
  {
    hide SlotsOk, OneSlotEach, QueueOk, QueuedOnce, WaitsWithoutSlot, SubmissionsOk, Start, Finish, Package, Drain,
         VoidAttempt, WithDeadline, Desired, BusyNumbers, Waiting, AttemptsOk, AttemptsForward, SyncUp, SyncDown,
         Register, ResetBatch, MarkDown, WithoutBatch;
    ForwardSelf(s.attempts);
    match step
    case Enroll(a, b, user) => ForwardNew(s.attempts, a, Attempt(b, user, Ready, None, None, None));
    case StartTx(a, user, deadline, now) => StartKeeps(s, a, user, deadline, now);
    case SubmitTx(a, user, now) => if Submit(s, a, user, now) != s { FinishKeeps(s, a, now); }
    case ForceSubmitTx(a, now) => if ForceSubmit(s, a, now) != s { FinishKeeps(s, a, now); }
    case AutoCollectTx(a, now) => if AutoCollect(s, a, now) != s { FinishKeeps(s, a, now); }
    case VoidTx(a) => VoidOk(s, a);
    case ExtendTx(a, minutes, now) =>
      if Extend(s, a, minutes, now) != s {
        DeadlineOk(s.attempts, a, Extended(s.attempts[a], minutes, now));
      }
    case DrainTx(b, now) => DrainKeeps(s, b, now);
    case PackageTx(a, artifact, chat, now) => PackageAttempts(s, a, artifact, chat, now);
    case _ =>
  }

  lemma PackageAttempts(s: State, a: AttemptId, artifact: SubmissionFile, chat: Option<SubmissionFile>, now: Time)
    ensures Package(s, a, artifact, chat, now).attempts == s.attempts
  {
  }

  lemma ForwardSelf(attempts: map<AttemptId, Attempt>)
    ensures AttemptsForward(attempts, attempts)
  {
  }

  lemma ForwardNew(attempts: map<AttemptId, Attempt>, a: AttemptId, at: Attempt)
    ensures a !in attempts ==> AttemptsForward(attempts, attempts[a := at])
  {
  }

  /** Over any run, submitted and void attempts never change again, and no attempt changes its batch or its start. */
  lemma {:induction false} RunForward(s: State, steps: seq<Step>)
    requires Inv(s)
    ensures AttemptsForward(s.attempts, Run(s, steps).attempts)
    decreases |steps|
  {
    hide Inv, Apply;
    if steps != [] {
      var before := Run(s, steps[..|steps| - 1]);
      RunKeeps(s, steps[..|steps| - 1]);
      RunForward(s, steps[..|steps| - 1]);
      StepForward(before, steps[|steps| - 1]);
    } else {
      ForwardSelf(s.attempts);
    }
  }
}
