/** What operators do to one attempt, and the callback that registers a packaged submission. */
module AttemptService {
  import opened Wrappers
  import opened ExamState
  import opened ExamSteps
  import opened AllocationInvariant
  import opened ExamTables
  import opened ExamService

  method ForceSubmit(db: Tables, a: AttemptId) returns (r: OpsResult)
    modifies db
    ensures db.Snapshot() == Apply(old(db.Snapshot()), ForceSubmitTx(a, db.clock))
    ensures r.Missing? <==> a !in old(db.attempts)
    ensures r.Done? <==> a in old(db.attempts) && old(db.attempts)[a].status in {Ready, Running}
    ensures if r.Done? then HandedIn(old(db.Snapshot()), db.Snapshot(), a, db.clock)
      else db.Snapshot() == old(db.Snapshot())
  {
    if a !in db.attempts { return Missing; }
    var now := db.Now();
    var updated := db.ForceSubmitRow(a, now);
    if !updated { return Refused; }
    db.slots := MarkSubmitting(db.slots, a);
    r := Done;
  }

  /** Voiding is for anything but a submitted attempt. The slot and the queue row are left to the next reset. */
  method VoidAttempt(db: Tables, a: AttemptId) returns (r: OpsResult)
    modifies db`attempts
    ensures db.Snapshot() == Apply(old(db.Snapshot()), VoidTx(a))
    ensures r.Done? <==> a in old(db.attempts) && old(db.attempts)[a].status != Submitted
    ensures r.Done? ==> db.attempts == old(db.attempts)[a := old(db.attempts)[a].(status := Void)]
    ensures !r.Done? ==> db.attempts == old(db.attempts)
  {
    if a !in db.attempts || db.attempts[a].status == Submitted { return Refused; }
    db.attempts := db.attempts[a := db.attempts[a].(status := Void)];
    r := Done;
  }

  /** The number without its fraction. */
  ghost predicate IsWhole(x: real, n: int) {
    if x >= 0.0 then n as real <= x < n as real + 1.0 else n as real - 1.0 < x <= n as real
  }

  /** An extension counts from the later of now and the present deadline, so it never takes time away. */
  method ExtendDeadline(db: Tables, a: AttemptId, minutes: real) returns (r: OpsResult)
    modifies db
    ensures db.Snapshot() == Apply(old(db.Snapshot()), ExtendTx(a, minutes, db.clock))
    ensures r.Done? <==> 0.0 < minutes <= 600.0 && a in old(db.attempts) && old(db.attempts)[a].status in {Ready, Running}
    ensures !r.Done? ==> db.Snapshot() == old(db.Snapshot())
    ensures r.Done? ==>
      var was, next := old(db.attempts)[a].deadlineAt, db.attempts[a].deadlineAt;
      var base := if was.Some? && was.value > db.clock then was.value else db.clock;
      && db.attempts == old(db.attempts)[a := old(db.attempts)[a].(deadlineAt := next)]
      && next.Some? && next.value >= base && IsWhole(base as real + minutes * 60000.0, next.value)
  {
    if minutes <= 0.0 || minutes > 600.0 { return Refused; }
    if a !in db.attempts { return Missing; }
    var at := db.attempts[a];
    var base := db.Now();
    if at.deadlineAt.Some? && at.deadlineAt.value > base {
      base := at.deadlineAt.value;
    } else {
      base := db.Now();
    }
    if !IsLive(at.status) { return Refused; }
    db.attempts := db.attempts[a := at.(deadlineAt := Some(TimeClip(base as real + minutes * 60000.0)))];
    assert TimeClip(base as real + minutes * 60000.0) == Extended(at, minutes, db.clock);
    WholeIs(base as real + minutes * 60000.0);
    r := Done;
  }

  lemma WholeIs(x: real)
    ensures IsWhole(x, TimeClip(x))
  {
  }

  /**
   * The callback of the packaging job. However often it is repeated, the submission has one file per kind, the
   * artifact is the one just sent, and without a chat log the earlier chat log stays.
   */
  method RegisterPackage(db: Tables, a: AttemptId, artifact: SubmissionFile, chat: Option<SubmissionFile>)
    returns (r: OpsResult)
    requires Inv(db.Snapshot())
    modifies db
    ensures db.Snapshot() == Apply(old(db.Snapshot()), PackageTx(a, artifact, chat, db.clock)) && Inv(db.Snapshot())
    ensures r.Done? <==> a in old(db.attempts) && old(db.attempts)[a].status == Submitted
    ensures !r.Done? ==> db.Snapshot() == old(db.Snapshot())
    ensures r.Done? ==> a in db.submissions && OneFilePerKind(db.submissions[a].files)
    ensures r.Done? ==> artifact.(kind := Artifact) in db.submissions[a].files
    ensures r.Done? && chat.Some? ==> chat.value.(kind := ChatLog) in db.submissions[a].files
    ensures r.Done? && chat.None? && a in old(db.submissions) ==> forall g: SubmissionFile :: g.kind == ChatLog ==>
      (g in db.submissions[a].files <==> g in old(db.submissions)[a].files)
    ensures r.Done? ==> db.submissions[a].status == Accepted && db.submissions[a].acceptedAt == db.clock
    ensures r.Done? && a in old(db.submissions) ==>
      db.submissions[a].submittedAt == old(db.submissions)[a].submittedAt
    ensures r.Done? && a !in old(db.submissions) ==> db.submissions[a].submittedAt == db.clock
    ensures r.Done? ==> db.slots.Keys == old(db.slots).Keys
    ensures r.Done? ==> forall k :: k in db.slots ==> db.slots[k] == PackagedSlot(old(db.slots)[k], a)
  {
    hide Inv, OneFilePerKind, PutFile;
    if a !in db.attempts { return Missing; }
    if db.attempts[a].status != Submitted { return Refused; }
    var now := db.Now();
    var sub := Upsert(db.submissions, a, now);
    OldFiles(db.Snapshot(), a, now);
    PutFileKeeps(sub.files, artifact.(kind := Artifact));
    var files := PutFile(sub.files, artifact.(kind := Artifact));
    if chat.Some? {
      PutFileKeeps(files, chat.value.(kind := ChatLog));
      files := PutFile(files, chat.value.(kind := ChatLog));
    }
    db.submissions := db.submissions[a := sub.(files := files)];
    db.slots := MarkRecycling(db.slots, a);
    StepKeeps(old(db.Snapshot()), PackageTx(a, artifact, chat, now));
    r := Done;
  }

  /** A slot of the attempt that is assigned or submitting is now recycling. */
  function PackagedSlot(slot: Slot, a: AttemptId): Slot {
    if slot.attempt == Some(a) && slot.state in {Assigned, Submitting} then Slot(Recycling, Some(a)) else slot
  }

  lemma OldFiles(s: State, a: AttemptId, now: Time)
    requires Inv(s)
    ensures OneFilePerKind(Upsert(s.submissions, a, now).files)
  {
  }
}
