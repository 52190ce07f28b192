/** The tables of the exam slot pool, and what the queries read from them. */
module ExamState {
  import opened Wrappers

  type BatchId = nat
  type AttemptId = nat
  type UserId = nat

  /** Milliseconds. */
  type Time = int

  datatype BatchStatus = Scheduled | Open | Closed | Cancelled

  datatype Batch = Batch(status: BatchStatus, capacity: int, warmCount: Option<nat>)

  datatype AttemptStatus = Ready | Running | Submitted | Expired | Void

  datatype Attempt = Attempt(
    batch: BatchId, examinee: UserId, status: AttemptStatus,
    startsAt: Option<Time>, deadlineAt: Option<Time>, submittedAt: Option<Time>)

  datatype SlotState = Down | Warming | Idle | Assigned | Submitting | Recycling

  /** A row of hosted.slots. `Idle` is the source's state 'ready'. */
  datatype Slot = Slot(state: SlotState, attempt: Option<AttemptId>)

  datatype SlotKey = SlotKey(batch: BatchId, no: nat)

  /** The queue is kept in the order of enqueued_at, which is strictly increasing. */
  datatype QueueRow = QueueRow(attempt: AttemptId, batch: BatchId)

  datatype FileKind = Artifact | ChatLog

  datatype SubmissionFile = SubmissionFile(kind: FileKind, ref: string, sha256: string, sizeBytes: nat)

  datatype SubmissionStatus = Received | Validating | Accepted | Rejected

  datatype Submission = Submission(
    status: SubmissionStatus, acceptedAt: Time, submittedAt: Time, files: seq<SubmissionFile>)

  datatype State = State(
    batches: map<BatchId, Batch>, attempts: map<AttemptId, Attempt>, slots: map<SlotKey, Slot>,
    queue: seq<QueueRow>, submissions: map<AttemptId, Submission>, replicas: nat)

  const EMPTY := State(map[], map[], map[], [], map[], 0)

  /** DEFAULT_DURATION_MIN, in milliseconds. */
  const DURATION: Time := 120 * 60000

  const MAX_SLOTS := 50

  predicate IsBusy(st: SlotState) {
    st == Assigned || st == Submitting || st == Recycling
  }

  /** Attempts that may still be started, extended or force-submitted. */
  predicate IsLive(st: AttemptStatus) {
    st == Ready || st == Running
  }

  function Waiting(queue: seq<QueueRow>, b: BatchId): seq<AttemptId> {
    if queue == [] then []
    else if queue[0].batch == b then [queue[0].attempt] + Waiting(queue[1..], b)
    else Waiting(queue[1..], b)
  }

  function CountWaiting(queue: seq<QueueRow>, b: BatchId): nat {
    |Waiting(queue, b)|
  }

  predicate IsQueued(queue: seq<QueueRow>, a: AttemptId) {
    exists row :: row in queue && row.attempt == a
  }

  /** DELETE ... WHERE attempt_id = a */
  function Without(queue: seq<QueueRow>, a: AttemptId): seq<QueueRow> {
    if queue == [] then []
    else if queue[0].attempt == a then Without(queue[1..], a)
    else [queue[0]] + Without(queue[1..], a)
  }

  /** DELETE ... WHERE batch_id = b */
  function WithoutBatch(queue: seq<QueueRow>, b: BatchId): seq<QueueRow> {
    if queue == [] then []
    else if queue[0].batch == b then WithoutBatch(queue[1..], b)
    else [queue[0]] + WithoutBatch(queue[1..], b)
  }

  function Idles(slots: map<SlotKey, Slot>, b: BatchId): set<nat> {
    set k | k in slots && k.batch == b && slots[k].state == Idle :: k.no
  }

  function BusyNumbers(slots: map<SlotKey, Slot>, b: BatchId): set<nat> {
    set k | k in slots && k.batch == b && IsBusy(slots[k].state) :: k.no
  }

  predicate HasSlot(slots: map<SlotKey, Slot>, a: AttemptId) {
    exists k :: k in slots && slots[k].attempt == Some(a)
  }

  /** The pool size of a batch. */
  function PoolSize(batch: Batch): int {
    if batch.capacity < MAX_SLOTS then batch.capacity else MAX_SLOTS
  }

  /** ORDER BY slot_no LIMIT 1 */
  ghost function Least(s: set<nat>): (r: nat)
    requires s != {}
    ensures r in s && forall x :: x in s ==> r <= x
  {
    var y :| y in s;
    LeastExists(s, y);
    var r :| r in s && forall x :: x in s ==> r <= x;
    r
  }

  lemma {:induction false} LeastExists(s: set<nat>, y: nat)
    requires y in s
    ensures exists r :: r in s && forall x :: x in s ==> r <= x
    decreases y
  {
    if x :| x in s && x < y {
      LeastExists(s, x);
    }
  }
}
