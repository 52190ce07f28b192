/** Two reachable states in which an examinee loses time. */
module PoolExample {
  import opened Wrappers
  import opened ExamState
  import opened ExamSteps
  import opened AllocationInvariant
  import opened ExamService

  const TEN: Time := 10 * 60000

  /** Attempt 1 of examinee 7 starts in the open batch 0 and waits; then its deadline is extended by ten minutes. */
  function Steps(): seq<Step> {
    [CreateBatch(0, 5, None), SetStatus(0, Open), Enroll(1, 0, 7), StartTx(1, 7, DURATION, 0), ExtendTx(1, 10.0, 0)]
  }

  function Batches(status: BatchStatus): map<BatchId, Batch> {
    map[0 := Batch(status, 5, None)]
  }

  /** The attempt waits, with this deadline. */
  function WaitingState(deadline: Time): State {
    State(Batches(Open), map[1 := Attempt(0, 7, Running, Some(0), Some(deadline), None)], map[], [QueueRow(1, 0)], map[], 0)
  }

  lemma Created()
    ensures Run(EMPTY, Steps()[..2]) == State(Batches(Open), map[], map[], [], map[], 0)
  {
    hide Run;
    var s := State(Batches(Scheduled), map[], map[], [], map[], 0);
    RunNone(EMPTY);
    RunMore(EMPTY, [], CreateBatch(0, 5, None));
    RunMore(EMPTY, [] + [CreateBatch(0, 5, None)], SetStatus(0, Open));
    assert Apply(EMPTY, CreateBatch(0, 5, None)) == s;
    assert Apply(s, SetStatus(0, Open)).batches == Batches(Open);
    assert Steps()[..2] == [] + [CreateBatch(0, 5, None)] + [SetStatus(0, Open)];
  }

  lemma Begun()
    ensures Run(EMPTY, Steps()[..4]) == WaitingState(DURATION)
  {
    hide Run;
    var s := State(Batches(Open), map[], map[], [], map[], 0);
    var t := s.(attempts := map[1 := Attempt(0, 7, Ready, None, None, None)]);
    Created();
    RunMore(EMPTY, Steps()[..2], Enroll(1, 0, 7));
    RunMore(EMPTY, Steps()[..2] + [Enroll(1, 0, 7)], StartTx(1, 7, DURATION, 0));
    assert Steps()[..4] == Steps()[..2] + [Enroll(1, 0, 7)] + [StartTx(1, 7, DURATION, 0)];
    assert Apply(s, Enroll(1, 0, 7)) == t;
    Starts(t);
  }

  lemma Starts(t: State)
    requires t == State(Batches(Open), map[1 := Attempt(0, 7, Ready, None, None, None)], map[], [], map[], 0)
    ensures Apply(t, StartTx(1, 7, DURATION, 0)) == WaitingState(DURATION)
  {
    StartIs(t, 1, 7, DURATION, 0);
    assert Idles(t.slots, 0) == {};
    assert t.queue + [QueueRow(1, 0)] == [QueueRow(1, 0)];
  }

  lemma AfterSteps()
    ensures Run(EMPTY, Steps()) == WaitingState(DURATION + TEN) && Reachable(WaitingState(DURATION + TEN))
  {
    hide Run;
    Begun();
    RunMore(EMPTY, Steps()[..4], ExtendTx(1, 10.0, 0));
    assert Steps() == Steps()[..4] + [ExtendTx(1, 10.0, 0)];
    assert Extended(WaitingState(DURATION).attempts[1], 10.0, 0) == DURATION + TEN;
    assert Apply(WaitingState(DURATION), ExtendTx(1, 10.0, 0)) == WaitingState(DURATION + TEN);
  }

  /** A start that read its deadline before the extension takes the ten minutes away again. */
  lemma StaleStart()
    ensures var s := WaitingState(DURATION + TEN);
      Run(EMPTY, Steps()[..4]) == WaitingState(DURATION) && Run(EMPTY, Steps()) == s && Reachable(s)
      && MovesEarlier(s, Apply(s, StartTx(1, 7, DURATION, 0)), 1)
  {
    hide Run, Apply;
    AfterSteps();
    Begun();
    var s := WaitingState(DURATION + TEN);
    assert Startable(s, 1, 7);
    WhenDeadlinesMoveEarlier(s, StartTx(1, 7, DURATION, 0), 1);
  }

  /** So does the slot that comes up at last. */
  lemma DrainAfterExtension()
    ensures var s := WaitingState(DURATION + TEN).(slots := map[SlotKey(0, 0) := Slot(Idle, None)]);
      Reachable(s) && MovesEarlier(s, Apply(s, DrainTx(0, 0)), 1)
  {
    hide Run, Apply;
    AfterSteps();
    var w := WaitingState(DURATION + TEN);
    var s := w.(slots := map[SlotKey(0, 0) := Slot(Idle, None)]);
    RunMore(EMPTY, Steps(), RegisterTx(0, 0, Idle));
    assert Apply(w, RegisterTx(0, 0, Idle)) == s by { Registers(w); }
    CanDrainFirst(s);
    WhenDeadlinesMoveEarlier(s, DrainTx(0, 0), 1);
  }

  lemma Registers(w: State)
    requires w == WaitingState(DURATION + TEN)
    ensures Apply(w, RegisterTx(0, 0, Idle)) == w.(slots := map[SlotKey(0, 0) := Slot(Idle, None)])
  {
  }

  lemma CanDrainFirst(s: State)
    requires s == WaitingState(DURATION + TEN).(slots := map[SlotKey(0, 0) := Slot(Idle, None)])
    ensures Waiting(s.queue, 0) == [1] && CanDrain(s, 0)
  {
    assert SlotKey(0, 0) in s.slots && 0 in Idles(s.slots, 0);
    assert s.queue[1..] == [];
  }
}
