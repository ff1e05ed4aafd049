/**
  A run in which a worker publishes a generation that has just been superseded.

  A change looks its document up and waits for the gate of one opening. Meanwhile
  the document is reopened, and the worker of the new opening installs under the
  new gate. The change then gets the old gate, finds the new opening and edits it,
  while that worker is still on its way to publish.
 */
module StoreOverlap {
  import opened Text
  import opened DocumentRecord
  import opened DocumentStore
  import opened StoreSettles

  const URI: Uri := ""

  const OPEN: Request := OpenRequest(URI, "", 0, PlainText)

  const CHANGE: Request := ChangeRequest(URI, 0, [])

  function IncOf(token: nat): Incarnation {
    Incarnation(URI, Opened("", 0, PlainText), token, [])
  }

  function WorkOf(inc: nat, generation: nat): Work {
    Work(inc, generation, "", 0, PlainText)
  }

  const RESULT: Cached := Cached(1, 0, Computed("", PlainText, 1))

  /** Opened once; the opening's handler has yet to spawn its worker. */
  const OPENED_ONCE: State :=
    State([IncOf(0)], map[URI := 0], [WorkOf(0, 1)], [Unspawned(0)], [Spawning(0, None)], [], {})

  /** A change and a reopening both wait for the first gate. */
  const BOTH_WAITING: State := OPENED_ONCE.(handlers := [Spawning(0, None), Waiting(CHANGE, 0), Waiting(OPEN, 0)])

  /** REOPENED; the change still waits for the gate of the opening that is gone. */
  const REOPENED: State :=
    State([IncOf(0), IncOf(1)], map[URI := 1], [WorkOf(0, 1), WorkOf(1, 1)], [Unspawned(0), Queued],
          [Spawning(0, None), Waiting(CHANGE, 0), Finished], [], {0})

  /** The new opening's worker has installed and holds the new gate. */
  const ABOUT_TO_PUBLISH: State :=
    REOPENED.(incs := [IncOf(0), IncOf(1).(record := Installed(Opened("", 0, PlainText), RESULT))],
              workers := [Unspawned(0), Publishing(RESULT)])

  /** The change, holding the old gate, has edited the new opening. */
  const EDITED_MEANWHILE: State :=
    State([IncOf(0), Incarnation(URI, Record("", 2, 0, PlainText, None, None), 2, [])],
          map[URI := 1], [WorkOf(0, 1), WorkOf(1, 1), WorkOf(1, 2)], [Unspawned(0), Publishing(RESULT), Unspawned(1)],
          [Spawning(0, None), Spawning(2, Some(0)), Finished], [], {0, 1})

  /** One more step of a run, its state compared part by part. */
  lemma StepTo(limit: nat, s: State, a: Action, s': State)
    requires Reachable(limit, s) && Enabled(s, a)
    requires var n := Next(limit, s, a);
             && n.incs == s'.incs && n.docs == s'.docs && n.works == s'.works && n.workers == s'.workers
             && n.handlers == s'.handlers && n.readers == s'.readers && n.cancelled == s'.cancelled
    ensures Reachable(limit, s')
  {
    var actions :| Run(limit, INITIAL, actions) == Some(s);
    RunExtends(limit, INITIAL, actions, a);
  }

  lemma ArriveFirst(limit: nat)
    ensures Reachable(limit, INITIAL.(handlers := [Holding(OPEN, None)]))
  {
    assert Run(limit, INITIAL, []) == Some(INITIAL);
    StepTo(limit, INITIAL, Arrive(OPEN), INITIAL.(handlers := [Holding(OPEN, None)]));
  }

  lemma OpenOnce(limit: nat)
    ensures Reachable(limit, OPENED_ONCE)
  {
    ArriveFirst(limit);
    StepTo(limit, INITIAL.(handlers := [Holding(OPEN, None)]), Act(0), OPENED_ONCE);
  }

  lemma BothWait(limit: nat)
    ensures Reachable(limit, BOTH_WAITING)
  {
    OpenOnce(limit);
    var s := OPENED_ONCE.(handlers := [Spawning(0, None), Waiting(CHANGE, 0)]);
    StepTo(limit, OPENED_ONCE, Arrive(CHANGE), s);
    StepTo(limit, s, Arrive(OPEN), BOTH_WAITING);
  }

  function WithThird(s: State, third: Handler): State
    requires |s.handlers| == 3
  {
    s.(handlers := [s.handlers[0], s.handlers[1], third])
  }

  /** The reopening has replaced the entry and is about to cancel what it replaced. */
  const REPLACING: State :=
    WithThird(REOPENED, Cancelling(0, Some(1), Some(0))).(workers := [Unspawned(0), Unspawned(2)], cancelled := {})

  lemma ReopeningLocks(limit: nat)
    ensures Reachable(limit, WithThird(BOTH_WAITING, Holding(OPEN, Some(0))))
  {
    BothWait(limit);
    StepTo(limit, BOTH_WAITING, LockHandler(2), WithThird(BOTH_WAITING, Holding(OPEN, Some(0))));
  }

  lemma Replace(limit: nat)
    ensures Reachable(limit, REPLACING)
  {
    ReopeningLocks(limit);
    StepTo(limit, WithThird(BOTH_WAITING, Holding(OPEN, Some(0))), Act(2), REPLACING);
  }

  lemma Reopen(limit: nat)
    ensures Reachable(limit, WithThird(REOPENED, Leaving(Some(0))))
  {
    Replace(limit);
    var s := WithThird(REPLACING, Spawning(1, Some(0))).(cancelled := {0});
    StepTo(limit, REPLACING, CancelPrevious(2), s);
    StepTo(limit, s, Spawn(2), WithThird(REOPENED, Leaving(Some(0))));
  }

  /** The new opening's worker at one of its stages. */
  function NewWorkerAt(worker: Worker): State {
    REOPENED.(workers := [Unspawned(0), worker])
  }

  lemma StartNew(limit: nat)
    ensures Reachable(limit, NewWorkerAt(Computing))
  {
    Reopen(limit);
    StepTo(limit, WithThird(REOPENED, Leaving(Some(0))), UnlockHandler(2), REOPENED);
    StepTo(limit, REOPENED, Begin(1), NewWorkerAt(Computing));
  }

  lemma ComputeNew(limit: nat)
    ensures Reachable(limit, NewWorkerAt(Ready(RESULT.analysis)))
  {
    StartNew(limit);
    StepTo(limit, NewWorkerAt(Computing), Compute(1, true), NewWorkerAt(Ready(RESULT.analysis)));
  }

  lemma LockNewGate(limit: nat)
    ensures Reachable(limit, NewWorkerAt(Deciding(RESULT.analysis)))
  {
    ComputeNew(limit);
    StepTo(limit, NewWorkerAt(Ready(RESULT.analysis)), LockWorker(1), NewWorkerAt(Deciding(RESULT.analysis)));
  }

  const CHANGE_HOLDS: State := ABOUT_TO_PUBLISH.(handlers := [Spawning(0, None), Holding(CHANGE, Some(0)), Finished])

  lemma InstallNew(limit: nat)
    ensures Reachable(limit, ABOUT_TO_PUBLISH)
  {
    LockNewGate(limit);
    StepTo(limit, NewWorkerAt(Deciding(RESULT.analysis)), Decide(1), ABOUT_TO_PUBLISH);
  }

  lemma LockOldGate(limit: nat)
    ensures Reachable(limit, CHANGE_HOLDS)
  {
    InstallNew(limit);
    StepTo(limit, ABOUT_TO_PUBLISH, LockHandler(1), CHANGE_HOLDS);
  }

  lemma EditMeanwhile(limit: nat)
    ensures Reachable(limit, EDITED_MEANWHILE)
  {
    LockOldGate(limit);
    assert Changed(CHANGE_HOLDS.incs[1].record, 0, []) == Record("", 2, 0, PlainText, None, None);
    StepTo(limit, CHANGE_HOLDS, Act(1), EDITED_MEANWHILE);
  }

  /** Holding a gate while publishing does not keep the published generation current. */
  lemma PublicationMayBeSuperseded(limit: nat)
    ensures exists s, t :: Reachable(limit, s) && Enabled(s, Publish(t)) && !Current(s.incs, s.docs, s.works, t)
  {
    EditMeanwhile(limit);
    assert Enabled(EDITED_MEANWHILE, Publish(1));
    assert !Current(EDITED_MEANWHILE.incs, EDITED_MEANWHILE.docs, EDITED_MEANWHILE.works, 1);
  }
}
