/**
  Left alone, the store settles: its handlers and workers never deadlock or run on forever,
  and when they are done every open document has the result for all its edits.
 */
module StoreSettles {
  import opened Text
  import opened DocumentStore
  import opened StoreInvariant
  import opened StoreActs
  import opened StoreLedger

  predicate IsDone(worker: Worker) {
    worker.Accepted? || worker.Cancelled? || worker.Stale?
  }

  /** No handler and no worker has anything left to do. */
  predicate Quiescent(s: State) {
    && (forall h :: 0 <= h < |s.handlers| ==> s.handlers[h].Finished?)
    && (forall t :: 0 <= t < |s.workers| ==> IsDone(s.workers[t]))
  }

  /** The text is the opened one with every edit applied, and what is cached and shown to readers is its result. */
  predicate Settled(limit: nat, l: Ledger, i: nat, inc: Incarnation) {
    && i < |l.lives| && OpeningAgrees(l.lives[i], inc)
    && inc.record.cached == inc.record.watch == Some(ResultAt(limit, l, i, Newest(l.lives[i])))
  }

  /** Every request for a document open at the time, or opening one, has been acted on. */
  predicate AllActedOn(l: Ledger) {
    forall h :: 0 <= h < |l.fates| ==> !l.fates[h].Pending?
  }

  /** Every open document is settled. */
  predicate AllSettled(limit: nat, l: Ledger, s: State) {
    s.docs == l.open
    && forall uri <- l.open :: l.open[uri] < |s.incs| && Settled(limit, l, l.open[uri], s.incs[l.open[uri]])
  }

  /** The present work of an open document is never cancelled. */
  lemma CurrentIsNeverCancelled(limit: nat, s: State, uri: Uri)
    requires Reachable(limit, s) && uri in s.docs
    ensures s.docs[uri] < |s.incs| && s.incs[s.docs[uri]].token !in s.cancelled
    ensures Current(s.incs, s.docs, s.works, s.incs[s.docs[uri]].token)
  {
    ReachableKeeps(limit, s);
    assert IncOk(limit, s.works, s.docs[uri], s.incs[s.docs[uri]]);
  }

  /** With nothing left to do, the present work of an open document has been installed. */
  lemma QuiescentIsInstalled(limit: nat, s: State, uri: Uri)
    requires Reachable(limit, s) && Quiescent(s) && uri in s.docs
    ensures s.docs[uri] < |s.incs| && s.incs[s.docs[uri]].token < |s.workers| == |s.works|
    ensures var inc := s.incs[s.docs[uri]];
            && HasInstalled(s.workers[inc.token]) && inc.record.watch == inc.record.cached == Some(s.workers[inc.token].cached)
            && s.works[inc.token].inc == s.docs[uri] && s.works[inc.token].generation == inc.record.generation
  {
    ReachableKeeps(limit, s);
    CurrentIsNeverCancelled(limit, s, uri);
    var inc := s.incs[s.docs[uri]];
    assert IncOk(limit, s.works, s.docs[uri], inc);
    assert ResultOk(limit, s.incs, s.docs, s.works, s.workers[inc.token], inc.token);
    assert IsDone(s.workers[inc.token]);
  }

  /**
    When a run leaves nothing to do, every request due has been acted on, and
    every open document has the result of its opened text with all its edits.
   */
  lemma QuiescentIsSettled(limit: nat, actions: seq<Action>, s: State)
    requires Run(limit, INITIAL, actions) == Some(s) && Quiescent(s)
    ensures AllActedOn(LedgerOf(actions)) && AllSettled(limit, LedgerOf(actions), s)
  {
    RunsAgree(limit, s, actions);
    RestIsActedOn(LedgerOf(actions), s);
    forall uri <- s.docs
      ensures s.docs[uri] < |s.incs| && Settled(limit, LedgerOf(actions), s.docs[uri], s.incs[s.docs[uri]])
    {
      QuiescentIsInstalled(limit, s, uri);
      InstalledIsSettled(limit, LedgerOf(actions), s, s.docs[uri]);
    }
  }

  lemma RestIsActedOn(l: Ledger, s: State)
    requires HandlersAgree(l, s.handlers) && Quiescent(s)
    ensures AllActedOn(l)
  {
    forall h | 0 <= h < |l.fates|
      ensures !l.fates[h].Pending?
    {
      assert HandlerAgrees(l, s.handlers[h], h);
    }
  }

  lemma InstalledIsSettled(limit: nat, l: Ledger, s: State, i: nat)
    requires OpeningsAgree(l, s.incs) && WorkersAgree(limit, l, s.works, s.workers)
    requires i < |s.incs| && s.incs[i].token < |s.workers| == |s.works| && HasInstalled(s.workers[s.incs[i].token])
    requires s.incs[i].record.watch == s.incs[i].record.cached == Some(s.workers[s.incs[i].token].cached)
    requires s.works[s.incs[i].token].inc == i && s.works[s.incs[i].token].generation == s.incs[i].record.generation
    ensures Settled(limit, l, i, s.incs[i])
  {
    var t := s.incs[i].token;
    assert WorkerAgrees(limit, l, s.works[t], s.workers[t], t) && OpeningAgrees(l.lives[i], s.incs[i]);
  }

  // ----- No deadlock -----

  /** A step of a handler, worker or reader already under way. */
  predicate IsInternal(a: Action) {
    !a.Arrive? && !a.Subscribe?
  }

  /** Where a handler or worker goes next, when it waits for no gate. */
  function HandlerStep(handler: Handler, h: nat): Action {
    match handler
    case Waiting(_, _) => LockHandler(h)
    case Holding(_, _) => Act(h)
    case Cancelling(_, _, _) => CancelPrevious(h)
    case Spawning(_, _) => Spawn(h)
    case _ => UnlockHandler(h)
  }

  function WorkerStep(worker: Worker, t: nat): Action {
    match worker
    case Unspawned(h) => Spawn(h)
    case Queued => Begin(t)
    case Computing => Compute(t, true)
    case Ready(_) => LockWorker(t)
    case Deciding(_) => Decide(t)
    case Publishing(_) => Publish(t)
    case _ => UnlockWorker(t)
  }

  lemma HandlerCanStep(limit: nat, s: State, h: nat)
    requires Inv(limit, s) && h < |s.handlers| && !s.handlers[h].Waiting? && !s.handlers[h].Finished?
    ensures Enabled(s, HandlerStep(s.handlers[h], h))
  {
    assert CarriedOk(s.workers, s.handlers[h], h);
  }

  /** Whoever holds a gate can take its next step, so a waiter waits for somebody who moves. */
  lemma HolderCanStep(limit: nat, s: State, g: nat) returns (a: Action)
    requires Inv(limit, s) && !Free(s, g)
    ensures IsInternal(a) && Enabled(s, a)
  {
    if h: nat :| h < |s.handlers| && HandlerGate(s.handlers[h]) == Some(g) {
      HandlerCanStep(limit, s, h);
      return HandlerStep(s.handlers[h], h);
    }
    var t: nat :| t < |s.workers| && HoldsGate(s.workers[t]) && s.works[t].inc == g;
    return WorkerStep(s.workers[t], t);
  }

  lemma HandlerProgress(limit: nat, s: State, h: nat) returns (a: Action)
    requires Inv(limit, s) && h < |s.handlers| && !s.handlers[h].Finished?
    ensures IsInternal(a) && Enabled(s, a)
  {
    if !s.handlers[h].Waiting? {
      HandlerCanStep(limit, s, h);
      return HandlerStep(s.handlers[h], h);
    }
    if Free(s, s.handlers[h].lock) {
      return LockHandler(h);
    }
    a := HolderCanStep(limit, s, s.handlers[h].lock);
  }

  lemma WorkerProgress(limit: nat, s: State, t: nat) returns (a: Action)
    requires Inv(limit, s) && t < |s.workers| && !IsDone(s.workers[t])
    ensures IsInternal(a) && Enabled(s, a)
  {
    if s.workers[t].Unspawned? {
      assert UnspawnedOk(s.handlers, s.workers[t], t);
      a := HandlerProgress(limit, s, s.workers[t].handler);
    } else if s.workers[t].Ready? && !Free(s, s.works[t].inc) {
      a := HolderCanStep(limit, s, s.works[t].inc);
    } else {
      a := WorkerStep(s.workers[t], t);
    }
  }

  /** A state with something left to do has a step to take. */
  lemma StuckIsQuiescent(limit: nat, s: State)
    requires Inv(limit, s) && forall a :: IsInternal(a) ==> !Enabled(s, a)
    ensures Quiescent(s)
  {
    forall h | 0 <= h < |s.handlers|
      ensures s.handlers[h].Finished?
    {
      if !s.handlers[h].Finished? {
        var a := HandlerProgress(limit, s, h);
      }
    }
    forall t | 0 <= t < |s.workers|
      ensures IsDone(s.workers[t])
    {
      if !IsDone(s.workers[t]) {
        var a := WorkerProgress(limit, s, t);
      }
    }
  }

  // ----- No endless run -----

  /** Steps a handler may still cause, its worker's included. */
  const HANDLER_RANK: Handler -> nat := (handler: Handler) =>
    match handler
    case Waiting(_, _) => 16
    case Holding(_, _) => 15
    case Cancelling(_, _, _) => 4
    case Spawning(_, _) => 3
    case Leaving(_) => 1
    case Finished => 0

  const WORKER_RANK: Worker -> nat := (worker: Worker) =>
    match worker
    case Unspawned(_) => 8
    case Queued => 7
    case Computing => 6
    case Ready(_) => 5
    case Deciding(_) => 4
    case Publishing(_) => 3
    case Published(_) => 2
    case _ => 0

  const READER_RANK: Reader -> nat := (reader: Reader) => if reader.Subscribed? then 1 else 0

  function Sum<T>(rank: T -> nat, xs: seq<T>): nat {
    if xs == [] then 0 else Sum(rank, xs[..|xs| - 1]) + rank(xs[|xs| - 1])
  }

  lemma {:induction false} SumUpdate<T>(rank: T -> nat, xs: seq<T>, i: nat, x: T)
    requires i < |xs|
    ensures Sum(rank, xs[i := x]) + rank(xs[i]) == Sum(rank, xs) + rank(x)
    decreases |xs|
  {
    var n := |xs| - 1;
    if i < n {
      assert xs[i := x][..n] == xs[..n][i := x];
      SumUpdate(rank, xs[..n], i, x);
    } else {
      assert xs[i := x][..n] == xs[..n];
    }
  }

  lemma SumAppend<T>(rank: T -> nat, xs: seq<T>, x: T)
    ensures Sum(rank, xs + [x]) == Sum(rank, xs) + rank(x)
  {
    assert (xs + [x])[..|xs|] == xs;
  }

  function Measure(s: State): nat {
    Sum(HANDLER_RANK, s.handlers) + Sum(WORKER_RANK, s.workers) + Sum(READER_RANK, s.readers)
  }

  lemma HandlerDescends(limit: nat, s: State, h: nat, a: Action)
    requires Enabled(s, a) && (a == LockHandler(h) || a == CancelPrevious(h) || a == UnlockHandler(h))
    ensures Measure(Next(limit, s, a)) < Measure(s)
  {
    SumUpdate(HANDLER_RANK, s.handlers, h, Next(limit, s, a).handlers[h]);
  }

  lemma WorkerDescends(limit: nat, s: State, t: nat, a: Action)
    requires Enabled(s, a)
    requires match a
             case Begin(k) => k == t
             case Compute(k, _) => k == t
             case LockWorker(k) => k == t
             case Decide(k) => k == t
             case Publish(k) => k == t
             case UnlockWorker(k) => k == t
             case _ => false
    ensures Measure(Next(limit, s, a)) < Measure(s)
  {
    SumUpdate(WORKER_RANK, s.workers, t, Next(limit, s, a).workers[t]);
  }

  lemma ActDescends(limit: nat, s: State, h: nat)
    requires Enabled(s, Act(h))
    ensures Measure(Acted(s, h)) < Measure(s)
  {
    var s' := Acted(s, h);
    SumUpdate(HANDLER_RANK, s.handlers, h, s'.handlers[h]);
    SumAppend(WORKER_RANK, s.workers, Unspawned(h));
    ActCosts(s, h);
  }

  lemma ActCosts(s: State, h: nat)
    requires Enabled(s, Act(h))
    ensures var s' := Acted(s, h);
            && s'.readers == s.readers && h < |s'.handlers| && s'.handlers == s.handlers[h := s'.handlers[h]]
            && HANDLER_RANK(s'.handlers[h]) <= 4
            && (s'.workers == s.workers || s'.workers == s.workers + [Unspawned(h)])
  {
  }

  lemma SpawnDescends(limit: nat, s: State, h: nat)
    requires Enabled(s, Spawn(h)) && CarriedOk(s.workers, s.handlers[h], h)
    ensures Measure(Next(limit, s, Spawn(h))) < Measure(s)
  {
    SumUpdate(HANDLER_RANK, s.handlers, h, Leaving(s.handlers[h].gate));
    SumUpdate(WORKER_RANK, s.workers, s.handlers[h].token, Queued);
  }

  lemma ReaderDescends(limit: nat, s: State, r: nat, a: Action)
    requires Enabled(s, a) && (a == Borrow(r) || a == GiveUp(r))
    ensures Measure(Next(limit, s, a)) < Measure(s)
  {
    SumUpdate(READER_RANK, s.readers, r, Next(limit, s, a).readers[r]);
  }

  /** Every such step brings the store closer to rest. */
  lemma StepDescends(limit: nat, s: State, a: Action)
    requires Inv(limit, s) && Enabled(s, a) && IsInternal(a)
    ensures Measure(Next(limit, s, a)) < Measure(s)
  {
    match a {
      case Act(h) => ActDescends(limit, s, h);
      case Spawn(h) =>
        assert CarriedOk(s.workers, s.handlers[h], h);
        SpawnDescends(limit, s, h);
      case LockHandler(h) => HandlerDescends(limit, s, h, a);
      case CancelPrevious(h) => HandlerDescends(limit, s, h, a);
      case UnlockHandler(h) => HandlerDescends(limit, s, h, a);
      case Borrow(r) => ReaderDescends(limit, s, r, a);
      case GiveUp(r) => ReaderDescends(limit, s, r, a);
      case Begin(t) => WorkerDescends(limit, s, t, a);
      case Compute(t, _) => WorkerDescends(limit, s, t, a);
      case LockWorker(t) => WorkerDescends(limit, s, t, a);
      case Decide(t) => WorkerDescends(limit, s, t, a);
      case Publish(t) => WorkerDescends(limit, s, t, a);
      case UnlockWorker(t) => WorkerDescends(limit, s, t, a);
    }
  }

  predicate AllInternal(actions: seq<Action>) {
    forall k :: 0 <= k < |actions| ==> IsInternal(actions[k])
  }

  /** A run with no new request takes no more steps than the measure it starts from. */
  lemma {:induction false} InternalRunsEnd(limit: nat, s: State, actions: seq<Action>)
    requires Inv(limit, s) && AllInternal(actions) && Run(limit, s, actions).Some?
    ensures |actions| + Measure(Run(limit, s, actions).value) <= Measure(s)
    decreases |actions|
  {
    if actions != [] {
      var n := |actions| - 1;
      assert actions[..n] + [actions[n]] == actions;
      InternalRunsEnd(limit, s, actions[..n]);
      RunsKeep(limit, s, actions[..n]);
      StepDescends(limit, Run(limit, s, actions[..n]).value, actions[n]);
    }
  }

  /** However they interleave, without new requests they come to rest, with all requests acted on and all documents settled. */
  lemma StoreComesToRest(limit: nat, s: State, requests: seq<Action>, actions: seq<Action>)
    requires Run(limit, INITIAL, requests) == Some(s) && AllInternal(actions) && Run(limit, s, actions).Some?
    requires forall a :: IsInternal(a) ==> !Enabled(Run(limit, s, actions).value, a)
    ensures |actions| <= Measure(s)
    ensures var r := Run(limit, s, actions).value;
            && Quiescent(r)
            && AllActedOn(LedgerOf(requests + actions)) && AllSettled(limit, LedgerOf(requests + actions), r)
            && (forall k :: 0 <= k < |r.readers| ==> r.readers[k].Answered?)
  {
    RunsKeep(limit, INITIAL, requests);
    InternalRunsEnd(limit, s, actions);
    var r := Run(limit, s, actions).value;
    RunsKeep(limit, s, actions);
    StuckIsQuiescent(limit, r);
    RunsCompose(limit, INITIAL, s, requests, actions);
    QuiescentIsSettled(limit, requests + actions, r);
    assert Reachable(limit, r);
    forall k | 0 <= k < |r.readers|
      ensures r.readers[k].Answered?
    {
      ReaderCanStep(limit, r, k);
    }
  }

  /** At rest, a reader still waiting could answer from its opening, or give up on one that is gone. */
  lemma ReaderCanStep(limit: nat, s: State, k: nat)
    requires Reachable(limit, s) && Quiescent(s) && k < |s.readers|
    ensures s.readers[k].Answered? || Enabled(s, Borrow(k)) || Enabled(s, GiveUp(k))
  {
    ReachableKeeps(limit, s);
    assert ReaderOk(s.incs, s.readers[k]);
    if s.readers[k].Subscribed? {
      var i := s.readers[k].inc;
      if Live(s.incs, s.docs, i) {
        QuiescentIsInstalled(limit, s, s.incs[i].uri);
        assert s.incs[i].record.watch.Some?;
      }
      if s.incs[i].record.watch.Some? {
        assert Enabled(s, Borrow(k));
      } else {
        assert Enabled(s, GiveUp(k));
      }
    }
  }

  lemma RunExtends(limit: nat, s: State, before: seq<Action>, a: Action)
    ensures Run(limit, s, before + [a]) == Take(limit, Run(limit, s, before), a)
  {
    assert (before + [a])[..|before|] == before;
  }

  lemma ComposeStep(limit: nat, s: State, m: State, first: seq<Action>, second: seq<Action>, a: Action)
    requires Run(limit, s, first + second) == Run(limit, m, second)
    ensures Run(limit, s, first + (second + [a])) == Run(limit, m, second + [a])
  {
    assert first + (second + [a]) == first + second + [a];
    RunExtends(limit, s, first + second, a);
    RunExtends(limit, m, second, a);
  }

  lemma {:induction false} RunsCompose(limit: nat, s: State, m: State, first: seq<Action>, second: seq<Action>)
    requires Run(limit, s, first) == Some(m)
    ensures Run(limit, s, first + second) == Run(limit, m, second)
    decreases |second|
  {
    if second == [] {
      assert first + second == first;
    } else {
      var n := |second| - 1;
      assert second == second[..n] + [second[n]];
      RunsCompose(limit, s, m, first, second[..n]);
      ComposeStep(limit, s, m, first, second[..n], second[n]);
    }
  }
}
