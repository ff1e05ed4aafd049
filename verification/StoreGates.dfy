/**
  What the publication gates guarantee. A gate has one holder at a time, but it is
  the gate of one opening of a document, and a handler may hold the gate of an
  opening that is gone. So a worker that installs under its gate publishes a
  current result exactly as long as no handler acts on the document, and it is
  safe from that exactly when every handler on its way to the document goes
  through the same gate.
 */
module StoreGates {
  import opened Text
  import opened DocumentStore
  import opened StoreInvariant
  import opened StoreActs
  import opened StoreTheorems
  import opened StoreSettles

  // ----- One holder -----

  /** No two handlers hold one gate. */
  predicate HandlersExclusive(handlers: seq<Handler>) {
    forall a, b ::
      (0 <= a < |handlers| && 0 <= b < |handlers| && HandlerGate(handlers[a]).Some?
       && HandlerGate(handlers[a]) == HandlerGate(handlers[b]))
      ==> a == b
  }

  /** No handler holds the gate a worker holds. */
  predicate Apart(handlers: seq<Handler>, works: seq<Work>, workers: seq<Worker>)
    requires |workers| == |works|
  {
    forall h, t :: 0 <= h < |handlers| && 0 <= t < |workers| && HoldsGate(workers[t]) ==>
      HandlerGate(handlers[h]) != Some(works[t].inc)
  }

  /** A gate is held by one handler, or by one worker, or by nobody. */
  predicate OneHolder(s: State) {
    && |s.workers| == |s.works|
    && HandlersExclusive(s.handlers) && Apart(s.handlers, s.works, s.workers) && Exclusive(s.works, s.workers)
  }

  /** Whoever holds a gate afterwards held it before. */
  predicate GatesShrink(s: State, s': State) {
    && s.works <= s'.works && |s.workers| == |s.works| && |s'.workers| == |s'.works|
    && (forall h :: 0 <= h < |s'.handlers| && HandlerGate(s'.handlers[h]).Some? ==>
          h < |s.handlers| && HandlerGate(s'.handlers[h]) == HandlerGate(s.handlers[h]))
    && (forall t :: 0 <= t < |s'.workers| && HoldsGate(s'.workers[t]) ==>
          t < |s.workers| && HoldsGate(s.workers[t]))
  }

  lemma ShrinkKeeps(s: State, s': State)
    requires OneHolder(s) && GatesShrink(s, s')
    ensures OneHolder(s')
  {
  }

  lemma ActShrinks(s: State, h: nat)
    requires Enabled(s, Act(h))
    ensures GatesShrink(s, Acted(s, h))
  {
  }

  lemma InstallShrinks(s: State, t: nat)
    requires Enabled(s, Decide(t))
    ensures GatesShrink(s, Decided(s, t))
  {
  }

  lemma PublishShrinks(s: State, t: nat)
    requires Enabled(s, Publish(t))
    ensures GatesShrink(s, PublishedWork(s, t))
  {
  }

  lemma QuietShrinks(limit: nat, s: State, a: Action)
    requires Enabled(s, a) && IsQuiet(a) && !a.LockHandler? && !a.LockWorker?
    ensures GatesShrink(s, Next(limit, s, a))
  {
  }

  lemma StepShrinks(limit: nat, s: State, a: Action)
    requires Enabled(s, a) && !a.LockHandler? && !a.LockWorker?
    ensures GatesShrink(s, Next(limit, s, a))
  {
    match a {
      case Act(h) => ActShrinks(s, h);
      case Decide(t) => InstallShrinks(s, t);
      case Publish(t) => PublishShrinks(s, t);
      case _ => QuietShrinks(limit, s, a);
    }
  }

  lemma LockHandlerKeepsOne(limit: nat, s: State, h: nat)
    requires OneHolder(s) && Enabled(s, LockHandler(h))
    ensures OneHolder(Next(limit, s, LockHandler(h)))
  {
  }

  lemma LockWorkerKeepsOne(limit: nat, s: State, t: nat)
    requires OneHolder(s) && Enabled(s, LockWorker(t))
    ensures OneHolder(Next(limit, s, LockWorker(t)))
  {
  }

  lemma StepKeepsOne(limit: nat, s: State, a: Action)
    requires OneHolder(s) && Enabled(s, a)
    ensures OneHolder(Next(limit, s, a))
  {
    match a {
      case LockHandler(h) => LockHandlerKeepsOne(limit, s, h);
      case LockWorker(t) => LockWorkerKeepsOne(limit, s, t);
      case _ =>
        StepShrinks(limit, s, a);
        ShrinkKeeps(s, Next(limit, s, a));
    }
  }

  lemma {:induction false} RunsKeepOne(limit: nat, s: State, actions: seq<Action>)
    requires Inv(limit, s) && OneHolder(s) && Run(limit, s, actions).Some?
    ensures Inv(limit, Run(limit, s, actions).value) && OneHolder(Run(limit, s, actions).value)
    decreases |actions|
  {
    if actions != [] {
      var n := |actions| - 1;
      RunsKeepOne(limit, s, actions[..n]);
      StepKeepsOne(limit, Run(limit, s, actions[..n]).value, actions[n]);
      StepKeeps(limit, Run(limit, s, actions[..n]).value, actions[n]);
    }
  }

  /** In every reachable state no gate is held twice, by handlers or workers. */
  lemma GatesAreExclusive(limit: nat, s: State)
    requires Reachable(limit, s)
    ensures Inv(limit, s) && OneHolder(s)
  {
    var actions :| Run(limit, INITIAL, actions) == Some(s);
    RunsKeepOne(limit, INITIAL, actions);
  }

  // ----- Current until acted on -----

  /** The document a work item is of. */
  function UriOf(s: State, t: nat): Uri
    requires Shape(s) && t < |s.works|
  {
    s.incs[s.works[t].inc].uri
  }

  /** The action is a handler's act on this document. */
  predicate ActsOn(s: State, a: Action, uri: Uri) {
    a.Act? && a.h < |s.handlers| && s.handlers[a.h].Holding? && s.handlers[a.h].request.uri == uri
  }

  /** Only an act on its document makes current work superseded, and any such act does. */
  lemma OnlyActsSupersede(limit: nat, s: State, a: Action, t: nat)
    requires Inv(limit, s) && Enabled(s, a) && Current(s.incs, s.docs, s.works, t)
    ensures var s' := Next(limit, s, a);
            Current(s'.incs, s'.docs, s'.works, t) <==> !ActsOn(s, a, UriOf(s, t))
  {
    if a.Act? {
      ActOnSupersedes(limit, s, a.h, t);
    } else if a.Decide? {
      DecideKeepsHeads(s, a.t);
      CurrentByHeads(s.incs, Decided(s, a.t).incs, s.docs, s.works, t);
    } else if a.Publish? {
      PublishKeepsHeads(s, a.t);
      CurrentByHeads(s.incs, PublishedWork(s, a.t).incs, s.docs, s.works, t);
    } else {
      QuietStep(limit, s, a);
    }
  }

  lemma ActOnSupersedes(limit: nat, s: State, h: nat, t: nat)
    requires Inv(limit, s) && Enabled(s, Act(h)) && Current(s.incs, s.docs, s.works, t)
    ensures var s' := Acted(s, h);
            Current(s'.incs, s'.docs, s'.works, t) <==> s.handlers[h].request.uri != UriOf(s, t)
  {
    assert IncOk(limit, s.works, s.works[t].inc, s.incs[s.works[t].inc]);
  }

  /** A worker with its gate keeps it until it is done, and never takes it again. */
  predicate HoldsOrDone(worker: Worker) {
    HoldsGate(worker) || IsDone(worker)
  }

  lemma StepHolds(limit: nat, s: State, a: Action, t: nat)
    requires Inv(limit, s) && Enabled(s, a) && t < |s.workers| && HoldsOrDone(s.workers[t])
    ensures var s' := Next(limit, s, a);
            && t < |s'.workers| && HoldsOrDone(s'.workers[t])
            && (HoldsGate(s'.workers[t]) ==> HoldsGate(s.workers[t]))
  {
    match a {
      case Spawn(h) =>
        assert CarriedOk(s.workers, s.handlers[h], h);
        SpawnHolds(limit, s, h, t);
      case Act(h) => ActAppends(s, h);
      case Decide(k) => DecideHolds(s, k, t);
      case Publish(k) => PublishHolds(s, k, t);
      case _ => QuietHolds(limit, s, a, t);
    }
  }

  lemma SpawnHolds(limit: nat, s: State, h: nat, t: nat)
    requires Enabled(s, Spawn(h)) && CarriedOk(s.workers, s.handlers[h], h)
    requires t < |s.workers| && HoldsOrDone(s.workers[t])
    ensures Next(limit, s, Spawn(h)).workers[t] == s.workers[t]
  {
  }

  lemma ActAppends(s: State, h: nat)
    requires Enabled(s, Act(h))
    ensures s.workers <= Acted(s, h).workers
  {
  }

  lemma DecideHolds(s: State, k: nat, t: nat)
    requires Enabled(s, Decide(k)) && t < |s.workers|
    ensures var workers := Decided(s, k).workers;
            |workers| == |s.workers|
            && if t == k then HoldsOrDone(workers[t]) else workers[t] == s.workers[t]
  {
  }

  lemma PublishHolds(s: State, k: nat, t: nat)
    requires Enabled(s, Publish(k)) && t < |s.workers|
    ensures var workers := PublishedWork(s, k).workers;
            |workers| == |s.workers|
            && if t == k then HoldsGate(workers[t]) else workers[t] == s.workers[t]
  {
  }

  lemma QuietHolds(limit: nat, s: State, a: Action, t: nat)
    requires Enabled(s, a) && IsQuiet(a) && !a.Spawn? && t < |s.workers| && HoldsOrDone(s.workers[t])
    ensures var s' := Next(limit, s, a);
            && t < |s'.workers| && HoldsOrDone(s'.workers[t])
            && (HoldsGate(s'.workers[t]) ==> HoldsGate(s.workers[t]))
  {
  }

  /** Action `k` of a run from `s` is a handler's act on this document. */
  predicate ActsAt(limit: nat, s: State, actions: seq<Action>, k: nat, uri: Uri)
    requires k < |actions|
  {
    var m := Run(limit, s, actions[..k]);
    m.Some? && ActsOn(m.value, actions[k], uri)
  }

  predicate NobodyActs(limit: nat, s: State, actions: seq<Action>, uri: Uri) {
    forall k :: 0 <= k < |actions| ==> !ActsAt(limit, s, actions, k, uri)
  }

  /** Every act on this document is by a handler that holds no gate, or some other one. */
  predicate OnlyForeignActs(limit: nat, s: State, actions: seq<Action>, uri: Uri, gate: nat) {
    forall k :: 0 <= k < |actions| && ActsAt(limit, s, actions, k, uri) ==>
      HandlerGate(Run(limit, s, actions[..k]).value.handlers[actions[k].h]) != Some(gate)
  }

  lemma PrefixOfPrefix(actions: seq<Action>, n: nat, k: nat)
    requires k < n <= |actions|
    ensures actions[..n][..k] == actions[..k] && actions[..n][k] == actions[k]
  {
  }

  lemma NobodyActsOneMore(limit: nat, s: State, actions: seq<Action>, n: nat, uri: Uri)
    requires |actions| == n + 1
    ensures NobodyActs(limit, s, actions, uri)
            <==> NobodyActs(limit, s, actions[..n], uri) && !ActsAt(limit, s, actions, n, uri)
  {
    forall k | 0 <= k < n
      ensures ActsAt(limit, s, actions[..n], k, uri) <==> ActsAt(limit, s, actions, k, uri)
    {
      PrefixOfPrefix(actions, n, k);
    }
  }

  lemma ForeignOneMore(limit: nat, s: State, actions: seq<Action>, n: nat, uri: Uri, gate: nat)
    requires |actions| == n + 1 && OnlyForeignActs(limit, s, actions[..n], uri, gate)
    requires ActsAt(limit, s, actions, n, uri) ==>
               HandlerGate(Run(limit, s, actions[..n]).value.handlers[actions[n].h]) != Some(gate)
    ensures OnlyForeignActs(limit, s, actions, uri, gate)
  {
    forall k | 0 <= k < |actions| && ActsAt(limit, s, actions, k, uri)
      ensures HandlerGate(Run(limit, s, actions[..k]).value.handlers[actions[k].h]) != Some(gate)
    {
      if k < n {
        PrefixOfPrefix(actions, n, k);
        assert ActsAt(limit, s, actions[..n], k, uri);
      }
    }
  }

  /**
    A worker that holds its gate over current work stays current, up to when it
    publishes, exactly when no handler acts on the document meanwhile; and any
    handler that does holds another gate or none.
   */
  lemma {:induction false} CurrentUntilActedOn(limit: nat, s: State, t: nat, actions: seq<Action>)
    requires Inv(limit, s) && OneHolder(s) && Current(s.incs, s.docs, s.works, t) && HoldsGate(s.workers[t])
    requires Run(limit, s, actions).Some?
    ensures var r := Run(limit, s, actions).value;
            && t < |r.workers| && HoldsOrDone(r.workers[t])
            && (HoldsGate(r.workers[t]) ==>
                  && (Current(r.incs, r.docs, r.works, t) <==> NobodyActs(limit, s, actions, UriOf(s, t)))
                  && OnlyForeignActs(limit, s, actions, UriOf(s, t), s.works[t].inc))
    decreases |actions|
  {
    if actions != [] {
      var n := |actions| - 1;
      var m := Run(limit, s, actions[..n]).value;
      CurrentUntilActedOn(limit, s, t, actions[..n]);
      RunsKeepOne(limit, s, actions[..n]);
      SameWork(limit, s, t, actions[..n]);
      StepHolds(limit, m, actions[n], t);
      OneMoreStep(limit, m, actions[n], t);
      NobodyActsOneMore(limit, s, actions, n, UriOf(s, t));
      if HoldsGate(Next(limit, m, actions[n]).workers[t]) {
        ForeignOneMore(limit, s, actions, n, UriOf(s, t), s.works[t].inc);
      }
    }
  }

  /** A run never changes what a work item is of. */
  lemma {:induction false} SameWork(limit: nat, s: State, t: nat, actions: seq<Action>)
    requires Inv(limit, s) && t < |s.works| && Run(limit, s, actions).Some?
    ensures var r := Run(limit, s, actions).value;
            Shape(r) && t < |r.works| && r.works[t] == s.works[t] && UriOf(r, t) == UriOf(s, t)
    decreases |actions|
  {
    if actions != [] {
      var n := |actions| - 1;
      var m := Run(limit, s, actions[..n]).value;
      SameWork(limit, s, t, actions[..n]);
      RunsKeep(limit, s, actions[..n]);
      StepContinues(limit, m, actions[n]);
      StepKeeps(limit, m, actions[n]);
      assert Continues(m.incs[m.works[t].inc], Next(limit, m, actions[n]).incs[m.works[t].inc]);
    }
  }

  lemma OneMoreStep(limit: nat, s: State, a: Action, t: nat)
    requires Inv(limit, s) && OneHolder(s) && Enabled(s, a) && t < |s.works|
    ensures var s' := Next(limit, s, a);
            Current(s'.incs, s'.docs, s'.works, t)
            <==> Current(s.incs, s.docs, s.works, t) && !ActsOn(s, a, UriOf(s, t))
    ensures HoldsGate(s.workers[t]) && ActsOn(s, a, UriOf(s, t)) ==> HandlerGate(s.handlers[a.h]) != Some(s.works[t].inc)
  {
    StepMovesOn(limit, s, a, t);
    if Current(s.incs, s.docs, s.works, t) {
      OnlyActsSupersede(limit, s, a, t);
    }
  }

  // ----- When nobody can act -----

  /** A handler on its way to the document goes through this gate. */
  predicate ComesThrough(handler: Handler, uri: Uri, gate: nat) {
    match handler
    case Waiting(request, lock) => request.uri == uri ==> lock == gate
    case Holding(request, held) => request.uri == uri ==> held == Some(gate)
    case _ => true
  }

  /** Every handler on its way to the work's document waits for, or holds, the gate of the work's own opening. */
  predicate Guarded(s: State, t: nat)
    requires Shape(s) && t < |s.works|
  {
    forall h :: 0 <= h < |s.handlers| ==> ComesThrough(s.handlers[h], UriOf(s, t), s.works[t].inc)
  }

  /** While the document's opening is that of the gate, no step sets a handler on another way. */
  lemma StepComesThrough(limit: nat, s: State, a: Action, uri: Uri, gate: nat)
    requires Enabled(s, a) && uri in s.docs && s.docs[uri] == gate
    requires forall h :: 0 <= h < |s.handlers| ==> ComesThrough(s.handlers[h], uri, gate)
    ensures forall h :: 0 <= h < |Next(limit, s, a).handlers| ==> ComesThrough(Next(limit, s, a).handlers[h], uri, gate)
  {
    forall h | 0 <= h < |Next(limit, s, a).handlers|
      ensures ComesThrough(Next(limit, s, a).handlers[h], uri, gate)
    {
      assert h < |s.handlers| ==> ComesThrough(s.handlers[h], uri, gate);
    }
  }

  /** While a worker holds the gate over guarded current work, the work stays guarded and current. */
  lemma StepKeepsGuarded(limit: nat, s: State, a: Action, t: nat)
    requires Inv(limit, s) && OneHolder(s) && Enabled(s, a)
    requires Current(s.incs, s.docs, s.works, t) && HoldsGate(s.workers[t]) && Guarded(s, t)
    ensures var s' := Next(limit, s, a);
            && Current(s'.incs, s'.docs, s'.works, t)
            && forall h :: 0 <= h < |s'.handlers| ==> ComesThrough(s'.handlers[h], UriOf(s, t), s.works[t].inc)
  {
    OnlyActsSupersede(limit, s, a, t);
    assert a.Act? ==> ComesThrough(s.handlers[a.h], UriOf(s, t), s.works[t].inc);
    StepComesThrough(limit, s, a, UriOf(s, t), s.works[t].inc);
  }

  /** Guarded current work is current whenever its worker still holds the gate, so when it publishes. */
  lemma {:induction false} GuardedStaysCurrent(limit: nat, s: State, t: nat, actions: seq<Action>)
    requires Inv(limit, s) && OneHolder(s)
    requires Current(s.incs, s.docs, s.works, t) && HoldsGate(s.workers[t]) && Guarded(s, t)
    requires Run(limit, s, actions).Some?
    ensures var r := Run(limit, s, actions).value;
            && Inv(limit, r) && OneHolder(r) && t < |r.workers| && HoldsOrDone(r.workers[t])
            && (HoldsGate(r.workers[t]) ==> Current(r.incs, r.docs, r.works, t) && Guarded(r, t))
    decreases |actions|
  {
    if actions != [] {
      var n := |actions| - 1;
      var m := Run(limit, s, actions[..n]).value;
      GuardedStaysCurrent(limit, s, t, actions[..n]);
      RunsKeepOne(limit, s, actions);
      StepHolds(limit, m, actions[n], t);
      if HoldsGate(m.workers[t]) {
        StepKeepsGuarded(limit, m, actions[n], t);
        SameWorkNext(limit, m, actions[n], t);
      }
    }
  }

  lemma SameWorkNext(limit: nat, s: State, a: Action, t: nat)
    requires Inv(limit, s) && Enabled(s, a) && t < |s.works|
    ensures var s' := Next(limit, s, a);
            Shape(s') && t < |s'.works| && s'.works[t] == s.works[t] && UriOf(s', t) == UriOf(s, t)
  {
    StepContinues(limit, s, a);
    StepKeeps(limit, s, a);
    assert Continues(s.incs[s.works[t].inc], Next(limit, s, a).incs[s.works[t].inc]);
  }

  // ----- When somebody can -----

  /** A holder of another gate moves without touching this worker or this waiting handler. */
  lemma HandlerLeavesAlone(limit: nat, s: State, k: nat, t: nat, h: nat)
    requires Inv(limit, s) && k < |s.handlers| && HandlerGate(s.handlers[k]).Some?
    requires t < |s.workers| && !s.workers[t].Unspawned? && h < |s.handlers| && h != k
    ensures Enabled(s, HandlerStep(s.handlers[k], k)) && IsInternal(HandlerStep(s.handlers[k], k))
    ensures var s' := Next(limit, s, HandlerStep(s.handlers[k], k));
            && t < |s'.workers| && s'.workers[t] == s.workers[t] && h < |s'.handlers| && s'.handlers[h] == s.handlers[h]
  {
    HandlerCanStep(limit, s, k);
    assert CarriedOk(s.workers, s.handlers[k], k);
  }

  lemma WorkerLeavesAlone(limit: nat, s: State, k: nat, t: nat, h: nat)
    requires Inv(limit, s) && k < |s.workers| && HoldsGate(s.workers[k])
    requires t < |s.workers| && t != k && h < |s.handlers|
    ensures Enabled(s, WorkerStep(s.workers[k], k)) && IsInternal(WorkerStep(s.workers[k], k))
    ensures var s' := Next(limit, s, WorkerStep(s.workers[k], k));
            && t < |s'.workers| && s'.workers[t] == s.workers[t] && h < |s'.handlers| && s'.handlers[h] == s.handlers[h]
  {
  }

  /** Whoever keeps handler `h` from its gate takes a step that touches neither `h` nor worker `t`. */
  lemma MakeWay(limit: nat, s: State, t: nat, h: nat) returns (a: Action)
    requires Inv(limit, s) && h < |s.handlers| && s.handlers[h].Waiting? && !Free(s, s.handlers[h].lock)
    requires t < |s.workers| && HoldsGate(s.workers[t]) && s.handlers[h].lock != s.works[t].inc
    ensures IsInternal(a) && Enabled(s, a)
    ensures var s' := Next(limit, s, a);
            && t < |s'.workers| && s'.workers[t] == s.workers[t] && h < |s'.handlers| && s'.handlers[h] == s.handlers[h]
  {
    var g := s.handlers[h].lock;
    if k: nat :| k < |s.handlers| && HandlerGate(s.handlers[k]) == Some(g) {
      HandlerLeavesAlone(limit, s, k, t, h);
      return HandlerStep(s.handlers[k], k);
    }
    var k: nat :| k < |s.workers| && HoldsGate(s.workers[k]) && s.works[k].inc == g;
    WorkerLeavesAlone(limit, s, k, t, h);
    return WorkerStep(s.workers[k], k);
  }

  lemma RunFirst(limit: nat, s: State, a: Action, rest: seq<Action>)
    requires Enabled(s, a)
    ensures Run(limit, s, [a] + rest) == Run(limit, Next(limit, s, a), rest)
  {
    RunExtends(limit, s, [], a);
    assert [] + [a] == [a];
    RunsCompose(limit, s, Next(limit, s, a), [a], rest);
  }

  /** A handler that comes another way can supersede the work while its worker stands still. */
  lemma {:induction false} StrayHandlerSupersedes(limit: nat, s: State, t: nat, h: nat) returns (actions: seq<Action>)
    requires Inv(limit, s) && OneHolder(s) && Current(s.incs, s.docs, s.works, t) && HoldsGate(s.workers[t])
    requires h < |s.handlers| && !ComesThrough(s.handlers[h], UriOf(s, t), s.works[t].inc)
    ensures Run(limit, s, actions).Some?
    ensures var r := Run(limit, s, actions).value;
            t < |r.workers| && r.workers[t] == s.workers[t] && !Current(r.incs, r.docs, r.works, t)
    decreases Measure(s)
  {
    var a := Act(h);
    if s.handlers[h].Waiting? {
      if Free(s, s.handlers[h].lock) {
        a := LockHandler(h);
      } else {
        a := MakeWay(limit, s, t, h);
      }
    }
    var s' := Next(limit, s, a);
    StrayStep(limit, s, t, h, a);
    if Current(s'.incs, s'.docs, s'.works, t) {
      var rest := StrayHandlerSupersedes(limit, s', t, h);
      RunFirst(limit, s, a, rest);
      actions := [a] + rest;
    } else {
      RunFirst(limit, s, a, []);
      assert [a] + [] == [a];
      actions := [a];
    }
  }

  /** After that step the work is superseded, or the handler is still coming another way and rest is nearer. */
  lemma StrayStep(limit: nat, s: State, t: nat, h: nat, a: Action)
    requires Inv(limit, s) && OneHolder(s) && Current(s.incs, s.docs, s.works, t) && HoldsGate(s.workers[t])
    requires h < |s.handlers| && !ComesThrough(s.handlers[h], UriOf(s, t), s.works[t].inc)
    requires Enabled(s, a) && IsInternal(a)
    requires if s.handlers[h].Holding? then a == Act(h)
             else a == LockHandler(h)
                  || (var s' := Next(limit, s, a);
                      && t < |s'.workers| && s'.workers[t] == s.workers[t]
                      && h < |s'.handlers| && s'.handlers[h] == s.handlers[h])
    ensures var s' := Next(limit, s, a);
            && Inv(limit, s') && OneHolder(s') && t < |s'.workers| && s'.workers[t] == s.workers[t]
            && Measure(s') < Measure(s)
            && (Current(s'.incs, s'.docs, s'.works, t) ==>
                  h < |s'.handlers| && !ComesThrough(s'.handlers[h], UriOf(s', t), s'.works[t].inc))
  {
    StepKeeps(limit, s, a);
    StepKeepsOne(limit, s, a);
    StepDescends(limit, s, a);
    SameWorkNext(limit, s, a, t);
    OnlyActsSupersede(limit, s, a, t);
  }

  /** Wherever the run gets to, if worker `t` publishes there it publishes current work. */
  predicate PublishesCurrent(limit: nat, s: State, t: nat, actions: seq<Action>) {
    var r := Run(limit, s, actions);
    r.Some? && Enabled(r.value, Publish(t)) ==> Current(r.value.incs, r.value.docs, r.value.works, t)
  }

  /**
    Once a worker has installed its result, that result is sure to be current
    when published exactly when every handler waiting or holding for the document
    goes through the gate of the opening that is there now.
   */
  lemma PublishesCurrentExactlyWhenGuarded(limit: nat, s: State, t: nat)
    requires Reachable(limit, s) && Enabled(s, Publish(t)) && Current(s.incs, s.docs, s.works, t)
    ensures Guarded(s, t) <==> forall actions :: PublishesCurrent(limit, s, t, actions)
  {
    GatesAreExclusive(limit, s);
    if Guarded(s, t) {
      forall actions
        ensures PublishesCurrent(limit, s, t, actions)
      {
        if Run(limit, s, actions).Some? {
          GuardedStaysCurrent(limit, s, t, actions);
        }
      }
    } else {
      var h :| 0 <= h < |s.handlers| && !ComesThrough(s.handlers[h], UriOf(s, t), s.works[t].inc);
      var actions := StrayHandlerSupersedes(limit, s, t, h);
      RunsKeep(limit, s, actions);
      assert !PublishesCurrent(limit, s, t, actions);
    }
  }
}
