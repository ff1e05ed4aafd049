/** The three acts of a handler holding its gate keep the store's invariant. */
module StoreActs {
  import opened Text
  import opened Edits
  import opened DocumentRecord
  import opened DocumentStore
  import opened StoreInvariant

  /** Nothing old becomes current, and what stays current keeps its cache. */
  predicate Fades(incs: Incs, docs: Docs, works: seq<Work>, incs': Incs, docs': Docs, works': seq<Work>) {
    && |incs| <= |incs'| && works <= works'
    && forall t: nat {:trigger Current(incs', docs', works', t)} :: t < |works| && Current(incs', docs', works', t) ==>
         && Current(incs, docs, works, t)
         && incs'[works[t].inc].record.cached == incs[works[t].inc].record.cached
  }

  lemma TargetsFade(incs: Incs, docs: Docs, works: seq<Work>, incs': Incs, docs': Docs, works': seq<Work>,
                    handlers: seq<Handler>, cancelled: set<nat>)
    requires Fades(incs, docs, works, incs', docs', works')
    requires TargetsOk(incs, docs, works, handlers) && CancelledOk(incs, docs, works, cancelled)
    ensures TargetsOk(incs', docs', works', handlers) && CancelledOk(incs', docs', works', cancelled)
  {
    forall h | 0 <= h < |handlers|
      ensures TargetOk(incs', docs', works', handlers[h])
    {
      assert TargetOk(incs, docs, works, handlers[h]);
    }
  }

  /** Results fade with a fresh unspawned worker added, or with none. */
  lemma ResultsFade(limit: nat, incs: Incs, docs: Docs, works: seq<Work>, workers: seq<Worker>,
                    incs': Incs, docs': Docs, works': seq<Work>, workers': seq<Worker>)
    requires Fades(incs, docs, works, incs', docs', works') && ResultsOk(limit, incs, docs, works, workers)
    requires |workers'| == |works'| && workers <= workers'
    requires forall t :: |works| <= t < |works'| ==> workers'[t].Unspawned? && works'[t].inc < |incs'|
    ensures ResultsOk(limit, incs', docs', works', workers')
  {
    forall t | 0 <= t < |workers'|
      ensures ResultOk(limit, incs', docs', works', workers'[t], t)
    {
      if t < |workers| {
        assert ResultOk(limit, incs, docs, works, workers[t], t);
        assert works'[t] == works[t] && workers'[t] == workers[t];
      }
    }
  }

  /** A handler that carried nothing takes up a new token. */
  lemma SpawnsTakeUp(workers: seq<Worker>, handlers: seq<Handler>, h: nat, handler: Handler)
    requires SpawnsOk(workers, handlers) && h < |handlers| && handlers[h].Holding?
    requires (handler.Cancelling? && handler.next == Some(|workers|)) || (handler.Spawning? && handler.token == |workers|)
    ensures SpawnsOk(workers + [Unspawned(h)], handlers[h := handler])
  {
    var workers', handlers' := workers + [Unspawned(h)], handlers[h := handler];
    forall t | 0 <= t < |workers'|
      ensures UnspawnedOk(handlers', workers'[t], t)
    {
      assert t < |workers| ==> UnspawnedOk(handlers, workers[t], t);
    }
    forall k | 0 <= k < |handlers'|
      ensures CarriedOk(workers', handlers'[k], k)
    {
      assert CarriedOk(workers, handlers[k], k);
    }
  }

  /** A fresh unspawned worker changes nothing for the gates and the logs. */
  lemma LogsWithFresh(incs: Incs, works: seq<Work>, workers: seq<Worker>, incs': Incs, work: Work, h: nat)
    requires |workers| == |works| && Exclusive(works, workers) && LogsOk(incs, works, workers) && AllInLine(incs, works, workers)
    requires |incs| <= |incs'| && forall i :: 0 <= i < |incs| ==> incs'[i].log == incs[i].log
    requires forall i :: |incs| <= i < |incs'| ==> incs'[i].log == []
    ensures Exclusive(works + [work], workers + [Unspawned(h)])
    ensures LogsOk(incs', works + [work], workers + [Unspawned(h)])
    ensures AllInLine(incs', works + [work], workers + [Unspawned(h)])
  {
    var works', workers' := works + [work], workers + [Unspawned(h)];
    forall i | 0 <= i < |incs'|
      ensures LogOk(works', workers', i, incs'[i].log)
    {
      if i < |incs| {
        assert LogOk(works, workers, i, incs[i].log);
        forall k | 0 <= k < |incs[i].log|
          ensures PublicationOk(works', workers', i, incs[i].log[k])
        {
          assert PublicationOk(works, workers, i, incs[i].log[k]);
        }
      }
    }
    forall t | 0 <= t < |works'|
      ensures InLine(incs', works'[t], workers'[t])
    {
      assert t < |works| ==> InLine(incs, works[t], workers[t]);
    }
  }

  lemma IncsWithWork(limit: nat, works: seq<Work>, incs: Incs, work: Work)
    requires IncsOk(limit, works, incs)
    ensures IncsOk(limit, works + [work], incs)
  {
    forall i | 0 <= i < |incs|
      ensures IncOk(limit, works + [work], i, incs[i])
    {
      assert IncOk(limit, works, i, incs[i]);
    }
  }

  // ----- Opening -----

  lemma OpenFades(s: State, uri: Uri, inc: Incarnation, work: Work)
    requires Shape(s) && inc.uri == uri && inc.token == |s.works| && work.inc == |s.incs|
    ensures Fades(s.incs, s.docs, s.works, s.incs + [inc], s.docs[uri := |s.incs|], s.works + [work])
    ensures uri in s.docs ==>
              !Current(s.incs + [inc], s.docs[uri := |s.incs|], s.works + [work], s.incs[s.docs[uri]].token)
              || s.works[s.incs[s.docs[uri]].token].inc != s.docs[uri]
  {
  }

  lemma OpenIncs(limit: nat, s: State, request: Request)
    requires Inv(limit, s) && request.OpenRequest?
    ensures var i, t := |s.incs|, |s.works|;
            var record := Opened(request.text, request.version, request.format);
            IncsOk(limit, s.works + [Work(i, 1, request.text, request.version, request.format)],
                   s.incs + [Incarnation(request.uri, record, t, [])])
  {
    IncsWithWork(limit, s.works, s.incs, Work(|s.incs|, 1, request.text, request.version, request.format));
  }

  lemma GenerationsGrow(incs: Incs, incs': Incs, works: seq<Work>, readers: seq<Reader>)
    requires WorksOk(incs, works) && ReadersOk(incs, readers) && |incs| <= |incs'|
    requires forall i :: 0 <= i < |incs| ==> incs[i].record.generation <= incs'[i].record.generation
    ensures WorksOk(incs', works) && ReadersOk(incs', readers)
  {
    forall t | 0 <= t < |works|
      ensures WorkOk(incs', works[t])
    {
      assert WorkOk(incs, works[t]);
    }
    forall r | 0 <= r < |readers|
      ensures ReaderOk(incs', readers[r])
    {
      assert ReaderOk(incs, readers[r]);
    }
  }

  lemma WorksWithNewest(incs: Incs, works: seq<Work>, work: Work)
    requires WorksOk(incs, works) && WorkOk(incs, work)
    requires forall t :: 0 <= t < |works| && works[t].inc == work.inc ==> works[t].generation < work.generation
    ensures WorksOk(incs, works + [work])
  {
  }

  /** Works and readers once a work newer than its opening's others is added. */
  lemma WorksAdvance(incs: Incs, incs': Incs, works: seq<Work>, readers: seq<Reader>, work: Work)
    requires WorksOk(incs, works) && ReadersOk(incs, readers) && |incs| <= |incs'|
    requires forall i :: 0 <= i < |incs| ==> incs[i].record.generation <= incs'[i].record.generation
    requires WorkOk(incs', work) && (work.inc < |incs| ==> incs[work.inc].record.generation < work.generation)
    ensures WorksOk(incs', works + [work]) && ReadersOk(incs', readers)
  {
    GenerationsGrow(incs, incs', works, readers);
    forall t | 0 <= t < |works| && works[t].inc == work.inc
      ensures works[t].generation < work.generation
    {
      assert WorkOk(incs, works[t]);
    }
    WorksWithNewest(incs', works, work);
  }

  /** The handler of a replacing act cancels the token it replaced. */
  lemma TargetsWith(incs: Incs, docs: Docs, works: seq<Work>, handlers: seq<Handler>, h: nat, handler: Handler)
    requires TargetsOk(incs, docs, works, handlers) && h < |handlers| && TargetOk(incs, docs, works, handler)
    ensures TargetsOk(incs, docs, works, handlers[h := handler])
  {
  }

  lemma OpenTargets(limit: nat, s: State, h: nat)
    requires Inv(limit, s) && Enabled(s, Act(h)) && s.handlers[h].request.OpenRequest?
    ensures var s' := ActOpen(s, h);
            && ResultsOk(limit, s'.incs, s'.docs, s'.works, s'.workers)
            && TargetsOk(s'.incs, s'.docs, s'.works, s'.handlers)
            && CancelledOk(s'.incs, s'.docs, s'.works, s'.cancelled)
  {
    var uri := s.handlers[h].request.uri;
    var s' := ActOpen(s, h);
    OpenFades(s, uri, s'.incs[|s.incs|], s'.works[|s.works|]);
    ResultsFade(limit, s.incs, s.docs, s.works, s.workers, s'.incs, s'.docs, s'.works, s'.workers);
    TargetsFade(s.incs, s.docs, s.works, s'.incs, s'.docs, s'.works, s.handlers, s.cancelled);
    if uri in s.docs {
      assert IncOk(limit, s.works, s.docs[uri], s.incs[s.docs[uri]]);
    }
    TargetsWith(s'.incs, s'.docs, s'.works, s.handlers, h, s'.handlers[h]);
  }

  lemma OpenWorks(limit: nat, s: State, h: nat)
    requires Inv(limit, s) && Enabled(s, Act(h)) && s.handlers[h].request.OpenRequest?
    ensures var s' := ActOpen(s, h);
            WorksOk(s'.incs, s'.works) && ReadersOk(s'.incs, s'.readers) && IncsOk(limit, s'.works, s'.incs)
  {
    var s' := ActOpen(s, h);
    OpenIncs(limit, s, s.handlers[h].request);
    WorksAdvance(s.incs, s'.incs, s.works, s.readers, s'.works[|s.works|]);
  }

  lemma OpenKeeps(limit: nat, s: State, h: nat)
    requires Inv(limit, s) && Enabled(s, Act(h)) && s.handlers[h].request.OpenRequest?
    ensures Inv(limit, ActOpen(s, h))
  {
    var s' := ActOpen(s, h);
    OpenWorks(limit, s, h);
    SpawnsTakeUp(s.workers, s.handlers, h, s'.handlers[h]);
    OpenTargets(limit, s, h);
    LogsWithFresh(s.incs, s.works, s.workers, s'.incs, s'.works[|s.works|], h);
  }

  // ----- Changing -----

  lemma ChangeIncs(limit: nat, works: seq<Work>, incs: Incs, i: nat, version: i32, changes: seq<Change>)
    requires IncsOk(limit, works, incs) && i < |incs|
    ensures var record := Changed(incs[i].record, version, changes);
            IncsOk(limit, works + [Work(i, record.generation, record.text, record.version, record.format)],
                   incs[i := incs[i].(record := record, token := |works|)])
  {
    var record := Changed(incs[i].record, version, changes);
    assert IncOk(limit, works, i, incs[i]);
    IncsWithWork(limit, works, incs, Work(i, record.generation, record.text, record.version, record.format));
  }

  lemma ChangeFades(s: State, i: nat, inc: Incarnation, work: Work)
    requires Shape(s) && i < |s.incs| && inc.uri == s.incs[i].uri && inc.token == |s.works| && work.inc == i
    ensures Fades(s.incs, s.docs, s.works, s.incs[i := inc], s.docs, s.works + [work])
    ensures !Current(s.incs[i := inc], s.docs, s.works + [work], s.incs[i].token) || s.works[s.incs[i].token].inc != i
  {
  }

  lemma ChangeTargets(limit: nat, s: State, h: nat)
    requires Inv(limit, s) && Enabled(s, Act(h)) && s.handlers[h].request.ChangeRequest?
    requires s.handlers[h].request.uri in s.docs
    ensures var s' := ActChange(s, h);
            && ResultsOk(limit, s'.incs, s'.docs, s'.works, s'.workers)
            && TargetsOk(s'.incs, s'.docs, s'.works, s'.handlers)
            && CancelledOk(s'.incs, s'.docs, s'.works, s'.cancelled)
  {
    var i := s.docs[s.handlers[h].request.uri];
    var s' := ActChange(s, h);
    assert IncOk(limit, s.works, i, s.incs[i]);
    ChangeFades(s, i, s'.incs[i], s'.works[|s.works|]);
    ResultsFade(limit, s.incs, s.docs, s.works, s.workers, s'.incs, s'.docs, s'.works, s'.workers);
    TargetsFade(s.incs, s.docs, s.works, s'.incs, s'.docs, s'.works, s.handlers, s.cancelled);
    TargetsWith(s'.incs, s'.docs, s'.works, s.handlers, h, s'.handlers[h]);
  }

  lemma ChangeWorks(limit: nat, s: State, h: nat)
    requires Inv(limit, s) && Enabled(s, Act(h)) && s.handlers[h].request.ChangeRequest?
    requires s.handlers[h].request.uri in s.docs
    ensures var s' := ActChange(s, h);
            WorksOk(s'.incs, s'.works) && ReadersOk(s'.incs, s'.readers) && IncsOk(limit, s'.works, s'.incs)
  {
    var request := s.handlers[h].request;
    var s' := ActChange(s, h);
    ChangeIncs(limit, s.works, s.incs, s.docs[request.uri], request.version, request.changes);
    WorksAdvance(s.incs, s'.incs, s.works, s.readers, s'.works[|s.works|]);
  }

  lemma ChangeKeeps(limit: nat, s: State, h: nat)
    requires Inv(limit, s) && Enabled(s, Act(h)) && s.handlers[h].request.ChangeRequest?
    requires s.handlers[h].request.uri in s.docs
    ensures Inv(limit, ActChange(s, h))
  {
    var s' := ActChange(s, h);
    ChangeWorks(limit, s, h);
    SpawnsTakeUp(s.workers, s.handlers, h, s'.handlers[h]);
    ChangeTargets(limit, s, h);
    LogsWithFresh(s.incs, s.works, s.workers, s'.incs, s'.works[|s.works|], h);
  }

  // ----- Closing -----

  lemma CloseFades(s: State, uri: Uri)
    requires Shape(s) && uri in s.docs
    ensures Fades(s.incs, s.docs, s.works, s.incs, s.docs - {uri}, s.works)
    ensures !Current(s.incs, s.docs - {uri}, s.works, s.incs[s.docs[uri]].token)
            || s.works[s.incs[s.docs[uri]].token].inc != s.docs[uri]
  {
  }

  lemma SpawnsLetBe(workers: seq<Worker>, handlers: seq<Handler>, h: nat, handler: Handler)
    requires SpawnsOk(workers, handlers) && h < |handlers| && handlers[h].Holding?
    requires handler.Cancelling? && handler.next == None
    ensures SpawnsOk(workers, handlers[h := handler])
  {
    forall t | 0 <= t < |workers|
      ensures UnspawnedOk(handlers[h := handler], workers[t], t)
    {
      assert UnspawnedOk(handlers, workers[t], t);
    }
  }

  lemma CloseKeeps(limit: nat, s: State, h: nat)
    requires Inv(limit, s) && Enabled(s, Act(h)) && s.handlers[h].request.uri in s.docs
    ensures Inv(limit, ActClose(s, h))
  {
    var uri := s.handlers[h].request.uri;
    var s' := ActClose(s, h);
    assert IncOk(limit, s.works, s.docs[uri], s.incs[s.docs[uri]]);
    SpawnsLetBe(s.workers, s.handlers, h, s'.handlers[h]);
    CloseFades(s, uri);
    ResultsFade(limit, s.incs, s.docs, s.works, s.workers, s.incs, s'.docs, s.works, s.workers);
    TargetsFade(s.incs, s.docs, s.works, s.incs, s'.docs, s.works, s.handlers, s.cancelled);
  }

  // ----- Every step -----

  lemma ActKeeps(limit: nat, s: State, h: nat)
    requires Inv(limit, s) && Enabled(s, Act(h))
    ensures Inv(limit, Acted(s, h))
  {
    var request := s.handlers[h].request;
    if request.OpenRequest? {
      OpenKeeps(limit, s, h);
    } else if request.uri !in s.docs {
      HandlerMoves(limit, s, h, Leaving(s.handlers[h].gate));
    } else if request.ChangeRequest? {
      ChangeKeeps(limit, s, h);
    } else {
      CloseKeeps(limit, s, h);
    }
  }

  lemma StepKeeps(limit: nat, s: State, a: Action)
    requires Inv(limit, s) && Enabled(s, a)
    ensures Inv(limit, Next(limit, s, a))
  {
    match a {
      case Arrive(request) => ArriveKeeps(limit, s, request);
      case LockHandler(h) => HandlerMoves(limit, s, h, Holding(s.handlers[h].request, Some(s.handlers[h].lock)));
      case Act(h) => ActKeeps(limit, s, h);
      case CancelPrevious(h) => CancelPreviousKeeps(limit, s, h);
      case Spawn(h) => SpawnKeeps(limit, s, h);
      case UnlockHandler(h) => HandlerMoves(limit, s, h, Finished);
      case Begin(t) => BeginKeeps(limit, s, t);
      case Compute(t, succeeds) => ComputeKeeps(limit, s, t, succeeds);
      case LockWorker(t) => LockWorkerKeeps(limit, s, t);
      case Decide(t) => DecideKeeps(limit, s, t);
      case Publish(t) => PublishKeeps(limit, s, t);
      case UnlockWorker(t) => UnlockWorkerKeeps(limit, s, t);
      case _ => ReaderKeeps(limit, s, a);
    }
  }

  /** The invariant holds in every state any run can reach. */
  lemma {:induction false} RunsKeep(limit: nat, s: State, actions: seq<Action>)
    requires Inv(limit, s) && Run(limit, s, actions).Some?
    ensures Inv(limit, Run(limit, s, actions).value)
    decreases |actions|
  {
    if actions != [] {
      var before := actions[..|actions| - 1];
      RunsKeep(limit, s, before);
      StepKeeps(limit, Run(limit, s, before).value, actions[|actions| - 1]);
    }
  }

  lemma ReachableKeeps(limit: nat, s: State)
    requires Reachable(limit, s)
    ensures Inv(limit, s)
  {
    var actions :| Run(limit, INITIAL, actions) == Some(s);
    RunsKeep(limit, INITIAL, actions);
  }
}
