/** What holds in every state of the document store. */
module StoreInvariant {
  import opened Text
  import opened DocumentRecord
  import opened DocumentStore

  type Incs = seq<Incarnation>

  type Docs = map<Uri, nat>

  // ----- The clauses, each over the parts of the state it reads -----

  /** An analysis this work may produce: the placeholder when the text is too large, else its computation or a failure. */
  predicate ResultOf(limit: nat, work: Work, analysis: Analysis) {
    if ByteLen(work.text) > limit then analysis == Oversized(ByteLen(work.text), limit)
    else analysis == Computed(work.text, work.format, work.generation) || analysis == Failed
  }

  predicate CachedFor(limit: nat, work: Work, cached: Cached) {
    cached.generation == work.generation && cached.version == work.version && ResultOf(limit, work, cached.analysis)
  }

  /** The current work is made from the record, and the cache is that work's. */
  predicate IncOk(limit: nat, works: seq<Work>, i: nat, inc: Incarnation) {
    var r := inc.record;
    && inc.token < |works|
    && works[inc.token] == Work(i, r.generation, r.text, r.version, r.format)
    && r.watch == r.cached
    && (r.cached.Some? ==> CachedFor(limit, works[inc.token], r.cached.value))
  }

  predicate IncsOk(limit: nat, works: seq<Work>, incs: Incs) {
    forall i :: 0 <= i < |incs| ==> IncOk(limit, works, i, incs[i])
  }

  /** Work items of one opening are numbered in the order of its generations. */
  predicate WorksOrdered(works: seq<Work>) {
    forall a, b :: 0 <= a < b < |works| && works[a].inc == works[b].inc ==> works[a].generation < works[b].generation
  }

  /** No work item is newer than the record it was made from. */
  predicate WorkOk(incs: Incs, work: Work) {
    work.inc < |incs| && work.generation <= incs[work.inc].record.generation
  }

  predicate WorksOk(incs: Incs, works: seq<Work>) {
    WorksOrdered(works) && forall t :: 0 <= t < |works| ==> WorkOk(incs, works[t])
  }

  /** Handler `h` will spawn the worker of token `t`. */
  predicate Carries(handler: Handler, t: nat) {
    (handler.Cancelling? && handler.next == Some(t)) || (handler.Spawning? && handler.token == t)
  }

  predicate CarriedOk(workers: seq<Worker>, handler: Handler, h: nat) {
    match handler
    case Cancelling(_, Some(t), _) => t < |workers| && workers[t] == Unspawned(h)
    case Spawning(t, _) => t < |workers| && workers[t] == Unspawned(h)
    case _ => true
  }

  predicate UnspawnedOk(handlers: seq<Handler>, worker: Worker, t: nat) {
    worker.Unspawned? ==> worker.handler < |handlers| && Carries(handlers[worker.handler], t)
  }

  /** A worker not yet spawned has exactly one handler about to spawn it. */
  predicate SpawnsOk(workers: seq<Worker>, handlers: seq<Handler>) {
    && (forall t :: 0 <= t < |workers| ==> UnspawnedOk(handlers, workers[t], t))
    && (forall h :: 0 <= h < |handlers| ==> CarriedOk(workers, handlers[h], h))
  }

  /** A worker's result is its work's; a worker that dropped its work was superseded, one that installed it is cached. */
  predicate ResultOk(limit: nat, incs: Incs, docs: Docs, works: seq<Work>, worker: Worker, t: nat) {
    && t < |works| && works[t].inc < |incs|
    && match worker
       case Unspawned(_) => true
       case Queued => true
       case Computing => ByteLen(works[t].text) <= limit
       case Ready(a) => ResultOf(limit, works[t], a)
       case Deciding(a) => ResultOf(limit, works[t], a)
       case Cancelled => !Current(incs, docs, works, t)
       case Stale => !Current(incs, docs, works, t)
       case _ =>
         && CachedFor(limit, works[t], worker.cached)
         && (Current(incs, docs, works, t) ==> incs[works[t].inc].record.cached == Some(worker.cached))
  }

  predicate ResultsOk(limit: nat, incs: Incs, docs: Docs, works: seq<Work>, workers: seq<Worker>) {
    |workers| == |works| && forall t :: 0 <= t < |workers| ==> ResultOk(limit, incs, docs, works, workers[t], t)
  }

  predicate TargetOk(incs: Incs, docs: Docs, works: seq<Work>, handler: Handler) {
    handler.Cancelling? ==> handler.token < |works| && !Current(incs, docs, works, handler.token)
  }

  predicate TargetsOk(incs: Incs, docs: Docs, works: seq<Work>, handlers: seq<Handler>) {
    forall h :: 0 <= h < |handlers| ==> TargetOk(incs, docs, works, handlers[h])
  }

  /** A cancelled token is not current; so a current one is never cancelled. */
  predicate CancelledOk(incs: Incs, docs: Docs, works: seq<Work>, cancelled: set<nat>) {
    forall t <- cancelled :: t < |works| && !Current(incs, docs, works, t)
  }

  /** No two workers hold one gate. */
  predicate Exclusive(works: seq<Work>, workers: seq<Worker>)
    requires |workers| == |works|
  {
    forall a, b ::
      (0 <= a < |works| && 0 <= b < |works| && HoldsGate(workers[a]) && HoldsGate(workers[b])
       && works[a].inc == works[b].inc)
      ==> a == b
  }

  /** A publication of opening `i`, by a worker that is past publishing. */
  predicate PublicationOk(works: seq<Work>, workers: seq<Worker>, i: nat, p: Publication) {
    && p.token < |works| == |workers| && works[p.token].inc == i
    && p.cached.generation == works[p.token].generation
    && (workers[p.token] == Published(p.cached) || workers[p.token] == Accepted(p.cached))
  }

  predicate Ascending(log: seq<Publication>) {
    forall j, k :: 0 <= j < k < |log| ==> log[j].cached.generation < log[k].cached.generation
  }

  /** Publications of one opening, in strictly increasing generation. */
  predicate LogOk(works: seq<Work>, workers: seq<Worker>, i: nat, log: seq<Publication>) {
    Ascending(log) && forall k :: 0 <= k < |log| ==> PublicationOk(works, workers, i, log[k])
  }

  predicate LogsOk(incs: Incs, works: seq<Work>, workers: seq<Worker>) {
    forall i :: 0 <= i < |incs| ==> LogOk(works, workers, i, incs[i].log)
  }

  predicate AllBelow(log: seq<Publication>, generation: nat) {
    forall k :: 0 <= k < |log| ==> log[k].cached.generation < generation
  }

  predicate InLine(incs: Incs, work: Work, worker: Worker) {
    worker.Publishing? ==> work.inc < |incs| && AllBelow(incs[work.inc].log, work.generation)
  }

  /** A worker about to publish is newer than everything its opening has published. */
  predicate AllInLine(incs: Incs, works: seq<Work>, workers: seq<Worker>) {
    |workers| == |works| && forall t :: 0 <= t < |works| ==> InLine(incs, works[t], workers[t])
  }

  predicate ReaderOk(incs: Incs, reader: Reader) {
    match reader
    case Subscribed(i, since) => i < |incs| && since <= incs[i].record.generation
    case Answered(reply, since) => reply.Some? ==> since <= reply.value.generation
  }

  predicate ReadersOk(incs: Incs, readers: seq<Reader>) {
    forall r :: 0 <= r < |readers| ==> ReaderOk(incs, readers[r])
  }

  predicate Inv(limit: nat, s: State) {
    && Shape(s)
    && IncsOk(limit, s.works, s.incs) && WorksOk(s.incs, s.works)
    && SpawnsOk(s.workers, s.handlers) && ResultsOk(limit, s.incs, s.docs, s.works, s.workers)
    && TargetsOk(s.incs, s.docs, s.works, s.handlers) && CancelledOk(s.incs, s.docs, s.works, s.cancelled)
    && Exclusive(s.works, s.workers)
    && LogsOk(s.incs, s.works, s.workers) && AllInLine(s.incs, s.works, s.workers)
    && ReadersOk(s.incs, s.readers)
  }

  // ----- Handlers and workers that move alone -----

  /** A handler moves without taking up or giving up a token. */
  lemma HandlerMoves(limit: nat, s: State, h: nat, handler: Handler)
    requires Inv(limit, s) && h < |s.handlers|
    requires !s.handlers[h].Cancelling? && !s.handlers[h].Spawning? && !handler.Cancelling? && !handler.Spawning?
    ensures Inv(limit, SetHandler(s, h, handler))
  {
  }

  lemma ArriveKeeps(limit: nat, s: State, request: Request)
    requires Inv(limit, s)
    ensures Inv(limit, Arrived(s, request))
  {
  }

  /** A handler done cancelling still carries what it carried. */
  lemma SpawnsCarryOn(workers: seq<Worker>, handlers: seq<Handler>, h: nat, handler: Handler)
    requires SpawnsOk(workers, handlers) && h < |handlers| && handlers[h].Cancelling?
    requires match handlers[h].next
             case Some(t) => handler.Spawning? && handler.token == t
             case None => handler.Leaving?
    ensures SpawnsOk(workers, handlers[h := handler])
  {
    forall t | 0 <= t < |workers|
      ensures UnspawnedOk(handlers[h := handler], workers[t], t)
    {
      assert UnspawnedOk(handlers, workers[t], t);
    }
    assert CarriedOk(workers, handlers[h], h);
  }

  lemma CancelPreviousKeeps(limit: nat, s: State, h: nat)
    requires Inv(limit, s) && h < |s.handlers| && s.handlers[h].Cancelling?
    ensures Inv(limit, CancelledPrevious(s, h))
  {
    assert TargetOk(s.incs, s.docs, s.works, s.handlers[h]);
    SpawnsCarryOn(s.workers, s.handlers, h, CancelledPrevious(s, h).handlers[h]);
  }

  // ----- One worker changes stage -----

  lemma SpawnsAfter(workers: seq<Worker>, handlers: seq<Handler>, t: nat, worker: Worker)
    requires SpawnsOk(workers, handlers) && t < |workers| && !workers[t].Unspawned? && !worker.Unspawned?
    ensures SpawnsOk(workers[t := worker], handlers)
  {
    forall h | 0 <= h < |handlers|
      ensures CarriedOk(workers[t := worker], handlers[h], h)
    {
      assert CarriedOk(workers, handlers[h], h);
    }
  }

  lemma ResultsAfter(limit: nat, incs: Incs, docs: Docs, works: seq<Work>, workers: seq<Worker>, t: nat, worker: Worker)
    requires ResultsOk(limit, incs, docs, works, workers) && t < |works|
    requires ResultOk(limit, incs, docs, works, worker, t)
    ensures ResultsOk(limit, incs, docs, works, workers[t := worker])
  {
    var workers' := workers[t := worker];
    forall k | 0 <= k < |workers'|
      ensures ResultOk(limit, incs, docs, works, workers'[k], k)
    {
      assert ResultOk(limit, incs, docs, works, workers[k], k);
    }
  }

  /** Nobody else holds the gate of this work's opening. */
  predicate Sole(works: seq<Work>, workers: seq<Worker>, t: nat)
    requires |workers| == |works| && t < |works|
  {
    forall k :: 0 <= k < |works| && k != t && HoldsGate(workers[k]) ==> works[k].inc != works[t].inc
  }

  lemma ExclusiveAfter(works: seq<Work>, workers: seq<Worker>, t: nat, worker: Worker)
    requires |workers| == |works| && t < |works| && Exclusive(works, workers)
    requires HoldsGate(worker) ==> Sole(works, workers, t)
    ensures Exclusive(works, workers[t := worker])
  {
  }

  lemma HolderIsSole(works: seq<Work>, workers: seq<Worker>, t: nat)
    requires |workers| == |works| && t < |works| && Exclusive(works, workers) && HoldsGate(workers[t])
    ensures Sole(works, workers, t)
  {
  }

  lemma LogAfter(works: seq<Work>, workers: seq<Worker>, i: nat, log: seq<Publication>, t: nat, worker: Worker)
    requires LogOk(works, workers, i, log) && t < |works| == |workers|
    requires workers[t].Published? || workers[t].Accepted? ==> worker == Accepted(workers[t].cached)
    ensures LogOk(works, workers[t := worker], i, log)
  {
    forall k | 0 <= k < |log|
      ensures PublicationOk(works, workers[t := worker], i, log[k])
    {
      assert PublicationOk(works, workers, i, log[k]);
    }
  }

  lemma LogsAfter(incs: Incs, works: seq<Work>, workers: seq<Worker>, t: nat, worker: Worker)
    requires LogsOk(incs, works, workers) && t < |works| == |workers|
    requires workers[t].Published? || workers[t].Accepted? ==> worker == Accepted(workers[t].cached)
    ensures LogsOk(incs, works, workers[t := worker])
  {
    forall i | 0 <= i < |incs|
      ensures LogOk(works, workers[t := worker], i, incs[i].log)
    {
      LogAfter(works, workers, i, incs[i].log, t, worker);
    }
  }

  lemma InLineAfter(incs: Incs, works: seq<Work>, workers: seq<Worker>, t: nat, worker: Worker)
    requires AllInLine(incs, works, workers) && t < |works| && InLine(incs, works[t], worker)
    ensures AllInLine(incs, works, workers[t := worker])
  {
    forall k | 0 <= k < |works|
      ensures InLine(incs, works[k], workers[t := worker][k])
    {
      assert InLine(incs, works[k], workers[k]);
    }
  }

  /** A worker past spawning moves to another stage past spawning. */
  lemma WorkerMoves(limit: nat, s: State, t: nat, worker: Worker)
    requires Inv(limit, s) && t < |s.works|
    requires !s.workers[t].Unspawned? && !worker.Unspawned? && !worker.Publishing?
    requires ResultOk(limit, s.incs, s.docs, s.works, worker, t)
    requires HoldsGate(worker) ==> Sole(s.works, s.workers, t)
    requires s.workers[t].Published? || s.workers[t].Accepted? ==> worker == Accepted(s.workers[t].cached)
    ensures Inv(limit, SetWorker(s, t, worker))
  {
    SpawnsAfter(s.workers, s.handlers, t, worker);
    ResultsAfter(limit, s.incs, s.docs, s.works, s.workers, t, worker);
    ExclusiveAfter(s.works, s.workers, t, worker);
    LogsAfter(s.incs, s.works, s.workers, t, worker);
    InLineAfter(s.incs, s.works, s.workers, t, worker);
  }

  /** The handler hands its token over to a queued worker. */
  lemma SpawnsHandOver(workers: seq<Worker>, handlers: seq<Handler>, h: nat, t: nat, gate: Option<nat>)
    requires SpawnsOk(workers, handlers) && h < |handlers| && handlers[h] == Spawning(t, gate)
    ensures t < |workers| && workers[t] == Unspawned(h)
    ensures SpawnsOk(workers[t := Queued], handlers[h := Leaving(gate)])
  {
    var workers', handlers' := workers[t := Queued], handlers[h := Leaving(gate)];
    assert CarriedOk(workers, handlers[h], h);
    forall k | 0 <= k < |workers'|
      ensures UnspawnedOk(handlers', workers'[k], k)
    {
      assert UnspawnedOk(handlers, workers[k], k);
    }
    forall k | 0 <= k < |handlers'|
      ensures CarriedOk(workers', handlers'[k], k)
    {
      assert CarriedOk(workers, handlers[k], k);
    }
  }

  lemma SpawnKeeps(limit: nat, s: State, h: nat)
    requires Inv(limit, s) && Enabled(s, Spawn(h))
    ensures Inv(limit, Next(limit, s, Spawn(h)))
  {
    var t := s.handlers[h].token;
    SpawnsHandOver(s.workers, s.handlers, h, t, s.handlers[h].gate);
    assert ResultOk(limit, s.incs, s.docs, s.works, s.workers[t], t);
    ResultsAfter(limit, s.incs, s.docs, s.works, s.workers, t, Queued);
    ExclusiveAfter(s.works, s.workers, t, Queued);
    LogsAfter(s.incs, s.works, s.workers, t, Queued);
    InLineAfter(s.incs, s.works, s.workers, t, Queued);
  }

  lemma BeginKeeps(limit: nat, s: State, t: nat)
    requires Inv(limit, s) && Enabled(s, Begin(t))
    ensures Inv(limit, Begun(limit, s, t))
  {
    assert ResultOk(limit, s.incs, s.docs, s.works, s.workers[t], t);
    WorkerMoves(limit, s, t, Begun(limit, s, t).workers[t]);
  }

  lemma ComputeKeeps(limit: nat, s: State, t: nat, succeeds: bool)
    requires Inv(limit, s) && Enabled(s, Compute(t, succeeds))
    ensures Inv(limit, ComputedWork(s, t, succeeds))
  {
    assert ResultOk(limit, s.incs, s.docs, s.works, s.workers[t], t);
    WorkerMoves(limit, s, t, ComputedWork(s, t, succeeds).workers[t]);
  }

  lemma LockWorkerKeeps(limit: nat, s: State, t: nat)
    requires Inv(limit, s) && Enabled(s, LockWorker(t))
    ensures Inv(limit, Next(limit, s, LockWorker(t)))
  {
    assert ResultOk(limit, s.incs, s.docs, s.works, s.workers[t], t);
    WorkerMoves(limit, s, t, Deciding(s.workers[t].analysis));
  }

  lemma UnlockWorkerKeeps(limit: nat, s: State, t: nat)
    requires Inv(limit, s) && Enabled(s, UnlockWorker(t))
    ensures Inv(limit, Next(limit, s, UnlockWorker(t)))
  {
    assert ResultOk(limit, s.incs, s.docs, s.works, s.workers[t], t);
    WorkerMoves(limit, s, t, Accepted(s.workers[t].cached));
  }

  // ----- Installing and publishing -----

  /** In every reachable state the three guards of installation come to one: the work is current. */
  lemma MayInstallIsCurrent(limit: nat, s: State, t: nat)
    requires Inv(limit, s) && t < |s.works|
    ensures MayInstall(s, t) <==> Current(s.incs, s.docs, s.works, t)
  {
    var uri := s.incs[s.works[t].inc].uri;
    if uri in s.docs {
      assert IncOk(limit, s.works, s.docs[uri], s.incs[s.docs[uri]]);
    }
  }

  /** Every publication of a current work's opening is older than the work, which has not published yet. */
  lemma CurrentIsNewest(limit: nat, s: State, t: nat)
    requires Inv(limit, s) && Current(s.incs, s.docs, s.works, t) && s.workers[t].Deciding?
    ensures AllBelow(s.incs[s.works[t].inc].log, s.works[t].generation)
  {
    var i := s.works[t].inc;
    var log := s.incs[i].log;
    assert IncOk(limit, s.works, i, s.incs[i]) && LogOk(s.works, s.workers, i, log);
    forall k | 0 <= k < |log|
      ensures log[k].cached.generation < s.works[t].generation
    {
      assert PublicationOk(s.works, s.workers, i, log[k]);
      assert WorkOk(s.incs, s.works[log[k].token]);
    }
  }

  lemma IncsInstalled(limit: nat, s: State, t: nat, cached: Cached)
    requires Inv(limit, s) && Current(s.incs, s.docs, s.works, t) && CachedFor(limit, s.works[t], cached)
    ensures var i := s.works[t].inc;
            IncsOk(limit, s.works, s.incs[i := s.incs[i].(record := Installed(s.incs[i].record, cached))])
  {
    assert IncOk(limit, s.works, s.works[t].inc, s.incs[s.works[t].inc]);
  }

  /** Two lists of openings with the same documents and tokens. */
  predicate SameHeads(incs: Incs, incs': Incs) {
    |incs'| == |incs| && forall i :: 0 <= i < |incs| ==> incs'[i].uri == incs[i].uri && incs'[i].token == incs[i].token
  }

  lemma ResultsInstalled(limit: nat, s: State, t: nat, cached: Cached, incs': Incs)
    requires Inv(limit, s) && Current(s.incs, s.docs, s.works, t) && CachedFor(limit, s.works[t], cached)
    requires SameHeads(s.incs, incs') && incs'[s.works[t].inc].record.cached == Some(cached)
    requires forall i :: 0 <= i < |incs'| && i != s.works[t].inc ==> incs'[i] == s.incs[i]
    ensures ResultsOk(limit, incs', s.docs, s.works, s.workers[t := Publishing(cached)])
  {
    var workers' := s.workers[t := Publishing(cached)];
    forall k | 0 <= k < |workers'|
      ensures ResultOk(limit, incs', s.docs, s.works, workers'[k], k)
    {
      assert ResultOk(limit, s.incs, s.docs, s.works, s.workers[k], k);
    }
  }

  lemma CurrentByHeads(incs: Incs, incs': Incs, docs: Docs, works: seq<Work>, t: nat)
    requires SameHeads(incs, incs')
    ensures Current(incs', docs, works, t) <==> Current(incs, docs, works, t)
  {
  }

  lemma TargetsByHeads(incs: Incs, incs': Incs, docs: Docs, works: seq<Work>, handlers: seq<Handler>, cancelled: set<nat>)
    requires SameHeads(incs, incs') && TargetsOk(incs, docs, works, handlers) && CancelledOk(incs, docs, works, cancelled)
    ensures TargetsOk(incs', docs, works, handlers) && CancelledOk(incs', docs, works, cancelled)
  {
    forall h | 0 <= h < |handlers|
      ensures TargetOk(incs', docs, works, handlers[h])
    {
      assert TargetOk(incs, docs, works, handlers[h]);
      if handlers[h].Cancelling? {
        CurrentByHeads(incs, incs', docs, works, handlers[h].token);
      }
    }
    forall t <- cancelled
      ensures t < |works| && !Current(incs', docs, works, t)
    {
      CurrentByHeads(incs, incs', docs, works, t);
    }
  }

  predicate SameLogs(incs: Incs, incs': Incs) {
    |incs'| == |incs| && forall i :: 0 <= i < |incs| ==> incs'[i].log == incs[i].log
  }

  lemma LogsBySame(incs: Incs, incs': Incs, works: seq<Work>, workers: seq<Worker>)
    requires SameLogs(incs, incs') && LogsOk(incs, works, workers) && AllInLine(incs, works, workers)
    ensures LogsOk(incs', works, workers) && AllInLine(incs', works, workers)
  {
    forall i | 0 <= i < |incs'|
      ensures LogOk(works, workers, i, incs'[i].log)
    {
      assert LogOk(works, workers, i, incs[i].log);
    }
    forall t | 0 <= t < |works|
      ensures InLine(incs', works[t], workers[t])
    {
      assert InLine(incs, works[t], workers[t]);
    }
  }

  predicate SameGenerations(incs: Incs, incs': Incs) {
    |incs'| == |incs| && forall i :: 0 <= i < |incs| ==> incs'[i].record.generation == incs[i].record.generation
  }

  lemma GenerationsBySame(incs: Incs, incs': Incs, works: seq<Work>, readers: seq<Reader>)
    requires SameGenerations(incs, incs') && WorksOk(incs, works) && ReadersOk(incs, readers)
    ensures WorksOk(incs', works) && ReadersOk(incs', readers)
  {
    forall t | 0 <= t < |works|
      ensures WorkOk(incs', works[t])
    {
      assert WorkOk(incs, works[t]);
    }
    forall r | 0 <= r < |readers|
      ensures ReaderOk(incs', readers[r])
    {
      assert ReaderOk(incs, readers[r]);
    }
  }

  function InstalledIncs(incs: Incs, i: nat, cached: Cached): Incs
    requires i < |incs|
  {
    incs[i := incs[i].(record := Installed(incs[i].record, cached))]
  }

  lemma InstallLogs(limit: nat, s: State, t: nat, cached: Cached)
    requires Inv(limit, s) && Current(s.incs, s.docs, s.works, t) && s.workers[t].Deciding?
    ensures var incs', workers' := InstalledIncs(s.incs, s.works[t].inc, cached), s.workers[t := Publishing(cached)];
            Exclusive(s.works, workers') && LogsOk(incs', s.works, workers') && AllInLine(incs', s.works, workers')
  {
    var incs' := InstalledIncs(s.incs, s.works[t].inc, cached);
    HolderIsSole(s.works, s.workers, t);
    CurrentIsNewest(limit, s, t);
    ExclusiveAfter(s.works, s.workers, t, Publishing(cached));
    LogsAfter(s.incs, s.works, s.workers, t, Publishing(cached));
    InLineAfter(s.incs, s.works, s.workers, t, Publishing(cached));
    LogsBySame(s.incs, incs', s.works, s.workers[t := Publishing(cached)]);
  }

  lemma InstallKeeps(limit: nat, s: State, t: nat, cached: Cached)
    requires Inv(limit, s) && Current(s.incs, s.docs, s.works, t) && s.workers[t].Deciding?
    requires CachedFor(limit, s.works[t], cached)
    ensures Inv(limit, SetWorker(s, t, Publishing(cached)).(incs := InstalledIncs(s.incs, s.works[t].inc, cached)))
  {
    var incs' := InstalledIncs(s.incs, s.works[t].inc, cached);
    IncsInstalled(limit, s, t, cached);
    GenerationsBySame(s.incs, incs', s.works, s.readers);
    SpawnsAfter(s.workers, s.handlers, t, Publishing(cached));
    ResultsInstalled(limit, s, t, cached, incs');
    TargetsByHeads(s.incs, incs', s.docs, s.works, s.handlers, s.cancelled);
    InstallLogs(limit, s, t, cached);
  }

  lemma DecideKeeps(limit: nat, s: State, t: nat)
    requires Inv(limit, s) && Enabled(s, Decide(t))
    ensures Inv(limit, Decided(s, t))
  {
    MayInstallIsCurrent(limit, s, t);
    assert ResultOk(limit, s.incs, s.docs, s.works, s.workers[t], t);
    if MayInstall(s, t) {
      InstallKeeps(limit, s, t, Cached(s.works[t].generation, s.works[t].version, s.workers[t].analysis));
    } else {
      WorkerMoves(limit, s, t, Stale);
    }
  }

  lemma LogPublished(incs: Incs, works: seq<Work>, workers: seq<Worker>, t: nat, cached: Cached)
    requires |workers| == |works| && t < |works| && works[t].inc < |incs| && workers[t] == Publishing(cached)
    requires LogsOk(incs, works, workers) && InLine(incs, works[t], workers[t])
    requires cached.generation == works[t].generation
    ensures var i := works[t].inc;
            LogsOk(incs[i := incs[i].(log := incs[i].log + [Publication(t, cached)])], works, workers[t := Published(cached)])
  {
    var i := works[t].inc;
    var workers', log' := workers[t := Published(cached)], incs[i].log + [Publication(t, cached)];
    LogsAfter(incs, works, workers, t, Published(cached));
    assert LogOk(works, workers', i, incs[i].log);
    assert PublicationOk(works, workers', i, Publication(t, cached));
  }

  lemma InLinePublished(incs: Incs, works: seq<Work>, workers: seq<Worker>, t: nat, cached: Cached, incs': Incs)
    requires AllInLine(incs, works, workers) && t < |works| && works[t].inc < |incs| == |incs'|
    requires Sole(works, workers, t)
    requires forall i :: 0 <= i < |incs| && i != works[t].inc ==> incs'[i] == incs[i]
    ensures AllInLine(incs', works, workers[t := Published(cached)])
  {
    var workers' := workers[t := Published(cached)];
    forall k | 0 <= k < |works|
      ensures InLine(incs', works[k], workers'[k])
    {
      assert InLine(incs, works[k], workers[k]);
    }
  }

  lemma ResultsPublished(limit: nat, s: State, t: nat, cached: Cached, incs': Incs)
    requires Inv(limit, s) && t < |s.works| && s.workers[t] == Publishing(cached)
    requires SameHeads(s.incs, incs') && forall i :: 0 <= i < |incs'| ==> incs'[i].record == s.incs[i].record
    ensures ResultsOk(limit, incs', s.docs, s.works, s.workers[t := Published(cached)])
  {
    var workers' := s.workers[t := Published(cached)];
    forall k | 0 <= k < |workers'|
      ensures ResultOk(limit, incs', s.docs, s.works, workers'[k], k)
    {
      assert ResultOk(limit, s.incs, s.docs, s.works, s.workers[k], k);
      CurrentByHeads(s.incs, incs', s.docs, s.works, k);
    }
  }

  lemma IncsPublished(limit: nat, works: seq<Work>, incs: Incs, i: nat, log: seq<Publication>)
    requires IncsOk(limit, works, incs) && i < |incs|
    ensures IncsOk(limit, works, incs[i := incs[i].(log := log)])
  {
    assert IncOk(limit, works, i, incs[i]);
  }

  function PublishedIncs(incs: Incs, i: nat, t: nat, cached: Cached): Incs
    requires i < |incs|
  {
    incs[i := incs[i].(log := incs[i].log + [Publication(t, cached)])]
  }

  lemma PublishLogs(limit: nat, s: State, t: nat, cached: Cached)
    requires Inv(limit, s) && t < |s.works| && s.workers[t] == Publishing(cached)
    ensures var incs', workers' := PublishedIncs(s.incs, s.works[t].inc, t, cached), s.workers[t := Published(cached)];
            Exclusive(s.works, workers') && LogsOk(incs', s.works, workers') && AllInLine(incs', s.works, workers')
  {
    assert ResultOk(limit, s.incs, s.docs, s.works, s.workers[t], t) && InLine(s.incs, s.works[t], s.workers[t]);
    HolderIsSole(s.works, s.workers, t);
    ExclusiveAfter(s.works, s.workers, t, Published(cached));
    LogPublished(s.incs, s.works, s.workers, t, cached);
    InLinePublished(s.incs, s.works, s.workers, t, cached, PublishedIncs(s.incs, s.works[t].inc, t, cached));
  }

  lemma PublishKeeps(limit: nat, s: State, t: nat)
    requires Inv(limit, s) && Enabled(s, Publish(t))
    ensures Inv(limit, PublishedWork(s, t))
  {
    var i, cached := s.works[t].inc, s.workers[t].cached;
    var incs' := PublishedIncs(s.incs, i, t, cached);
    IncsPublished(limit, s.works, s.incs, i, incs'[i].log);
    GenerationsBySame(s.incs, incs', s.works, s.readers);
    SpawnsAfter(s.workers, s.handlers, t, Published(cached));
    ResultsPublished(limit, s, t, cached, incs');
    TargetsByHeads(s.incs, incs', s.docs, s.works, s.handlers, s.cancelled);
    PublishLogs(limit, s, t, cached);
  }

  // ----- Readers -----

  lemma ReaderKeeps(limit: nat, s: State, a: Action)
    requires Inv(limit, s) && Enabled(s, a) && (a.Subscribe? || a.Borrow? || a.GiveUp?)
    ensures Inv(limit, Next(limit, s, a))
  {
    if a.Borrow? {
      assert ReaderOk(s.incs, s.readers[a.r]);
      assert IncOk(limit, s.works, s.readers[a.r].inc, s.incs[s.readers[a.r].inc]);
    }
  }
}
