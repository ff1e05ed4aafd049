/**
  What a run amounts to, read off its actions alone: who asked for what, what each
  opening was opened with, which edits it then received, and which computations
  failed. No state of the store is consulted; that the store agrees with it, in
  every state a run can reach, is what is proved.
 */
module StoreLedger {
  import opened Text
  import opened Edits
  import opened DocumentRecord
  import opened DocumentStore
  import opened StoreInvariant
  import opened StoreActs

  // ----- Reading a run -----

  /** A change a document received, and the token of the work that started. */
  datatype Edit = Edit(token: nat, version: i32, changes: seq<Change>)

  /** One opening: what it was opened with, and its edits in order. */
  datatype Life = Life(uri: Uri, token: nat, text: string, version: i32, format: Format, edits: seq<Edit>)

  /** A request is ignored when it arrives for a document that is not open, unless it opens it. */
  datatype Fate = Pending | Ignored | Done

  datatype Subscription = Subscription(opening: nat, since: nat)

  datatype Ledger = Ledger(
    requests: seq<Request>,
    fates: seq<Fate>,
    lives: seq<Life>,
    open: map<Uri, nat>,
    tokens: nat,
    failed: set<nat>,
    subscriptions: seq<Option<Subscription>>)

  const BLANK := Ledger([], [], [], map[], 0, {}, [])

  function Newest(life: Life): (generation: nat)
    ensures generation >= 1
  {
    1 + |life.edits|
  }

  predicate HasGeneration(life: Life, generation: nat) {
    1 <= generation <= Newest(life)
  }

  /** The opened text with the edits applied in order. */
  function TextAfter(text: string, edits: seq<Edit>): string {
    if edits == [] then text
    else EditedAll(TextAfter(text, edits[..|edits| - 1]), edits[|edits| - 1].changes)
  }

  function TextAt(life: Life, generation: nat): string
    requires HasGeneration(life, generation)
  {
    TextAfter(life.text, life.edits[..generation - 1])
  }

  function VersionAt(life: Life, generation: nat): i32
    requires HasGeneration(life, generation)
  {
    if generation == 1 then life.version else life.edits[generation - 2].version
  }

  function TokenAt(life: Life, generation: nat): nat
    requires HasGeneration(life, generation)
  {
    if generation == 1 then life.token else life.edits[generation - 2].token
  }

  /** What a request does when it is acted on, to the document as it is then. */
  function Granted(l: Ledger, request: Request): Ledger {
    match request
    case OpenRequest(uri, text, version, format) =>
      l.(lives := l.lives + [Life(uri, l.tokens, text, version, format, [])], open := l.open[uri := |l.lives|],
         tokens := l.tokens + 1)
    case ChangeRequest(uri, version, changes) =>
      if uri in l.open && l.open[uri] < |l.lives| then
        var i := l.open[uri];
        l.(lives := l.lives[i := l.lives[i].(edits := l.lives[i].edits + [Edit(l.tokens, version, changes)])],
           tokens := l.tokens + 1)
      else l
    case CloseRequest(uri) => l.(open := l.open - {uri})
  }

  /** One action further. */
  function Entered(l: Ledger, a: Action): Ledger {
    match a
    case Arrive(request) =>
      l.(requests := l.requests + [request],
         fates := l.fates + [if request.uri in l.open || request.OpenRequest? then Pending else Ignored])
    case Act(h) =>
      if h < |l.requests| == |l.fates| then Granted(l, l.requests[h]).(fates := l.fates[h := Done]) else l
    case Compute(t, succeeds) => if succeeds then l else l.(failed := l.failed + {t})
    case Subscribe(uri) =>
      l.(subscriptions := l.subscriptions
                          + [if uri in l.open && l.open[uri] < |l.lives|
                             then Some(Subscription(l.open[uri], Newest(l.lives[l.open[uri]])))
                             else None])
    case _ => l
  }

  /** The ledger of a run. */
  function LedgerOf(actions: seq<Action>): Ledger {
    if actions == [] then BLANK else Entered(LedgerOf(actions[..|actions| - 1]), actions[|actions| - 1])
  }

  predicate IsOpen(l: Ledger, i: nat) {
    i < |l.lives| && l.lives[i].uri in l.open && l.open[l.lives[i].uri] == i
  }

  /** What an opening's analysis at a generation has to come to. */
  function AnalysisAt(limit: nat, l: Ledger, i: nat, generation: nat): Analysis
    requires i < |l.lives| && HasGeneration(l.lives[i], generation)
  {
    var text := TextAt(l.lives[i], generation);
    if ByteLen(text) > limit then Oversized(ByteLen(text), limit)
    else if TokenAt(l.lives[i], generation) in l.failed then Failed
    else Computed(text, l.lives[i].format, generation)
  }

  /** The one result an opening can have at a generation. */
  function ResultAt(limit: nat, l: Ledger, i: nat, generation: nat): Cached
    requires i < |l.lives| && HasGeneration(l.lives[i], generation)
  {
    Cached(generation, VersionAt(l.lives[i], generation), AnalysisAt(limit, l, i, generation))
  }

  // ----- The store agrees with the ledger -----

  predicate HandlerAgrees(l: Ledger, handler: Handler, h: nat) {
    && h < |l.requests| == |l.fates|
    && (l.fates[h].Pending? <==> handler.Waiting? || handler.Holding?)
    && (l.fates[h].Pending? ==> handler.request == l.requests[h])
  }

  predicate HandlersAgree(l: Ledger, handlers: seq<Handler>) {
    |l.requests| == |l.fates| == |handlers| && forall h :: 0 <= h < |handlers| ==> HandlerAgrees(l, handlers[h], h)
  }

  /** The mirror, version, generation, format and work of an opening are those of its newest generation. */
  predicate OpeningAgrees(life: Life, inc: Incarnation) {
    var (r, newest) := (inc.record, Newest(life));
    && inc.uri == life.uri && r.format == life.format && r.generation == newest
    && r.text == TextAt(life, newest) && r.version == VersionAt(life, newest) && inc.token == TokenAt(life, newest)
  }

  predicate OpeningsAgree(l: Ledger, incs: Incs) {
    |l.lives| == |incs| && forall i :: 0 <= i < |incs| ==> OpeningAgrees(l.lives[i], incs[i])
  }

  /** A work item has the text, version and format of its opening at its generation, and the token of that generation. */
  predicate WorkAgrees(l: Ledger, work: Work, t: nat) {
    && work.inc < |l.lives| && HasGeneration(l.lives[work.inc], work.generation)
    && var life := l.lives[work.inc];
       && TokenAt(life, work.generation) == t && work.text == TextAt(life, work.generation)
       && work.version == VersionAt(life, work.generation) && work.format == life.format
  }

  predicate WorksAgree(l: Ledger, works: seq<Work>) {
    && l.tokens == |works| && (forall t <- l.failed :: t < |works|)
    && forall t :: 0 <= t < |works| ==> WorkAgrees(l, works[t], t)
  }

  predicate HasInstalled(worker: Worker) {
    worker.Publishing? || worker.Published? || worker.Accepted?
  }

  /** A worker's result is the one its generation can have. */
  predicate WorkerAgrees(limit: nat, l: Ledger, work: Work, worker: Worker, t: nat) {
    && WorkAgrees(l, work, t)
    && match worker
       case Unspawned(_) => t !in l.failed
       case Queued => t !in l.failed
       case Computing => t !in l.failed
       case Ready(a) => a == AnalysisAt(limit, l, work.inc, work.generation)
       case Deciding(a) => a == AnalysisAt(limit, l, work.inc, work.generation)
       case Cancelled => true
       case Stale => true
       case _ => worker.cached == ResultAt(limit, l, work.inc, work.generation)
  }

  predicate WorkersAgree(limit: nat, l: Ledger, works: seq<Work>, workers: seq<Worker>) {
    |workers| == |works| && forall t :: 0 <= t < |workers| ==> WorkerAgrees(limit, l, works[t], workers[t], t)
  }

  /** What an opening has cached is what its present worker installed. */
  predicate CacheAgrees(workers: seq<Worker>, inc: Incarnation) {
    inc.record.cached.Some? ==>
      && inc.token < |workers| && HasInstalled(workers[inc.token])
      && inc.record.cached == Some(workers[inc.token].cached)
  }

  predicate CachesAgree(workers: seq<Worker>, incs: Incs) {
    forall i :: 0 <= i < |incs| ==> CacheAgrees(workers, incs[i])
  }

  /** A reply is what some worker of the opening subscribed to installed; there is none only if the opening is gone. */
  predicate ReaderAgrees(l: Ledger, works: seq<Work>, workers: seq<Worker>, reader: Reader, r: nat) {
    && r < |l.subscriptions|
    && match reader
       case Subscribed(i, since) => l.subscriptions[r] == Some(Subscription(i, since)) && i < |l.lives|
       case Answered(None, _) =>
         l.subscriptions[r].Some? ==>
           l.subscriptions[r].value.opening < |l.lives| && !IsOpen(l, l.subscriptions[r].value.opening)
       case Answered(Some(reply), since) =>
         && l.subscriptions[r].Some? && since == l.subscriptions[r].value.since
         && var i := l.subscriptions[r].value.opening;
            && i < |l.lives| && HasGeneration(l.lives[i], reply.generation)
            && var t := TokenAt(l.lives[i], reply.generation);
               && t < |workers| == |works| && works[t].inc == i && works[t].generation == reply.generation
               && HasInstalled(workers[t]) && workers[t].cached == reply
  }

  predicate ReadersAgree(l: Ledger, works: seq<Work>, workers: seq<Worker>, readers: seq<Reader>) {
    |l.subscriptions| == |readers| && forall r :: 0 <= r < |readers| ==> ReaderAgrees(l, works, workers, readers[r], r)
  }

  predicate Agrees(limit: nat, l: Ledger, s: State) {
    && HandlersAgree(l, s.handlers) && l.open == s.docs
    && OpeningsAgree(l, s.incs) && WorksAgree(l, s.works) && WorkersAgree(limit, l, s.works, s.workers)
    && CachesAgree(s.workers, s.incs) && ReadersAgree(l, s.works, s.workers, s.readers)
  }

  // ----- The ledger only grows -----

  predicate Grows(l: Ledger, l': Ledger) {
    && |l.lives| <= |l'.lives| && l.failed == l'.failed
    && forall i :: 0 <= i < |l.lives| ==> LivesOn(l.lives[i], l'.lives[i])
  }

  predicate LivesOn(life: Life, life': Life) {
    && life.uri == life'.uri && life.token == life'.token && life.text == life'.text && life.version == life'.version
    && life.format == life'.format && life.edits <= life'.edits
  }

  /** An opening's past does not change. */
  lemma PastStays(life: Life, life': Life, generation: nat)
    requires LivesOn(life, life') && HasGeneration(life, generation)
    ensures HasGeneration(life', generation)
    ensures TextAt(life', generation) == TextAt(life, generation)
    ensures VersionAt(life', generation) == VersionAt(life, generation)
    ensures TokenAt(life', generation) == TokenAt(life, generation)
  {
    assert life'.edits[..generation - 1] == life.edits[..generation - 1];
  }

  lemma WorkersStay(limit: nat, l: Ledger, l': Ledger, works: seq<Work>, workers: seq<Worker>)
    requires Grows(l, l') && WorkersAgree(limit, l, works, workers)
    ensures WorkersAgree(limit, l', works, workers)
  {
    forall t | 0 <= t < |workers|
      ensures WorkerAgrees(limit, l', works[t], workers[t], t)
    {
      assert WorkerAgrees(limit, l, works[t], workers[t], t);
      PastStays(l.lives[works[t].inc], l'.lives[works[t].inc], works[t].generation);
    }
  }

  lemma WorksStay(l: Ledger, l': Ledger, works: seq<Work>)
    requires Grows(l, l') && WorksAgree(l, works)
    ensures forall t :: 0 <= t < |works| ==> WorkAgrees(l', works[t], t)
  {
    forall t | 0 <= t < |works|
      ensures WorkAgrees(l', works[t], t)
    {
      assert WorkAgrees(l, works[t], t);
      PastStays(l.lives[works[t].inc], l'.lives[works[t].inc], works[t].generation);
    }
  }

  /** Once an opening is not open, it is not open again. */
  predicate NoneReopens(l: Ledger, l': Ledger) {
    forall i :: 0 <= i < |l.lives| && IsOpen(l', i) ==> IsOpen(l, i)
  }

  /** Workers that installed keep what they installed. */
  predicate InstallsStay(workers: seq<Worker>, workers': seq<Worker>) {
    && |workers| <= |workers'|
    && forall t :: 0 <= t < |workers| && HasInstalled(workers[t]) ==>
         HasInstalled(workers'[t]) && workers'[t].cached == workers[t].cached
  }

  lemma ReadersStay(l: Ledger, l': Ledger, works: seq<Work>, works': seq<Work>,
                    workers: seq<Worker>, workers': seq<Worker>, readers: seq<Reader>)
    requires ReadersAgree(l, works, workers, readers) && works <= works' && |workers'| == |works'| && l'.subscriptions == l.subscriptions
    requires Grows(l, l') && NoneReopens(l, l') && InstallsStay(workers, workers')
    ensures ReadersAgree(l', works', workers', readers)
  {
    forall r | 0 <= r < |readers|
      ensures ReaderAgrees(l', works', workers', readers[r], r)
    {
      assert ReaderAgrees(l, works, workers, readers[r], r);
      if readers[r].Answered? && readers[r].reply.Some? {
        var i := l.subscriptions[r].value.opening;
        PastStays(l.lives[i], l'.lives[i], readers[r].reply.value.generation);
      }
    }
  }

  lemma CachesStay(workers: seq<Worker>, workers': seq<Worker>, incs: Incs)
    requires CachesAgree(workers, incs) && InstallsStay(workers, workers')
    ensures CachesAgree(workers', incs)
  {
    forall i | 0 <= i < |incs|
      ensures CacheAgrees(workers', incs[i])
    {
      assert CacheAgrees(workers, incs[i]);
    }
  }

  // ----- Steps that only move a handler -----

  lemma HandlersMove(l: Ledger, handlers: seq<Handler>, h: nat, handler: Handler)
    requires HandlersAgree(l, handlers) && h < |handlers| && HandlerAgrees(l, handler, h)
    ensures HandlersAgree(l, handlers[h := handler])
  {
  }

  lemma ArriveAgrees(limit: nat, l: Ledger, s: State, request: Request)
    requires Inv(limit, s) && Agrees(limit, l, s)
    ensures Agrees(limit, Entered(l, Arrive(request)), Arrived(s, request))
  {
    var l', s' := Entered(l, Arrive(request)), Arrived(s, request);
    forall h | 0 <= h < |s'.handlers|
      ensures HandlerAgrees(l', s'.handlers[h], h)
    {
      assert h < |s.handlers| ==> HandlerAgrees(l, s.handlers[h], h);
    }
    WorkersStay(limit, l, l', s.works, s.workers);
    WorksStay(l, l', s.works);
    ReadersStay(l, l', s.works, s.works, s.workers, s.workers, s.readers);
  }

  lemma HandlerAlone(limit: nat, l: Ledger, s: State, h: nat, handler: Handler)
    requires Agrees(limit, l, s) && h < |s.handlers| && HandlerAgrees(l, handler, h)
    ensures Agrees(limit, l, SetHandler(s, h, handler))
  {
    HandlersMove(l, s.handlers, h, handler);
  }

  // ----- Steps of a worker -----

  lemma WorkerAlone(limit: nat, l: Ledger, s: State, t: nat, worker: Worker)
    requires Agrees(limit, l, s) && t < |s.workers| && WorkerAgrees(limit, l, s.works[t], worker, t)
    requires HasInstalled(s.workers[t]) ==> HasInstalled(worker) && worker.cached == s.workers[t].cached
    ensures Agrees(limit, l, SetWorker(s, t, worker))
  {
    var workers' := s.workers[t := worker];
    CachesStay(s.workers, workers', s.incs);
    ReadersStay(l, l, s.works, s.works, s.workers, workers', s.readers);
  }

  lemma ComputeAgrees(limit: nat, l: Ledger, s: State, t: nat, succeeds: bool)
    requires Agrees(limit, l, s) && Enabled(s, Compute(t, succeeds)) && ByteLen(s.works[t].text) <= limit
    ensures Agrees(limit, Entered(l, Compute(t, succeeds)), ComputedWork(s, t, succeeds))
  {
    var l', s' := Entered(l, Compute(t, succeeds)), ComputedWork(s, t, succeeds);
    assert WorkerAgrees(limit, l, s.works[t], s.workers[t], t);
    forall k | 0 <= k < |s'.workers|
      ensures WorkerAgrees(limit, l', s'.works[k], s'.workers[k], k)
    {
      assert WorkerAgrees(limit, l, s.works[k], s.workers[k], k);
    }
    forall k | 0 <= k < |s.works|
      ensures WorkAgrees(l', s.works[k], k)
    {
      assert WorkAgrees(l, s.works[k], k);
    }
    CachesStay(s.workers, s'.workers, s.incs);
    forall r | 0 <= r < |s.readers|
      ensures ReaderAgrees(l', s'.works, s'.workers, s.readers[r], r)
    {
      assert ReaderAgrees(l, s.works, s.workers, s.readers[r], r);
    }
  }

  lemma SpawnAgrees(limit: nat, l: Ledger, s: State, h: nat)
    requires Inv(limit, s) && Agrees(limit, l, s) && Enabled(s, Spawn(h))
    ensures Agrees(limit, l, Next(limit, s, Spawn(h)))
  {
    var t := s.handlers[h].token;
    assert CarriedOk(s.workers, s.handlers[h], h);
    assert WorkerAgrees(limit, l, s.works[t], s.workers[t], t);
    assert HandlerAgrees(l, s.handlers[h], h);
    HandlerAlone(limit, l, s, h, Leaving(s.handlers[h].gate));
    WorkerAlone(limit, l, SetHandler(s, h, Leaving(s.handlers[h].gate)), t, Queued);
  }

  lemma BeginAgrees(limit: nat, l: Ledger, s: State, t: nat)
    requires Agrees(limit, l, s) && Enabled(s, Begin(t))
    ensures Agrees(limit, l, Begun(limit, s, t))
  {
    assert WorkerAgrees(limit, l, s.works[t], s.workers[t], t);
    WorkerAlone(limit, l, s, t, Begun(limit, s, t).workers[t]);
  }

  lemma LockWorkerAgrees(limit: nat, l: Ledger, s: State, t: nat)
    requires Agrees(limit, l, s) && Enabled(s, LockWorker(t))
    ensures Agrees(limit, l, Next(limit, s, LockWorker(t)))
  {
    assert WorkerAgrees(limit, l, s.works[t], s.workers[t], t);
    WorkerAlone(limit, l, s, t, Deciding(s.workers[t].analysis));
  }

  lemma UnlockWorkerAgrees(limit: nat, l: Ledger, s: State, t: nat)
    requires Agrees(limit, l, s) && Enabled(s, UnlockWorker(t))
    ensures Agrees(limit, l, Next(limit, s, UnlockWorker(t)))
  {
    assert WorkerAgrees(limit, l, s.works[t], s.workers[t], t);
    WorkerAlone(limit, l, s, t, Accepted(s.workers[t].cached));
  }

  lemma DecideAgrees(limit: nat, l: Ledger, s: State, t: nat)
    requires Inv(limit, s) && Agrees(limit, l, s) && Enabled(s, Decide(t))
    ensures Agrees(limit, l, Decided(s, t))
  {
    var s' := Decided(s, t);
    assert WorkerAgrees(limit, l, s.works[t], s.workers[t], t);
    MayInstallIsCurrent(limit, s, t);
    WorkerAlone(limit, l, s, t, s'.workers[t]);
    forall i | 0 <= i < |s'.incs|
      ensures OpeningAgrees(l.lives[i], s'.incs[i]) && CacheAgrees(s'.workers, s'.incs[i])
    {
      assert OpeningAgrees(l.lives[i], s.incs[i]) && CacheAgrees(SetWorker(s, t, s'.workers[t]).workers, s.incs[i]);
    }
  }

  lemma PublishAgrees(limit: nat, l: Ledger, s: State, t: nat)
    requires Agrees(limit, l, s) && Enabled(s, Publish(t))
    ensures Agrees(limit, l, PublishedWork(s, t))
  {
    var s' := PublishedWork(s, t);
    assert WorkerAgrees(limit, l, s.works[t], s.workers[t], t);
    WorkerAlone(limit, l, s, t, s'.workers[t]);
    forall i | 0 <= i < |s'.incs|
      ensures OpeningAgrees(l.lives[i], s'.incs[i]) && CacheAgrees(s'.workers, s'.incs[i])
    {
      assert OpeningAgrees(l.lives[i], s.incs[i]) && CacheAgrees(SetWorker(s, t, s'.workers[t]).workers, s.incs[i]);
    }
  }

  // ----- Readers -----

  lemma SubscribeAgrees(limit: nat, l: Ledger, s: State, uri: Uri)
    requires Inv(limit, s) && Agrees(limit, l, s)
    ensures Agrees(limit, Entered(l, Subscribe(uri)), SubscribedTo(s, uri))
  {
    var l', s' := Entered(l, Subscribe(uri)), SubscribedTo(s, uri);
    WorkersStay(limit, l, l', s.works, s.workers);
    WorksStay(l, l', s.works);
    assert uri in s.docs ==> OpeningAgrees(l.lives[s.docs[uri]], s.incs[s.docs[uri]]);
    forall r | 0 <= r < |s'.readers|
      ensures ReaderAgrees(l', s'.works, s'.workers, s'.readers[r], r)
    {
      assert r < |s.readers| ==> ReaderAgrees(l, s.works, s.workers, s.readers[r], r);
    }
  }

  lemma ReaderAlone(limit: nat, l: Ledger, s: State, r: nat, reader: Reader)
    requires Agrees(limit, l, s) && r < |s.readers| && ReaderAgrees(l, s.works, s.workers, reader, r)
    ensures Agrees(limit, l, s.(readers := s.readers[r := reader]))
  {
  }

  lemma BorrowAgrees(limit: nat, l: Ledger, s: State, r: nat)
    requires Inv(limit, s) && Agrees(limit, l, s) && Enabled(s, Borrow(r))
    ensures Agrees(limit, l, Next(limit, s, Borrow(r)))
  {
    var i := s.readers[r].inc;
    assert ReaderAgrees(l, s.works, s.workers, s.readers[r], r);
    assert IncOk(limit, s.works, i, s.incs[i]) && OpeningAgrees(l.lives[i], s.incs[i]) && CacheAgrees(s.workers, s.incs[i]);
    ReaderAlone(limit, l, s, r, Next(limit, s, Borrow(r)).readers[r]);
  }

  lemma GiveUpAgrees(limit: nat, l: Ledger, s: State, r: nat)
    requires Agrees(limit, l, s) && Enabled(s, GiveUp(r))
    ensures Agrees(limit, l, Next(limit, s, GiveUp(r)))
  {
    var i := s.readers[r].inc;
    assert ReaderAgrees(l, s.works, s.workers, s.readers[r], r) && OpeningAgrees(l.lives[i], s.incs[i]);
    ReaderAlone(limit, l, s, r, Next(limit, s, GiveUp(r)).readers[r]);
  }

  // ----- Acts -----

  /** The parts an act leaves to check: the request is done, and the openings and works are the ledger's. */
  lemma ActRest(limit: nat, l: Ledger, l': Ledger, s: State, s': State, h: nat)
    requires Agrees(limit, l, s) && h < |s.handlers| && s.handlers[h].Holding?
    requires Grows(l, l') && NoneReopens(l, l')
    requires l'.requests == l.requests && l'.fates == l.fates[h := Done] && l'.subscriptions == l.subscriptions
    requires |s'.handlers| == |s.handlers| && s'.handlers == s.handlers[h := s'.handlers[h]]
    requires !s'.handlers[h].Waiting? && !s'.handlers[h].Holding?
    requires s.works <= s'.works && s.workers <= s'.workers && s'.readers == s.readers && |s'.workers| == |s'.works|
    requires forall t :: |s.works| <= t < |s'.works| ==> WorkAgrees(l', s'.works[t], t) && s'.workers[t].Unspawned?
    requires l'.open == s'.docs && l'.tokens == |s'.works| && OpeningsAgree(l', s'.incs)
    requires forall i :: 0 <= i < |s'.incs| && s'.incs[i].record.cached.Some? ==> i < |s.incs| && s'.incs[i] == s.incs[i]
    ensures Agrees(limit, l', s')
  {
    forall k | 0 <= k < |s'.handlers|
      ensures HandlerAgrees(l', s'.handlers[k], k)
    {
      assert HandlerAgrees(l, s.handlers[k], k);
    }
    WorkersStay(limit, l, l', s.works, s.workers);
    WorksStay(l, l', s.works);
    ReadersStay(l, l', s.works, s'.works, s.workers, s'.workers, s.readers);
    forall i | 0 <= i < |s'.incs|
      ensures CacheAgrees(s'.workers, s'.incs[i])
    {
      assert i < |s.incs| ==> CacheAgrees(s.workers, s.incs[i]);
    }
    forall t | 0 <= t < |s'.works|
      ensures WorkAgrees(l', s'.works[t], t) && WorkerAgrees(limit, l', s'.works[t], s'.workers[t], t)
    {
      assert t < |s.works| ==> WorkerAgrees(limit, l', s.works[t], s.workers[t], t) && WorkAgrees(l', s.works[t], t);
    }
  }

  lemma OpenAgrees(limit: nat, l: Ledger, s: State, h: nat)
    requires Agrees(limit, l, s) && Enabled(s, Act(h)) && s.handlers[h].request.OpenRequest?
    ensures Agrees(limit, Entered(l, Act(h)), ActOpen(s, h))
  {
    var l', s' := Entered(l, Act(h)), ActOpen(s, h);
    assert HandlerAgrees(l, s.handlers[h], h);
    forall i | 0 <= i < |s'.incs|
      ensures OpeningAgrees(l'.lives[i], s'.incs[i])
    {
      assert i < |s.incs| ==> OpeningAgrees(l.lives[i], s.incs[i]);
    }
    ActRest(limit, l, l', s, s', h);
  }

  /** The generation a change starts. */
  lemma ChangedLife(life: Life, inc: Incarnation, token: nat, version: i32, changes: seq<Change>)
    requires OpeningAgrees(life, inc)
    ensures var life' := life.(edits := life.edits + [Edit(token, version, changes)]);
            LivesOn(life, life')
            && OpeningAgrees(life', inc.(record := Changed(inc.record, version, changes), token := token))
  {
    var edits' := life.edits + [Edit(token, version, changes)];
    assert edits'[..|life.edits|] == life.edits && life.edits[..|life.edits|] == life.edits;
    assert edits'[..|edits'|] == edits';
  }

  lemma ChangeAgrees(limit: nat, l: Ledger, s: State, h: nat)
    requires Agrees(limit, l, s) && Enabled(s, Act(h))
    requires s.handlers[h].request.ChangeRequest? && s.handlers[h].request.uri in s.docs
    ensures Agrees(limit, Entered(l, Act(h)), ActChange(s, h))
  {
    var l', s', request := Entered(l, Act(h)), ActChange(s, h), s.handlers[h].request;
    assert HandlerAgrees(l, s.handlers[h], h);
    var k := s.docs[request.uri];
    assert OpeningAgrees(l.lives[k], s.incs[k]);
    ChangedLife(l.lives[k], s.incs[k], l.tokens, request.version, request.changes);
    forall i | 0 <= i < |s'.incs|
      ensures OpeningAgrees(l'.lives[i], s'.incs[i])
    {
      assert i != k ==> OpeningAgrees(l.lives[i], s.incs[i]);
    }
    ActRest(limit, l, l', s, s', h);
  }

  lemma OtherActAgrees(limit: nat, l: Ledger, s: State, h: nat)
    requires Agrees(limit, l, s) && Enabled(s, Act(h)) && !s.handlers[h].request.OpenRequest?
    requires s.handlers[h].request.ChangeRequest? ==> s.handlers[h].request.uri !in s.docs
    ensures Agrees(limit, Entered(l, Act(h)), Acted(s, h))
  {
    var l', s', request := Entered(l, Act(h)), Acted(s, h), s.handlers[h].request;
    assert HandlerAgrees(l, s.handlers[h], h);
    assert request.uri !in s.docs ==> s.docs - {request.uri} == s.docs;
    assert forall i :: 0 <= i < |s.incs| ==> OpeningAgrees(l'.lives[i], s'.incs[i]);
    ActRest(limit, l, l', s, s', h);
  }

  // ----- Runs -----

  lemma StepAgrees(limit: nat, l: Ledger, s: State, a: Action)
    requires Inv(limit, s) && Agrees(limit, l, s) && Enabled(s, a)
    ensures Agrees(limit, Entered(l, a), Next(limit, s, a))
  {
    match a {
      case Arrive(request) => ArriveAgrees(limit, l, s, request);
      case LockHandler(h) =>
        assert HandlerAgrees(l, s.handlers[h], h);
        HandlerAlone(limit, l, s, h, Holding(s.handlers[h].request, Some(s.handlers[h].lock)));
      case Act(h) => ActAgrees(limit, l, s, h);
      case CancelPrevious(h) =>
        assert HandlerAgrees(l, s.handlers[h], h);
        HandlerAlone(limit, l, s, h, CancelledPrevious(s, h).handlers[h]);
      case Spawn(h) => SpawnAgrees(limit, l, s, h);
      case UnlockHandler(h) =>
        assert HandlerAgrees(l, s.handlers[h], h);
        HandlerAlone(limit, l, s, h, Finished);
      case Begin(t) => BeginAgrees(limit, l, s, t);
      case Compute(t, succeeds) =>
        assert ResultOk(limit, s.incs, s.docs, s.works, s.workers[t], t);
        ComputeAgrees(limit, l, s, t, succeeds);
      case LockWorker(t) => LockWorkerAgrees(limit, l, s, t);
      case Decide(t) => DecideAgrees(limit, l, s, t);
      case Publish(t) => PublishAgrees(limit, l, s, t);
      case UnlockWorker(t) => UnlockWorkerAgrees(limit, l, s, t);
      case Subscribe(uri) => SubscribeAgrees(limit, l, s, uri);
      case Borrow(r) => BorrowAgrees(limit, l, s, r);
      case GiveUp(r) => GiveUpAgrees(limit, l, s, r);
    }
  }

  lemma ActAgrees(limit: nat, l: Ledger, s: State, h: nat)
    requires Agrees(limit, l, s) && Enabled(s, Act(h))
    ensures Agrees(limit, Entered(l, Act(h)), Acted(s, h))
  {
    var request := s.handlers[h].request;
    if request.OpenRequest? {
      OpenAgrees(limit, l, s, h);
    } else if request.ChangeRequest? && request.uri in s.docs {
      ChangeAgrees(limit, l, s, h);
    } else {
      OtherActAgrees(limit, l, s, h);
    }
  }

  /** After every run the store is what the run's ledger says. */
  lemma {:induction false} RunsAgree(limit: nat, s: State, actions: seq<Action>)
    requires Run(limit, INITIAL, actions) == Some(s)
    ensures Inv(limit, s) && Agrees(limit, LedgerOf(actions), s)
    decreases |actions|
  {
    if actions != [] {
      var n := |actions| - 1;
      var m := Run(limit, INITIAL, actions[..n]).value;
      RunsAgree(limit, m, actions[..n]);
      StepKeeps(limit, m, actions[n]);
      StepAgrees(limit, LedgerOf(actions[..n]), m, actions[n]);
    }
  }
}
