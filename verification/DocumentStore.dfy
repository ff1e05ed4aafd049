/**
  The document store as a state machine. Handlers, workers and readers take one
  small step at a time in any order; a run is any list of actions, each enabled
  where it is taken.

  A handler looks its document up, waits for that opening's publication gate, and
  only then looks the document up again, so what it acts on may be a newer opening
  than the one whose gate it holds. What happens under one map entry is one step.
 */
module DocumentStore {
  import opened Text
  import opened Edits
  import opened DocumentRecord

  type Uri = string

  datatype Publication = Publication(token: nat, cached: Cached)

  /**
    One opening of a document. Its index names its publication gate, and `log`
    records the results published.
   */
  datatype Incarnation = Incarnation(
    uri: Uri,
    record: Record,
    token: nat,
    log: seq<Publication>)

  /** A work item. Its index is the identity of its cancellation handle. */
  datatype Work = Work(inc: nat, generation: nat, text: string, version: i32, format: Format)

  /** Where the worker of a work item is; it holds the gate while deciding and publishing. */
  datatype Worker =
    | Unspawned(handler: nat)
    | Queued
    | Computing
    | Ready(analysis: Analysis)
    | Deciding(analysis: Analysis)
    | Publishing(cached: Cached)
    | Published(cached: Cached)
    | Accepted(cached: Cached)
    | Cancelled
    | Stale

  datatype Request =
    | OpenRequest(uri: Uri, text: string, version: i32, format: Format)
    | ChangeRequest(uri: Uri, version: i32, changes: seq<Change>)
    | CloseRequest(uri: Uri)

  /** Where a request's handler is. Opening a document nobody has open needs no gate. */
  datatype Handler =
    | Waiting(request: Request, lock: nat)
    | Holding(request: Request, gate: Option<nat>)
    | Cancelling(token: nat, next: Option<nat>, gate: Option<nat>)
    | Spawning(token: nat, gate: Option<nat>)
    | Leaving(gate: Option<nat>)
    | Finished

  /** A request for tokens: subscribed to an opening when it was at generation `since`, or answered. */
  datatype Reader = Subscribed(inc: nat, since: nat) | Answered(reply: Option<Cached>, since: nat)

  datatype State = State(
    incs: seq<Incarnation>,
    docs: map<Uri, nat>,
    works: seq<Work>,
    workers: seq<Worker>,
    handlers: seq<Handler>,
    readers: seq<Reader>,
    cancelled: set<nat>)

  const INITIAL := State([], map[], [], [], [], [], {})

  datatype Action =
    | Arrive(request: Request)
    | LockHandler(h: nat)
    | Act(h: nat)
    | CancelPrevious(h: nat)
    | Spawn(h: nat)
    | UnlockHandler(h: nat)
    | Begin(t: nat)
    | Compute(t: nat, succeeds: bool)
    | LockWorker(t: nat)
    | Decide(t: nat)
    | Publish(t: nat)
    | UnlockWorker(t: nat)
    | Subscribe(uri: Uri)
    | Borrow(r: nat)
    | GiveUp(r: nat)

  // ----- Reading a state -----

  /** The map holds every index it should; true of every reachable state. */
  predicate Shape(s: State) {
    && |s.workers| == |s.works|
    && (forall uri <- s.docs :: s.docs[uri] < |s.incs| && s.incs[s.docs[uri]].uri == uri)
    && (forall t :: 0 <= t < |s.works| ==> s.works[t].inc < |s.incs|)
    && (forall i :: 0 <= i < |s.incs| ==> s.incs[i].token < |s.works|)
  }

  /** Opening `i` is the one its document's entry holds. */
  predicate Live(incs: seq<Incarnation>, docs: map<Uri, nat>, i: nat) {
    i < |incs| && incs[i].uri in docs && docs[incs[i].uri] == i
  }

  /** Work `t` is that of a live document's present generation. */
  predicate Current(incs: seq<Incarnation>, docs: map<Uri, nat>, works: seq<Work>, t: nat) {
    t < |works| && Live(incs, docs, works[t].inc) && incs[works[t].inc].token == t
  }

  function HandlerGate(handler: Handler): Option<nat> {
    match handler
    case Waiting(_, _) => None
    case Finished => None
    case _ => handler.gate
  }

  predicate HoldsGate(worker: Worker) {
    worker.Deciding? || worker.Publishing? || worker.Published?
  }

  predicate Free(s: State, g: nat)
    requires Shape(s)
  {
    && (forall h :: 0 <= h < |s.handlers| ==> HandlerGate(s.handlers[h]) != Some(g))
    && (forall t :: 0 <= t < |s.workers| ==> !(HoldsGate(s.workers[t]) && s.works[t].inc == g))
  }

  // ----- What each step does -----

  function SetHandler(s: State, h: nat, handler: Handler): State
    requires h < |s.handlers|
  {
    s.(handlers := s.handlers[h := handler])
  }

  function SetWorker(s: State, t: nat, worker: Worker): State
    requires t < |s.workers|
  {
    s.(workers := s.workers[t := worker])
  }

  /** First lookup: find the gate to wait for, if the document is open. */
  function Arrived(s: State, request: Request): State {
    var handler :=
      if request.uri in s.docs then Waiting(request, s.docs[request.uri])
      else if request.OpenRequest? then Holding(request, None)
      else Finished;
    s.(handlers := s.handlers + [handler])
  }

  /** A new opening replaces whatever the entry held. */
  function ActOpen(s: State, h: nat): State
    requires Shape(s) && h < |s.handlers| && s.handlers[h].Holding? && s.handlers[h].request.OpenRequest?
  {
    var (request, gate) := (s.handlers[h].request, s.handlers[h].gate);
    var i, t := |s.incs|, |s.works|;
    var record := Opened(request.text, request.version, request.format);
    var handler := if request.uri in s.docs then Cancelling(s.incs[s.docs[request.uri]].token, Some(t), gate)
                   else Spawning(t, gate);
    s.(incs := s.incs + [Incarnation(request.uri, record, t, [])],
       docs := s.docs[request.uri := i],
       works := s.works + [Work(i, 1, request.text, request.version, request.format)],
       workers := s.workers + [Unspawned(h)],
       handlers := s.handlers[h := handler])
  }

  /** The document found now is edited in place, under its entry. */
  function ActChange(s: State, h: nat): State
    requires Shape(s) && h < |s.handlers| && s.handlers[h].Holding? && s.handlers[h].request.ChangeRequest?
    requires s.handlers[h].request.uri in s.docs
  {
    var (request, gate) := (s.handlers[h].request, s.handlers[h].gate);
    var i, t := s.docs[request.uri], |s.works|;
    var inc := s.incs[i];
    var record := Changed(inc.record, request.version, request.changes);
    s.(incs := s.incs[i := inc.(record := record, token := t)],
       works := s.works + [Work(i, record.generation, record.text, record.version, record.format)],
       workers := s.workers + [Unspawned(h)],
       handlers := s.handlers[h := Spawning(t, gate)],
       cancelled := s.cancelled + {inc.token})
  }

  function ActClose(s: State, h: nat): State
    requires Shape(s) && h < |s.handlers| && s.handlers[h].Holding?
    requires s.handlers[h].request.uri in s.docs
  {
    var (request, gate) := (s.handlers[h].request, s.handlers[h].gate);
    s.(docs := s.docs - {request.uri},
       handlers := s.handlers[h := Cancelling(s.incs[s.docs[request.uri]].token, None, gate)])
  }

  /** Second lookup, with the gate held: what is there now is what gets changed. */
  function Acted(s: State, h: nat): State
    requires Shape(s) && h < |s.handlers| && s.handlers[h].Holding?
  {
    var request := s.handlers[h].request;
    if request.OpenRequest? then ActOpen(s, h)
    else if request.uri !in s.docs then SetHandler(s, h, Leaving(s.handlers[h].gate))
    else if request.ChangeRequest? then ActChange(s, h)
    else ActClose(s, h)
  }

  function CancelledPrevious(s: State, h: nat): State
    requires h < |s.handlers| && s.handlers[h].Cancelling?
  {
    var handler := s.handlers[h];
    SetHandler(s, h, match handler.next case Some(t) => Spawning(t, handler.gate) case None => Leaving(handler.gate))
    .(cancelled := s.cancelled + {handler.token})
  }

  function Begun(limit: nat, s: State, t: nat): State
    requires Shape(s) && t < |s.works|
  {
    SetWorker(s, t,
              if t in s.cancelled then Cancelled
              else if ByteLen(s.works[t].text) > limit then Ready(Oversized(ByteLen(s.works[t].text), limit))
              else Computing)
  }

  function ComputedWork(s: State, t: nat, succeeds: bool): State
    requires Shape(s) && t < |s.works|
  {
    var work := s.works[t];
    SetWorker(s, t, Ready(if succeeds then Computed(work.text, work.format, work.generation) else Failed))
  }

  /** The three guards of installation: the document is there, at this generation, under this very handle. */
  predicate MayInstall(s: State, t: nat)
    requires Shape(s) && t < |s.works|
  {
    var work := s.works[t];
    var uri := s.incs[work.inc].uri;
    && uri in s.docs
    && s.incs[s.docs[uri]].record.generation == work.generation
    && s.incs[s.docs[uri]].token !in s.cancelled
    && s.incs[s.docs[uri]].token == t
  }

  /** Install and mirror into the watch channel, or give the result up and let the gate go. */
  function Decided(s: State, t: nat): State
    requires Shape(s) && t < |s.works| && s.workers[t].Deciding?
  {
    var work := s.works[t];
    if MayInstall(s, t) then
      var i := s.docs[s.incs[work.inc].uri];
      var cached := Cached(work.generation, work.version, s.workers[t].analysis);
      SetWorker(s, t, Publishing(cached))
      .(incs := s.incs[i := s.incs[i].(record := Installed(s.incs[i].record, cached))])
    else SetWorker(s, t, Stale)
  }

  function PublishedWork(s: State, t: nat): State
    requires Shape(s) && t < |s.works| && s.workers[t].Publishing?
  {
    var i := s.works[t].inc;
    var cached := s.workers[t].cached;
    SetWorker(s, t, Published(cached))
    .(incs := s.incs[i := s.incs[i].(log := s.incs[i].log + [Publication(t, cached)])])
  }

  function SubscribedTo(s: State, uri: Uri): State
    requires Shape(s)
  {
    s.(readers := s.readers + [if uri in s.docs then Subscribed(s.docs[uri], s.incs[s.docs[uri]].record.generation)
                               else Answered(None, 0)])
  }

  // ----- Steps and runs -----

  /** A reader answers once its opening has a value; it gives up only when the opening is gone without one. */
  predicate Enabled(s: State, a: Action) {
    Shape(s) &&
    match a
    case Arrive(_) => true
    case LockHandler(h) => h < |s.handlers| && s.handlers[h].Waiting? && Free(s, s.handlers[h].lock)
    case Act(h) => h < |s.handlers| && s.handlers[h].Holding?
    case CancelPrevious(h) => h < |s.handlers| && s.handlers[h].Cancelling?
    case Spawn(h) => h < |s.handlers| && s.handlers[h].Spawning? && s.handlers[h].token < |s.workers|
    case UnlockHandler(h) => h < |s.handlers| && s.handlers[h].Leaving?
    case Begin(t) => t < |s.workers| && s.workers[t].Queued?
    case Compute(t, _) => t < |s.workers| && s.workers[t].Computing?
    case LockWorker(t) => t < |s.workers| && s.workers[t].Ready? && Free(s, s.works[t].inc)
    case Decide(t) => t < |s.workers| && s.workers[t].Deciding?
    case Publish(t) => t < |s.workers| && s.workers[t].Publishing?
    case UnlockWorker(t) => t < |s.workers| && s.workers[t].Published?
    case Subscribe(_) => true
    case Borrow(r) =>
      && r < |s.readers| && s.readers[r].Subscribed? && s.readers[r].inc < |s.incs|
      && s.incs[s.readers[r].inc].record.watch.Some?
    case GiveUp(r) =>
      && r < |s.readers| && s.readers[r].Subscribed? && s.readers[r].inc < |s.incs|
      && !Live(s.incs, s.docs, s.readers[r].inc) && s.incs[s.readers[r].inc].record.watch.None?
  }

  function Next(limit: nat, s: State, a: Action): State
    requires Enabled(s, a)
  {
    match a
    case Arrive(request) => Arrived(s, request)
    case LockHandler(h) => SetHandler(s, h, Holding(s.handlers[h].request, Some(s.handlers[h].lock)))
    case Act(h) => Acted(s, h)
    case CancelPrevious(h) => CancelledPrevious(s, h)
    case Spawn(h) => SetWorker(SetHandler(s, h, Leaving(s.handlers[h].gate)), s.handlers[h].token, Queued)
    case UnlockHandler(h) => SetHandler(s, h, Finished)
    case Begin(t) => Begun(limit, s, t)
    case Compute(t, succeeds) => ComputedWork(s, t, succeeds)
    case LockWorker(t) => SetWorker(s, t, Deciding(s.workers[t].analysis))
    case Decide(t) => Decided(s, t)
    case Publish(t) => PublishedWork(s, t)
    case UnlockWorker(t) => SetWorker(s, t, Accepted(s.workers[t].cached))
    case Subscribe(uri) => SubscribedTo(s, uri)
    case Borrow(r) =>
      var reader := s.readers[r];
      s.(readers := s.readers[r := Answered(s.incs[reader.inc].record.watch, reader.since)])
    case GiveUp(r) => s.(readers := s.readers[r := Answered(None, s.readers[r].since)])
  }

  function Take(limit: nat, s: Option<State>, a: Action): Option<State> {
    if s.Some? && Enabled(s.value, a) then Some(Next(limit, s.value, a)) else None
  }

  /** Where a list of actions leads from `s`, if each is enabled in turn. */
  function Run(limit: nat, s: State, actions: seq<Action>): Option<State>
    decreases |actions|
  {
    if actions == [] then Some(s)
    else Take(limit, Run(limit, s, actions[..|actions| - 1]), actions[|actions| - 1])
  }

  ghost predicate Reachable(limit: nat, s: State) {
    exists actions :: Run(limit, INITIAL, actions) == Some(s)
  }
}
