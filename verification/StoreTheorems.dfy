/** What the document store promises over every run. */
module StoreTheorems {
  import opened Text
  import opened DocumentRecord
  import opened DocumentStore
  import opened StoreInvariant
  import opened StoreActs
  import opened StoreLedger

  // ----- What one step does to openings and works -----

  /** One opening later in its life: no earlier a generation, and at least the publications it had. */
  predicate Continues(inc: Incarnation, inc': Incarnation) {
    && inc.record.generation <= inc'.record.generation && inc.uri == inc'.uri
    && inc.log <= inc'.log
  }

  predicate AllContinue(incs: Incs, incs': Incs) {
    |incs| <= |incs'| && forall i :: 0 <= i < |incs| ==> Continues(incs[i], incs'[i])
  }

  /** The worker of token `t` may have moved on, but only by installing if its work was current. */
  predicate MovesOn(s: State, s': State, t: nat)
    requires t < |s.works| == |s.workers|
  {
    && t < |s'.works| == |s'.workers| && s'.works[t] == s.works[t]
    && (Current(s'.incs, s'.docs, s'.works, t) ==> Current(s.incs, s.docs, s.works, t))
    && (HasInstalled(s'.workers[t]) ==> HasInstalled(s.workers[t]) || Current(s.incs, s.docs, s.works, t))
  }

  /** A step that changes no opening, no entry and no list of works. */
  predicate IsQuiet(a: Action) {
    !a.Act? && !a.Decide? && !a.Publish?
  }

  lemma QuietStep(limit: nat, s: State, a: Action)
    requires Enabled(s, a) && IsQuiet(a)
    ensures var s' := Next(limit, s, a); s'.incs == s.incs && s'.docs == s.docs && s'.works == s.works
  {
  }

  lemma QuietWorkers(limit: nat, s: State, a: Action, t: nat)
    requires Enabled(s, a) && IsQuiet(a) && t < |s.workers|
    ensures var s' := Next(limit, s, a);
            |s'.workers| == |s.workers| && (HasInstalled(s'.workers[t]) ==> HasInstalled(s.workers[t]))
  {
  }

  lemma DecideKeepsHeads(s: State, t: nat)
    requires Enabled(s, Decide(t))
    ensures SameHeads(s.incs, Decided(s, t).incs) && Decided(s, t).docs == s.docs && Decided(s, t).works == s.works
  {
  }

  lemma PublishKeepsHeads(s: State, t: nat)
    requires Enabled(s, Publish(t))
    ensures var s' := PublishedWork(s, t); SameHeads(s.incs, s'.incs) && s'.docs == s.docs && s'.works == s.works
  {
  }

  lemma OpenContinues(s: State, h: nat)
    requires Enabled(s, Act(h)) && s.handlers[h].request.OpenRequest?
    ensures AllContinue(s.incs, ActOpen(s, h).incs) && s.works <= ActOpen(s, h).works
  {
  }

  lemma ChangeContinues(s: State, h: nat)
    requires Enabled(s, Act(h)) && s.handlers[h].request.ChangeRequest? && s.handlers[h].request.uri in s.docs
    ensures AllContinue(s.incs, ActChange(s, h).incs) && s.works <= ActChange(s, h).works
  {
  }

  lemma ActContinues(s: State, h: nat)
    requires Enabled(s, Act(h))
    ensures AllContinue(s.incs, Acted(s, h).incs) && s.works <= Acted(s, h).works
  {
    var request := s.handlers[h].request;
    if request.OpenRequest? {
      OpenContinues(s, h);
    } else if request.uri in s.docs && request.ChangeRequest? {
      ChangeContinues(s, h);
    }
  }

  lemma StepContinues(limit: nat, s: State, a: Action)
    requires Enabled(s, a)
    ensures AllContinue(s.incs, Next(limit, s, a).incs) && s.works <= Next(limit, s, a).works
  {
    if IsQuiet(a) {
      QuietStep(limit, s, a);
    } else if a.Act? {
      ActContinues(s, a.h);
    }
  }

  lemma OpenMovesOn(s: State, h: nat, t: nat)
    requires Enabled(s, Act(h)) && s.handlers[h].request.OpenRequest? && t < |s.works|
    ensures MovesOn(s, ActOpen(s, h), t)
  {
    var s' := ActOpen(s, h);
    OpenFades(s, s.handlers[h].request.uri, s'.incs[|s.incs|], s'.works[|s.works|]);
  }

  lemma ChangeMovesOn(s: State, h: nat, t: nat)
    requires Enabled(s, Act(h)) && s.handlers[h].request.ChangeRequest? && t < |s.works|
    requires s.handlers[h].request.uri in s.docs
    ensures MovesOn(s, ActChange(s, h), t)
  {
    var i, s' := s.docs[s.handlers[h].request.uri], ActChange(s, h);
    ChangeFades(s, i, s'.incs[i], s'.works[|s.works|]);
  }

  lemma ActMovesOn(s: State, h: nat, t: nat)
    requires Enabled(s, Act(h)) && t < |s.works|
    ensures MovesOn(s, Acted(s, h), t)
  {
    var request := s.handlers[h].request;
    if request.OpenRequest? {
      OpenMovesOn(s, h, t);
    } else if request.uri in s.docs {
      if request.ChangeRequest? {
        ChangeMovesOn(s, h, t);
      } else {
        CloseFades(s, request.uri);
      }
    }
  }

  lemma DecideMovesOn(limit: nat, s: State, k: nat, t: nat)
    requires Inv(limit, s) && Enabled(s, Decide(k)) && t < |s.works|
    ensures MovesOn(s, Decided(s, k), t)
  {
    MayInstallIsCurrent(limit, s, k);
    CurrentByHeads(s.incs, Decided(s, k).incs, s.docs, s.works, t);
  }

  lemma PublishMovesOn(s: State, k: nat, t: nat)
    requires Enabled(s, Publish(k)) && t < |s.works|
    ensures MovesOn(s, PublishedWork(s, k), t)
  {
    CurrentByHeads(s.incs, PublishedWork(s, k).incs, s.docs, s.works, t);
  }

  lemma StepMovesOn(limit: nat, s: State, a: Action, t: nat)
    requires Inv(limit, s) && Enabled(s, a) && t < |s.works|
    ensures MovesOn(s, Next(limit, s, a), t)
  {
    if a.Act? {
      ActMovesOn(s, a.h, t);
    } else if a.Decide? {
      DecideMovesOn(limit, s, a.t, t);
    } else if a.Publish? {
      PublishMovesOn(s, a.t, t);
    } else {
      QuietStep(limit, s, a);
      QuietWorkers(limit, s, a, t);
    }
  }

  // ----- Superseded work -----

  /** A newer generation, a close or a reopening replaces the current work of the document it finds. */
  lemma ActSupersedes(limit: nat, s: State, h: nat)
    requires Inv(limit, s) && Enabled(s, Act(h)) && s.handlers[h].request.uri in s.docs
    ensures var s' := Acted(s, h);
            var t := s.incs[s.docs[s.handlers[h].request.uri]].token;
            Current(s.incs, s.docs, s.works, t) && !Current(s'.incs, s'.docs, s'.works, t)
  {
    var i := s.docs[s.handlers[h].request.uri];
    assert IncOk(limit, s.works, i, s.incs[i]);
  }

  /** Work that is no longer current and was never installed. */
  predicate Superseded(s: State, t: nat) {
    t < |s.works| == |s.workers| && !Current(s.incs, s.docs, s.works, t) && !HasInstalled(s.workers[t])
  }

  /**
    Superseded work stays superseded on every continuation of the run, whatever
    generations later openings reach: its worker never installs.
   */
  lemma {:induction false} SupersededForever(limit: nat, s: State, t: nat, actions: seq<Action>)
    requires Inv(limit, s) && Superseded(s, t) && Run(limit, s, actions).Some?
    ensures Superseded(Run(limit, s, actions).value, t)
    decreases |actions|
  {
    if actions != [] {
      var n := |actions| - 1;
      var m := Run(limit, s, actions[..n]).value;
      SupersededForever(limit, s, t, actions[..n]);
      RunsKeep(limit, s, actions[..n]);
      StepMovesOn(limit, m, actions[n], t);
    }
  }

  /** And it is never published. */
  lemma SupersededNeverPublishes(limit: nat, s: State, t: nat, actions: seq<Action>)
    requires Reachable(limit, s) && Superseded(s, t) && Run(limit, s, actions).Some?
    ensures forall i, k :: 0 <= i < |Run(limit, s, actions).value.incs| && 0 <= k < |Run(limit, s, actions).value.incs[i].log|
              ==> Run(limit, s, actions).value.incs[i].log[k].token != t
  {
    ReachableKeeps(limit, s);
    SupersededForever(limit, s, t, actions);
    RunsKeep(limit, s, actions);
    var r := Run(limit, s, actions).value;
    forall i, k | 0 <= i < |r.incs| && 0 <= k < |r.incs[i].log|
      ensures r.incs[i].log[k].token != t
    {
      assert LogOk(r.works, r.workers, i, r.incs[i].log);
      assert PublicationOk(r.works, r.workers, i, r.incs[i].log[k]);
    }
  }

  // ----- What requests come to -----

  /** After any run, the open documents and their mirrors are what the requests acted on amount to. */
  lemma MirrorsFollowRequests(limit: nat, actions: seq<Action>, s: State)
    requires Run(limit, INITIAL, actions) == Some(s)
    ensures var l := LedgerOf(actions);
            && s.docs == l.open && |s.incs| == |l.lives| && |s.works| == l.tokens
            && forall i :: 0 <= i < |s.incs| ==> OpeningAgrees(l.lives[i], s.incs[i])
  {
    RunsAgree(limit, s, actions);
  }

  // ----- Publications -----

  /** The result is the one its opening has, by the ledger, at its generation. */
  predicate Truthful(limit: nat, l: Ledger, i: nat, cached: Cached) {
    && i < |l.lives| && HasGeneration(l.lives[i], cached.generation)
    && cached == ResultAt(limit, l, i, cached.generation)
  }

  /**
    The publications of one opening carry strictly increasing generations, and
    each is the result of the opened text with the edits up to its generation, at
    that generation's version.
   */
  lemma PublicationsAscend(limit: nat, actions: seq<Action>, s: State, i: nat)
    requires Run(limit, INITIAL, actions) == Some(s) && i < |s.incs|
    ensures Ascending(s.incs[i].log)
    ensures forall k :: 0 <= k < |s.incs[i].log| ==> Truthful(limit, LedgerOf(actions), i, s.incs[i].log[k].cached)
  {
    RunsAgree(limit, s, actions);
    var log := s.incs[i].log;
    assert LogOk(s.works, s.workers, i, log);
    forall k | 0 <= k < |log|
      ensures Truthful(limit, LedgerOf(actions), i, log[k].cached)
    {
      assert PublicationOk(s.works, s.workers, i, log[k]);
      var t := log[k].token;
      assert WorkerAgrees(limit, LedgerOf(actions), s.works[t], s.workers[t], t);
    }
  }

  // ----- Readers -----

  /** The watch value mirrors the cache and, when there is one, names the present generation and version. */
  lemma WatchMirrorsCache(limit: nat, s: State, i: nat)
    requires Reachable(limit, s) && i < |s.incs|
    ensures var r := s.incs[i].record;
            r.watch == r.cached
            && (r.watch.Some? ==> r.watch.value.generation == r.generation && r.watch.value.version == r.version)
  {
    ReachableKeeps(limit, s);
    assert IncOk(limit, s.works, i, s.incs[i]);
  }

  /**
    A reply is the result of the opening its request subscribed to, at a generation
    no earlier than the one then; there is none only if the opening is gone.
   */
  lemma RepliesAreTruthful(limit: nat, actions: seq<Action>, s: State, r: nat)
    requires Run(limit, INITIAL, actions) == Some(s) && r < |s.readers| && s.readers[r].Answered?
    ensures var (l, reply) := (LedgerOf(actions), s.readers[r].reply);
            && r < |l.subscriptions|
            && (reply.Some? ==>
                  && l.subscriptions[r].Some?
                  && Truthful(limit, l, l.subscriptions[r].value.opening, reply.value)
                  && l.subscriptions[r].value.since <= reply.value.generation)
            && (reply.None? && l.subscriptions[r].Some? ==> !IsOpen(l, l.subscriptions[r].value.opening))
  {
    var l, reader := LedgerOf(actions), s.readers[r];
    RunsAgree(limit, s, actions);
    assert ReaderAgrees(l, s.works, s.workers, reader, r) && ReaderOk(s.incs, reader);
    if reader.reply.Some? {
      var i := l.subscriptions[r].value.opening;
      var t := TokenAt(l.lives[i], reader.reply.value.generation);
      assert WorkerAgrees(limit, l, s.works[t], s.workers[t], t);
    }
  }
}
