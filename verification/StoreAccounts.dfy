/**
  Nothing is lost on the way: superseded work is always cancelled, and every
  result accepted was published. At rest the cancelled handles are exactly those
  of superseded work, and each open document last published what it has cached.
 */
module StoreAccounts {
  import opened Text
  import opened DocumentStore
  import opened StoreInvariant
  import opened StoreActs
  import opened StoreTheorems
  import opened StoreSettles

  // ----- Superseded work is cancelled -----

  predicate IsCancelling(handlers: seq<Handler>, h: nat, t: nat) {
    h < |handlers| && handlers[h].Cancelling? && handlers[h].token == t
  }

  ghost predicate BeingCancelled(handlers: seq<Handler>, t: nat) {
    exists h :: IsCancelling(handlers, h, t)
  }

  /** Work is current, or its handle is cancelled, or a handler is about to cancel it. */
  ghost predicate Accounted(s: State, t: nat) {
    Current(s.incs, s.docs, s.works, t) || t in s.cancelled || BeingCancelled(s.handlers, t)
  }

  ghost predicate AllAccounted(s: State) {
    forall t :: 0 <= t < |s.works| ==> Accounted(s, t)
  }

  /** Handlers at work on cancelling stay so, whatever others do. */
  predicate KeepsCancelling(handlers: seq<Handler>, handlers': seq<Handler>) {
    |handlers| <= |handlers'| && forall h :: 0 <= h < |handlers| && handlers[h].Cancelling? ==> handlers'[h] == handlers[h]
  }

  lemma StillBeingCancelled(handlers: seq<Handler>, handlers': seq<Handler>, t: nat)
    requires KeepsCancelling(handlers, handlers') && BeingCancelled(handlers, t)
    ensures BeingCancelled(handlers', t)
  {
    var h :| IsCancelling(handlers, h, t);
    assert IsCancelling(handlers', h, t);
  }

  lemma StepKeepsCancelling(limit: nat, s: State, a: Action)
    requires Enabled(s, a) && !a.CancelPrevious?
    ensures KeepsCancelling(s.handlers, Next(limit, s, a).handlers) && s.cancelled <= Next(limit, s, a).cancelled
  {
  }

  /** Work that an act supersedes is the one it found, and that is cancelled at once or next. */
  lemma ActAccounts(limit: nat, s: State, h: nat, t: nat)
    requires Inv(limit, s) && Enabled(s, Act(h)) && Current(s.incs, s.docs, s.works, t)
    ensures Accounted(Acted(s, h), t)
  {
    var request, s' := s.handlers[h].request, Acted(s, h);
    assert IncOk(limit, s.works, s.works[t].inc, s.incs[s.works[t].inc]);
    if request.uri in s.docs && s.docs[request.uri] == s.works[t].inc {
      assert request.ChangeRequest? || IsCancelling(s'.handlers, h, t);
    } else {
      assert Current(s'.incs, s'.docs, s'.works, t);
    }
  }

  lemma StepAccounts(limit: nat, s: State, a: Action, t: nat)
    requires Inv(limit, s) && Enabled(s, a) && t < |s.works| && Accounted(s, t)
    ensures Accounted(Next(limit, s, a), t)
  {
    var s' := Next(limit, s, a);
    if a.CancelPrevious? {
      if BeingCancelled(s.handlers, t) {
        var h :| IsCancelling(s.handlers, h, t);
        assert h == a.h || IsCancelling(s'.handlers, h, t);
      }
    } else {
      StepKeepsCancelling(limit, s, a);
      if BeingCancelled(s.handlers, t) {
        StillBeingCancelled(s.handlers, s'.handlers, t);
      } else if Current(s.incs, s.docs, s.works, t) {
        CurrentAccounts(limit, s, a, t);
      }
    }
  }

  lemma CurrentAccounts(limit: nat, s: State, a: Action, t: nat)
    requires Inv(limit, s) && Enabled(s, a) && Current(s.incs, s.docs, s.works, t)
    ensures Accounted(Next(limit, s, a), t)
  {
    if a.Act? {
      ActAccounts(limit, s, a.h, t);
    } else if IsQuiet(a) {
      QuietStep(limit, s, a);
    } else {
      if a.Decide? {
        DecideKeepsHeads(s, a.t);
      } else {
        PublishKeepsHeads(s, a.t);
      }
      CurrentByHeads(s.incs, Next(limit, s, a).incs, s.docs, s.works, t);
    }
  }

  lemma StepKeepsAccounts(limit: nat, s: State, a: Action)
    requires Inv(limit, s) && AllAccounted(s) && Enabled(s, a)
    ensures AllAccounted(Next(limit, s, a))
  {
    var s' := Next(limit, s, a);
    NewWorkIsLive(limit, s, a);
    forall t | 0 <= t < |s'.works|
      ensures Accounted(s', t)
    {
      if t < |s.works| {
        StepAccounts(limit, s, a, t);
      }
    }
  }

  lemma NewWorkIsLive(limit: nat, s: State, a: Action)
    requires Inv(limit, s) && Enabled(s, a)
    ensures var s' := Next(limit, s, a);
            |s'.works| > |s.works| ==>
              |s'.works| == |s.works| + 1 && Current(s'.incs, s'.docs, s'.works, |s.works|)
  {
    if IsQuiet(a) {
      QuietStep(limit, s, a);
    }
  }

  // ----- Accepted results are published -----

  predicate InLog(s: State, t: nat) {
    t < |s.works| == |s.workers| && s.works[t].inc < |s.incs|
    && (s.workers[t].Published? || s.workers[t].Accepted? ==>
          Publication(t, s.workers[t].cached) in s.incs[s.works[t].inc].log)
  }

  predicate AllInLog(s: State) {
    forall t :: 0 <= t < |s.works| ==> InLog(s, t)
  }

  /** A worker is published, or accepted, only by publishing. */
  lemma OnlyPublishPublishes(limit: nat, s: State, a: Action, t: nat)
    requires Enabled(s, a) && !a.Publish? && t < |s.workers|
    ensures var w, w' := s.workers[t], Next(limit, s, a).workers;
            t < |w'| && (w'[t].Published? || w'[t].Accepted? ==> (w.Published? || w.Accepted?) && w.cached == w'[t].cached)
  {
  }

  lemma LogKeeps(incs: Incs, incs': Incs, i: nat, p: Publication)
    requires AllContinue(incs, incs') && i < |incs| && p in incs[i].log
    ensures p in incs'[i].log
  {
    assert Continues(incs[i], incs'[i]);
    var k :| 0 <= k < |incs[i].log| && incs[i].log[k] == p;
    assert incs'[i].log[k] == p;
  }

  lemma StepLogs(limit: nat, s: State, a: Action, t: nat)
    requires Inv(limit, s) && Enabled(s, a) && InLog(s, t)
    ensures InLog(Next(limit, s, a), t)
  {
    var s' := Next(limit, s, a);
    StepContinues(limit, s, a);
    StepKeeps(limit, s, a);
    if a == Publish(t) {
      assert s'.incs[s.works[t].inc].log == s.incs[s.works[t].inc].log + [Publication(t, s.workers[t].cached)];
    } else {
      if !a.Publish? {
        OnlyPublishPublishes(limit, s, a, t);
      }
      if s.workers[t].Published? || s.workers[t].Accepted? {
        LogKeeps(s.incs, s'.incs, s.works[t].inc, Publication(t, s.workers[t].cached));
      }
    }
  }

  lemma NewWorkIsUnspawned(limit: nat, s: State, a: Action, t: nat)
    requires Enabled(s, a) && |s.works| <= t < |Next(limit, s, a).works|
    ensures t < |Next(limit, s, a).workers| && Next(limit, s, a).workers[t].Unspawned?
  {
  }

  lemma StepKeepsLogs(limit: nat, s: State, a: Action)
    requires Inv(limit, s) && AllInLog(s) && Enabled(s, a)
    ensures AllInLog(Next(limit, s, a))
  {
    var s' := Next(limit, s, a);
    StepKeeps(limit, s, a);
    forall t | 0 <= t < |s'.works|
      ensures InLog(s', t)
    {
      if t < |s.works| {
        StepLogs(limit, s, a, t);
      } else {
        NewWorkIsUnspawned(limit, s, a, t);
      }
    }
  }

  lemma {:induction false} RunsKeepAccounts(limit: nat, s: State, actions: seq<Action>)
    requires Inv(limit, s) && AllAccounted(s) && AllInLog(s) && Run(limit, s, actions).Some?
    ensures var r := Run(limit, s, actions).value; Inv(limit, r) && AllAccounted(r) && AllInLog(r)
    decreases |actions|
  {
    if actions != [] {
      var n := |actions| - 1;
      var m := Run(limit, s, actions[..n]).value;
      RunsKeepAccounts(limit, s, actions[..n]);
      StepKeeps(limit, m, actions[n]);
      StepKeepsAccounts(limit, m, actions[n]);
      StepKeepsLogs(limit, m, actions[n]);
    }
  }

  // ----- At rest -----

  /** With nothing left to do, the cancelled handles are exactly those of superseded work. */
  lemma CancelledIsSuperseded(limit: nat, s: State, t: nat)
    requires Reachable(limit, s) && Quiescent(s) && t < |s.works|
    ensures t in s.cancelled <==> !Current(s.incs, s.docs, s.works, t)
  {
    var actions :| Run(limit, INITIAL, actions) == Some(s);
    RunsKeepAccounts(limit, INITIAL, actions);
    assert Accounted(s, t);
    assert forall h :: !IsCancelling(s.handlers, h, t);
  }

  /** With nothing left to do, an open document's last publication is what it has cached. */
  lemma LastPublicationIsCached(limit: nat, s: State, uri: Uri)
    requires Reachable(limit, s) && Quiescent(s) && uri in s.docs
    ensures s.docs[uri] < |s.incs|
    ensures var inc := s.incs[s.docs[uri]];
            inc.log != [] && inc.record.cached == Some(inc.log[|inc.log| - 1].cached)
  {
    var actions :| Run(limit, INITIAL, actions) == Some(s);
    RunsKeepAccounts(limit, INITIAL, actions);
    CurrentIsNeverCancelled(limit, s, uri);
    var t := s.incs[s.docs[uri]].token;
    assert IsDone(s.workers[t]) && InLog(s, t);
    DoneIsPublished(limit, s, s.docs[uri], t);
  }

  lemma DoneIsPublished(limit: nat, s: State, i: nat, t: nat)
    requires Inv(limit, s) && i < |s.incs| && t == s.incs[i].token && Current(s.incs, s.docs, s.works, t)
    requires IsDone(s.workers[t]) && InLog(s, t)
    ensures s.incs[i].log != [] && s.incs[i].record.cached == Some(s.incs[i].log[|s.incs[i].log| - 1].cached)
  {
    assert IncOk(limit, s.works, i, s.incs[i]);
    assert ResultOk(limit, s.incs, s.docs, s.works, s.workers[t], t);
    NewestIsLast(limit, s, i, Publication(t, s.workers[t].cached));
  }

  /** A publication of the present generation is the last of its opening. */
  lemma NewestIsLast(limit: nat, s: State, i: nat, p: Publication)
    requires Inv(limit, s) && i < |s.incs| && p in s.incs[i].log
    requires p.cached.generation == s.incs[i].record.generation
    ensures s.incs[i].log[|s.incs[i].log| - 1] == p
  {
    var log := s.incs[i].log;
    var k :| 0 <= k < |log| && log[k] == p;
    var last := log[|log| - 1];
    assert LogOk(s.works, s.workers, i, log) && PublicationOk(s.works, s.workers, i, last);
    assert WorkOk(s.incs, s.works[last.token]);
  }
}
