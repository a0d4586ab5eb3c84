/** What holds at the end of every run, from the empty state. */
module ProtocolTheorems {
  import opened Schemas
  import opened EnvelopeCaches
  import opened Protocol
  import opened ProtocolProofs

  // ---- where an envelope's target stands ---------------------------------

  function CorosOf(s: State, r: ReqId): seq<Coro> {
    if r in s.preps then s.preps[r].coros else if r in s.published then s.published[r] else []
  }

  /** Only the moving target of a request changes; a request starts with none. */
  lemma CorosAfter(c: Config, s: State, a: Action, r: ReqId)
    requires Books(s) && Enabled(s, a)
    ensures OnCoro(a) && a.r == r ==>
      a.t < |CorosOf(s, r)| && CorosOf(Step(c, s, a), r) == CorosOf(s, r)[a.t := CoroMove(c, s, a).coro]
    ensures OnCoro(a) && a.r != r ==> CorosOf(Step(c, s, a), r) == CorosOf(s, r)
    ensures !OnCoro(a) && !(a.StartPrepare? && r == s.nextReq) ==> CorosOf(Step(c, s, a), r) == CorosOf(s, r)
    ensures a.StartPrepare? && r == s.nextReq ==> CorosOf(s, r) == [] && |CorosOf(Step(c, s, a), r)| == a.targets
  {
    if OnCoro(a) {
      CorosAdvance(s, a.r, a.t, CoroMove(c, s, a), r);
    } else if !OnTask(a) {
      CorosWhole(c, s, a, r);
    }
  }

  lemma CorosAdvance(s: State, q: ReqId, t: nat, m: Move, r: ReqId)
    requires Active(s, q, t)
    ensures q == r ==> t < |CorosOf(s, r)| && CorosOf(Advance(s, q, t, m), r) == CorosOf(s, r)[t := m.coro]
    ensures q != r ==> CorosOf(Advance(s, q, t, m), r) == CorosOf(s, r)
  {
  }

  lemma CorosWhole(c: Config, s: State, a: Action, r: ReqId)
    requires Books(s) && Enabled(s, a) && !OnTask(a) && !OnCoro(a)
    ensures !(a.StartPrepare? && r == s.nextReq) ==> CorosOf(StepWhole(c, s, a), r) == CorosOf(s, r)
    ensures a.StartPrepare? && r == s.nextReq ==> CorosOf(s, r) == [] && |CorosOf(StepWhole(c, s, a), r)| == a.targets
  {
  }

  lemma InUpdated(coros: seq<Coro>, co: Coro, t: nat, next: Coro)
    requires co in coros && t < |coros| && coros[t] != co
    ensures co in coros[t := next]
  {
    var k :| 0 <= k < |coros| && coros[k] == co;
    assert coros[t := next][k] == co;
  }

  /** A target that has its final state keeps it. */
  lemma FinalStays(c: Config, s: State, a: Action, r: ReqId, co: Coro)
    requires Books(s) && co in CorosOf(s, r) && Finished(co)
    ensures co in CorosOf(Step(c, s, a), r)
  {
    if Enabled(s, a) {
      CorosAfter(c, s, a, r);
      if OnCoro(a) && a.r == r { InUpdated(CorosOf(s, r), co, a.t, CoroMove(c, s, a).coro); }
    }
  }

  lemma MixedResumes(c: Config, s: State, a: Action, id: EnvId)
    requires Enabled(s, a) && OnCoro(a) && s.preps[a.r].coros[a.t] == MixedAnswering(id)
    ensures CoroMove(c, s, a).coro == RaisedMixed(id) || id !in CoroMove(c, s, a).cache
  {
  }

  /** A target waiting in the mixed branch stays there, unless it is resumed: then it
      has raised, or its envelope has left the cache. */
  lemma MixedStays(c: Config, s: State, a: Action, r: ReqId, id: EnvId)
    requires Books(s) && MixedAnswering(id) in CorosOf(s, r)
    ensures var s' := Step(c, s, a);
      MixedAnswering(id) in CorosOf(s', r) || RaisedMixed(id) in CorosOf(s', r) || id !in s'.cache
  {
    if Enabled(s, a) {
      CorosAfter(c, s, a, r);
      if OnCoro(a) && a.r == r {
        var coros, next := CorosOf(s, r), CoroMove(c, s, a).coro;
        if coros[a.t] == MixedAnswering(id) {
          MixedResumes(c, s, a, id);
          assert coros[a.t := next][a.t] == next;
        } else {
          InUpdated(coros, MixedAnswering(id), a.t, next);
        }
      }
    }
  }

  ghost predicate HeldReady(s: State, id: EnvId) {
    id in s.made && s.made[id].Env().tier != Secret ==> Returned(Ready(id)) in CorosOf(s, s.made[id].owner)
  }

  ghost predicate HeldMixed(s: State, id: EnvId) {
    id in s.made && s.made[id].Env().tier == Secret && id in s.cache ==>
      MixedAnswering(id) in CorosOf(s, s.made[id].owner) || RaisedMixed(id) in CorosOf(s, s.made[id].owner)
  }

  /** A non-secret envelope belongs to a target that is ready; a secret one that is
      still stored belongs to a target in, or raised out of, the mixed branch. */
  ghost predicate Held(s: State) {
    forall id :: HeldReady(s, id) && HeldMixed(s, id)
  }

  /** Only a move makes an envelope, and its target says where it stands. */
  lemma MoveMakes(c: Config, s: State, a: Action, id: EnvId)
    requires Books(s) && Enabled(s, a) && OnCoro(a) && id !in s.made && id in CoroMove(c, s, a).made
    ensures var m := CoroMove(c, s, a);
      && m.made[id].owner == a.r
      && (m.made[id].Env().tier != Secret ==> m.coro == Returned(Ready(id)))
      && (m.made[id].Env().tier == Secret && id in m.cache ==> m.coro == MixedAnswering(id))
  {
  }

  lemma NewHeld(c: Config, s: State, a: Action, id: EnvId)
    requires Books(s) && id !in s.made
    ensures HeldReady(Step(c, s, a), id) && HeldMixed(Step(c, s, a), id)
  {
    var s' := Step(c, s, a);
    StepGrows(c, s, a);
    if Enabled(s, a) && id in s'.made {
      assert OnCoro(a);
      MoveMakes(c, s, a, id);
      CorosAfter(c, s, a, a.r);
      assert CorosOf(s', a.r)[a.t] == CoroMove(c, s, a).coro;
    }
  }

  /** Nothing but a new envelope enters the cache. */
  lemma CacheShrinks(c: Config, s: State, a: Action, id: EnvId)
    requires Books(s) && id in s.made && id in Step(c, s, a).cache
    ensures id in s.cache
  {
    if Enabled(s, a) {
      if OnTask(a) {
        TaskShrinks(c, s, a, id);
      } else if OnCoro(a) {
        MoveShrinks(c, s, a, id);
      } else {
        WholeLeaves(c, s, a);
      }
    }
  }

  lemma TaskShrinks(c: Config, s: State, a: Action, id: EnvId)
    requires Enabled(s, a) && OnTask(a) && id in TaskEffect(c, s, a).cache
    ensures id in s.cache
  {
  }

  lemma MoveShrinks(c: Config, s: State, a: Action, id: EnvId)
    requires Books(s) && Enabled(s, a) && OnCoro(a) && id in s.made && id in CoroMove(c, s, a).cache
    ensures id in s.cache
  {
    assert id != s.nextEnv;
  }

  lemma OldHeld(c: Config, s: State, a: Action, id: EnvId)
    requires Books(s) && id in s.made && HeldReady(s, id) && HeldMixed(s, id)
    ensures HeldReady(Step(c, s, a), id) && HeldMixed(Step(c, s, a), id)
  {
    var s', r := Step(c, s, a), s.made[id].owner;
    StepGrows(c, s, a);
    if s.made[id].Env().tier != Secret {
      FinalStays(c, s, a, r, Returned(Ready(id)));
    } else if id in s'.cache {
      CacheShrinks(c, s, a, id);
      if MixedAnswering(id) in CorosOf(s, r) {
        MixedStays(c, s, a, r, id);
      } else {
        FinalStays(c, s, a, r, RaisedMixed(id));
      }
    }
  }

  lemma StepHeld(c: Config, s: State, a: Action)
    requires Books(s) && Held(s)
    ensures Held(Step(c, s, a))
  {
    forall id ensures HeldReady(Step(c, s, a), id) && HeldMixed(Step(c, s, a), id) {
      if id in s.made { OldHeld(c, s, a, id); } else { NewHeld(c, s, a, id); }
    }
  }

  // ---- what a published request looks like -------------------------------

  ghost predicate AllFinished(coros: seq<Coro>) {
    forall t :: 0 <= t < |coros| ==> Finished(coros[t])
  }

  ghost predicate Done(s: State) {
    forall r :: r in s.published ==> AllFinished(s.published[r])
  }

  lemma StepDone(c: Config, s: State, a: Action)
    requires Books(s) && Done(s)
    ensures Done(Step(c, s, a))
  {
    if Enabled(s, a) && !OnTask(a) && !OnCoro(a) { WholeDone(c, s, a); }
  }

  lemma WholeDone(c: Config, s: State, a: Action)
    requires Books(s) && Done(s) && Enabled(s, a) && !OnTask(a) && !OnCoro(a)
    ensures Done(StepWhole(c, s, a))
  {
  }

  /** A secret envelope that has been called is one whose target raised in the mixed
      branch, leaving it stored and listed. */
  ghost predicate SecretRaised(s: State, id: EnvId) {
    id in s.made && s.made[id].Env().tier == Secret && Expected(TaskOf(s, id)) != [] ==>
      RaisedMixed(id) in CorosOf(s, s.made[id].owner)
  }

  ghost predicate Raises(s: State) {
    forall id :: SecretRaised(s, id)
  }

  lemma DispatchHit(c: Config, s: State, r: ReqId, id: EnvId, u: bool, k: bool)
    requires Books(s) && Held(s) && Done(s) && HasTask(s, r, id)
    requires DispatchEffect(c, s, r, id, u, k).task == Called
    ensures id in s.made && s.made[id].owner == r
    ensures s.made[id].Env().tier == Secret ==> RaisedMixed(id) in CorosOf(s, r)
  {
    assert id in s.cache;
    assert HeldMixed(s, id);
    assert IdsOwned(s.made, r, s.sends[r].tasks.Keys);
    assert Owned(s.made, id, r);
    assert AllFinished(s.published[r]);
  }

  lemma CorosSettled(s: State, r: ReqId, id: EnvId, e: Effect, q: ReqId)
    requires HasTask(s, r, id)
    ensures CorosOf(Settle(s, r, id, e), q) == CorosOf(s, q) && Settle(s, r, id, e).made == s.made
  {
  }

  /** An action on a task that leaves it called finds it called, or is a dispatch. */
  lemma CalledBefore(c: Config, s: State, a: Action)
    requires Enabled(s, a) && OnTask(a) && Expected(Some(TaskEffect(c, s, a).task)) != []
    ensures Expected(Some(s.sends[a.r].tasks[a.id])) != [] || (a.Dispatch? && TaskEffect(c, s, a).task == Called)
  {
  }

  lemma RaisesOnTask(c: Config, s: State, a: Action)
    requires Books(s) && Held(s) && Done(s) && Raises(s) && Enabled(s, a) && OnTask(a)
    ensures SecretRaised(Step(c, s, a), a.id)
  {
    var e := TaskEffect(c, s, a);
    TaskOfSettle(s, a.r, a.id, e);
    CorosSettled(s, a.r, a.id, e, a.r);
    assert Owned(s.made, a.id, a.r) by { assert a.id in s.sends[a.r].tasks.Keys; }
    assert SecretRaised(s, a.id);
    if Expected(Some(e.task)) != [] {
      CalledBefore(c, s, a);
      if a.Dispatch? && e.task == Called { DispatchHit(c, s, a.r, a.id, a.underLimit, a.recordable); }
    }
  }

  lemma StandingAfter(c: Config, s: State, a: Action, x: EnvId)
    requires Books(s)
    requires OnTask(a) && Enabled(s, a) ==> x != a.id
    ensures Expected(TaskOf(Step(c, s, a), x)) == Expected(TaskOf(s, x))
  {
    if Enabled(s, a) {
      if OnTask(a) {
        TaskOfSettle(s, a.r, a.id, TaskEffect(c, s, a));
      } else if a.Send? {
        StandingSend(s, a.r, a.wanted, a.approver, a.asker, x);
      } else {
        StepGrows(c, s, a);
        Untouched(c, s, a);
        StandingKept(s, Step(c, s, a), x);
      }
    }
  }

  lemma RaisesElse(c: Config, s: State, a: Action, id: EnvId)
    requires Books(s) && SecretRaised(s, id)
    requires OnTask(a) && Enabled(s, a) ==> id != a.id
    ensures SecretRaised(Step(c, s, a), id)
  {
    StandingAfter(c, s, a, id);
    StepGrows(c, s, a);
    if id in s.made && RaisedMixed(id) in CorosOf(s, s.made[id].owner) {
      FinalStays(c, s, a, s.made[id].owner, RaisedMixed(id));
    }
  }

  lemma StepRaises(c: Config, s: State, a: Action)
    requires Books(s) && Held(s) && Done(s) && Raises(s)
    ensures Raises(Step(c, s, a))
  {
    forall id ensures SecretRaised(Step(c, s, a), id) {
      if Enabled(s, a) && OnTask(a) && id == a.id {
        RaisesOnTask(c, s, a);
      } else {
        RaisesElse(c, s, a, id);
      }
    }
  }

  ghost predicate NoneRaised(s: State) {
    forall r, id :: RaisedMixed(id) !in CorosOf(s, r)
  }

  /** The in-zone answer of a mixed target is recorded. */
  predicate MixedRecorded(a: Action) {
    a.ResumeMixed? ==> a.recordable
  }

  predicate AllMixedRecorded(actions: seq<Action>) {
    forall i :: 0 <= i < |actions| ==> MixedRecorded(actions[i])
  }

  /** With `secret_tier_local` registered, nothing raises in the mixed branch whose record
      is accepted. */
  lemma StepNoneRaised(c: Config, s: State, a: Action)
    requires Books(s) && NoneRaised(s) && SECRET_CODE in c.localCodes && MixedRecorded(a)
    ensures NoneRaised(Step(c, s, a))
  {
    if Enabled(s, a) {
      var s' := Step(c, s, a);
      forall r, id ensures RaisedMixed(id) !in CorosOf(s', r) {
        CorosAfter(c, s, a, r);
        if a.StartPrepare? && r == s.nextReq {
          assert CorosOf(s', r) == seq(a.targets, i => Working);
        }
        assert RaisedMixed(id) !in CorosOf(s, r);
      }
    }
  }

  // ---- all runs ----------------------------------------------------------

  ghost predicate Inv(s: State) {
    Books(s) && History(s) && Audited(s.made, s.log) && Held(s) && Done(s) && Raises(s)
  }

  lemma StepInv(c: Config, s: State, a: Action)
    requires Inv(s)
    ensures Inv(Step(c, s, a)) && s.log <= Step(c, s, a).log
  {
    StepBooks(c, s, a);
    StepHistory(c, s, a);
    StepAudited(c, s, a);
    StepHeld(c, s, a);
    StepDone(c, s, a);
    StepRaises(c, s, a);
  }

  lemma {:induction false} RunInv(c: Config, s: State, actions: seq<Action>)
    requires Inv(s)
    ensures Inv(Run(c, s, actions)) && s.log <= Run(c, s, actions).log
    decreases |actions|
  {
    if actions != [] {
      StepInv(c, s, actions[0]);
      RunInv(c, Step(c, s, actions[0]), actions[1..]);
    }
  }

  lemma {:induction false} RunNoneRaised(c: Config, s: State, actions: seq<Action>)
    requires Inv(s) && NoneRaised(s) && SECRET_CODE in c.localCodes && AllMixedRecorded(actions)
    ensures NoneRaised(Run(c, s, actions))
    decreases |actions|
  {
    if actions != [] {
      assert MixedRecorded(actions[0]);
      StepInv(c, s, actions[0]);
      StepNoneRaised(c, s, actions[0]);
      RunNoneRaised(c, Step(c, s, actions[0]), actions[1..]);
    }
  }

  lemma InitInv()
    ensures Inv(INIT) && NoneRaised(INIT)
  {
  }

  lemma {:induction false} CallCounted(log: seq<Event>, i: nat)
    requires i < |log| && log[i].Invoked?
    ensures log[i].calling in CallsOf(log, log[i].env.id)
  {
    if i < |log| - 1 { CallCounted(log[..|log| - 1], i); }
  }

  lemma CalledOffered(s: State, i: nat)
    requires Inv(s) && i < |s.log| && s.log[i].Invoked?
    ensures s.log[i].env.tier != Secret <==> Offered(s, s.log[i].env.id)
    ensures s.log[i].env.tier == Secret ==> exists r :: RaisedMixed(s.log[i].env.id) in CorosOf(s, r)
  {
    var env := s.log[i].env;
    CallCounted(s.log, i);
    assert CallOk(s.made, s.log, i);
    assert Expected(TaskOf(s, env.id)) != [];
    assert SecretRaised(s, env.id) && HeldReady(s, env.id);
    var r := s.made[env.id].owner;
    assert r in s.published && r !in s.preps;
    if env.tier != Secret {
      assert Returned(Ready(env.id)) in s.published[r];
    } else {
      forall q, t | q in s.published && 0 <= t < |s.published[q]|
        ensures s.published[q][t] != Returned(Ready(env.id))
      {
        assert CorosOk(s.made, q, s.published[q]);
        assert CoroOk(s.made, q, s.published[q][t]);
      }
    }
  }

  /** Over every interleaving of any number of requests: a broker call carries a
      payload below secret exactly when its envelope id is one the caller was given.
      With `secret_tier_local` registered, and every answer in the mixed branch recorded,
      that is every call. */
  lemma CallsBelowSecret(c: Config, actions: seq<Action>, i: nat)
    requires i < |Run(c, INIT, actions).log| && Run(c, INIT, actions).log[i].Invoked?
    ensures var s := Run(c, INIT, actions); s.log[i].env.tier != Secret <==> Offered(s, s.log[i].env.id)
    ensures SECRET_CODE in c.localCodes && AllMixedRecorded(actions) ==> Run(c, INIT, actions).log[i].env.tier != Secret
  {
    InitInv();
    RunInv(c, INIT, actions);
    CalledOffered(Run(c, INIT, actions), i);
    if SECRET_CODE in c.localCodes && AllMixedRecorded(actions) { RunNoneRaised(c, INIT, actions); }
  }

  /** Over every interleaving an envelope leaves the cache at most once, and is called
      at most once for an answer and then at most once for a draft; never uncalled
      without having been taken, never drafted without having been asked. */
  lemma CalledOnce(c: Config, actions: seq<Action>, id: EnvId)
    ensures var log := Run(c, INIT, actions).log; var calls := CallsOf(log, id);
      && calls in {[], [AnswerModel], [AnswerModel, DraftModel]}
      && TakesOf(log, id) <= 1
      && (calls != [] ==> TakesOf(log, id) == 1)
  {
    InitInv();
    RunInv(c, INIT, actions);
    var s := Run(c, INIT, actions);
    assert CallsOf(s.log, id) == Expected(TaskOf(s, id)) && TakesFit(TakesOf(s.log, id), TaskOf(s, id));
  }
}
