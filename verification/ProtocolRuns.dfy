/** Further statements over whole runs: liveness of what was offered, one outcome per
    target, the audit trail, and runs that send only what they were given. */
module ProtocolRuns {
  import opened Schemas
  import opened EnvelopeCaches
  import opened Protocol
  import opened ProtocolProofs
  import opened ProtocolTheorems
  import opened ProtocolPending

  // ---- what was offered stays available ----------------------------------

  /** Non-secret, not yet dispatched and not expired, hence stored. */
  ghost predicate LiveAt(c: Config, s: State, id: EnvId) {
    && id in s.made && s.made[id].Env().tier != Secret
    && (TaskOf(s, id) == None || TaskOf(s, id) == Some(Waiting))
    && s.now - s.made[id].entry.createdAt <= c.ttl ==>
      id in s.cache
  }

  ghost predicate Live(c: Config, s: State) {
    forall id :: LiveAt(c, s, id)
  }

  lemma LiveOnTask(c: Config, s: State, a: Action, id: EnvId)
    requires Books(s) && LiveAt(c, s, id) && Enabled(s, a) && OnTask(a)
    ensures LiveAt(c, Step(c, s, a), id)
  {
    TaskOfSettle(s, a.r, a.id, TaskEffect(c, s, a));
    if id in s.cache { OnTaskCache(c, s, a, id); }
  }

  lemma OnTaskCache(c: Config, s: State, a: Action, id: EnvId)
    requires Books(s) && Enabled(s, a) && OnTask(a) && id in s.cache
    ensures
      || id in TaskEffect(c, s, a).cache
      || s.now - s.made[id].entry.createdAt > c.ttl
      || (id == a.id && TaskEffect(c, s, a).task != Waiting)
  {
    assert s.cache[id] == s.made[id].entry;
  }

  /** A move drops from the cache only what has expired or is secret. */
  lemma MoveCache(c: Config, s: State, a: Action, id: EnvId)
    requires Books(s) && Enabled(s, a) && OnCoro(a) && id in s.cache
    ensures
      || id in CoroMove(c, s, a).cache
      || s.now - s.made[id].entry.createdAt > c.ttl
      || s.made[id].Env().tier == Secret
  {
    assert s.cache[id] == s.made[id].entry;
    assert id != s.nextEnv;
    if a.ResumeMixed? { assert CoroOk(s.made, a.r, s.preps[a.r].coros[a.t]); }
  }

  lemma MoveMade(c: Config, s: State, a: Action, id: EnvId)
    requires Books(s) && Enabled(s, a) && OnCoro(a) && id !in s.made
    ensures var m := CoroMove(c, s, a);
      id in m.made && m.made[id].Env().tier != Secret ==> id in m.cache
  {
  }

  lemma LiveElse(c: Config, s: State, a: Action, id: EnvId)
    requires Books(s) && LiveAt(c, s, id) && Enabled(s, a) && !OnTask(a)
    ensures LiveAt(c, Step(c, s, a), id)
  {
    var s' := Step(c, s, a);
    StepGrows(c, s, a);
    assert s.now <= s'.now by { NowGrows(c, s, a); }
    if OnCoro(a) {
      Untouched(c, s, a);
      StandingKept(s, s', id);
      if id in s.made && id in s.cache { MoveCache(c, s, a, id); }
      if id !in s.made { MoveMade(c, s, a, id); }
    } else {
      WholeLeaves(c, s, a);
      if a.Send? { StandingSend(s, a.r, a.wanted, a.approver, a.asker, id); } else { StandingKept(s, s', id); }
    }
  }

  lemma NowGrows(c: Config, s: State, a: Action)
    ensures s.now <= Step(c, s, a).now
  {
    if Enabled(s, a) && !OnTask(a) && !OnCoro(a) { ReqGrows(c, s, a); }
  }

  lemma StepLive(c: Config, s: State, a: Action)
    requires Books(s) && Live(c, s)
    ensures Live(c, Step(c, s, a))
  {
    if Enabled(s, a) {
      forall id ensures LiveAt(c, Step(c, s, a), id) {
        if OnTask(a) { LiveOnTask(c, s, a, id); } else { LiveElse(c, s, a, id); }
      }
    }
  }

  lemma {:induction false} RunLive(c: Config, s: State, actions: seq<Action>)
    requires Inv(s) && Live(c, s)
    ensures Live(c, Run(c, s, actions))
    decreases |actions|
  {
    if actions != [] {
      StepInv(c, s, actions[0]);
      StepLive(c, s, actions[0]);
      RunLive(c, Step(c, s, actions[0]), actions[1..]);
    }
  }

  /** Under every interleaving an envelope the caller was given and has not sent is
      handed out by the cache up to, and no later than, the TTL after it was made. */
  lemma OfferedIsLive(c: Config, actions: seq<Action>, r: ReqId, id: EnvId)
    requires r in Run(c, INIT, actions).pending && GivenOut(CorosOf(Run(c, INIT, actions), r), id)
    ensures var s := Run(c, INIT, actions);
      id in s.made &&
      Lookup(s.cache, id, s.now, c.ttl)
      == if s.now - s.made[id].entry.createdAt <= c.ttl then Some(s.made[id].entry) else None
  {
    InitInv();
    RunInv(c, INIT, actions);
    RunLive(c, INIT, actions);
    var s := Run(c, INIT, actions);
    assert LiveAt(c, s, id);
    var coros := s.published[r];
    assert CorosOk(s.made, r, coros);
    var t :| 0 <= t < |coros| && coros[t] == Returned(Ready(id));
    assert CoroOk(s.made, r, coros[t]);
  }

  // ---- one outcome per target --------------------------------------------

  /** A request that exists keeps its targets, in order and number. */
  lemma StepTargets(c: Config, s: State, a: Action, r: ReqId)
    requires Books(s) && r < s.nextReq
    ensures |CorosOf(Step(c, s, a), r)| == |CorosOf(s, r)| && s.nextReq <= Step(c, s, a).nextReq
  {
    if Enabled(s, a) {
      CorosAfter(c, s, a, r);
      if !OnCoro(a) && !OnTask(a) { ReqGrows(c, s, a); }
    }
  }

  lemma ReqGrows(c: Config, s: State, a: Action)
    requires Enabled(s, a) && !OnTask(a) && !OnCoro(a)
    ensures s.nextReq <= StepWhole(c, s, a).nextReq && s.now <= StepWhole(c, s, a).now
  {
  }

  lemma {:induction false} RunTargets(c: Config, s: State, actions: seq<Action>, r: ReqId)
    requires Inv(s) && r < s.nextReq
    ensures |CorosOf(Run(c, s, actions), r)| == |CorosOf(s, r)|
    decreases |actions|
  {
    if actions != [] {
      StepInv(c, s, actions[0]);
      StepTargets(c, s, actions[0], r);
      RunTargets(c, Step(c, s, actions[0]), actions[1..], r);
    }
  }

  /** What the caller is told of one target: a block, or an envelope below secret that
      was made for this request. */
  ghost predicate GoodOutcome(made: Origins, r: ReqId, co: Coro) {
    Finished(co) &&
    match Told(co)
    case Ready(id) => Owned(made, id, r) && made[id].Env().tier != Secret
    case Blocked => true
  }

  lemma PublishedOutcomes(s: State, r: ReqId, t: nat)
    requires Inv(s) && r in s.published && t < |s.published[r]|
    ensures GoodOutcome(s.made, r, s.published[r][t])
  {
    assert AllFinished(s.published[r]) && CorosOk(s.made, r, s.published[r]);
    assert CoroOk(s.made, r, s.published[r][t]);
  }

  /** A prepare of `n` targets that is published, after whatever interleaving, tells
      the caller `n` outcomes. */
  lemma OneOutcomePerTarget(c: Config, before: seq<Action>, n: nat, after: seq<Action>, s0: State, s: State)
    requires s0 == Run(c, INIT, before) && s == Run(c, Step(c, s0, StartPrepare(n)), after)
    requires s0.nextReq in s.published
    ensures |s.published[s0.nextReq]| == n
    ensures forall t: nat :: t < n ==> GoodOutcome(s.made, s0.nextReq, s.published[s0.nextReq][t])
  {
    InitInv();
    RunInv(c, INIT, before);
    var r, s1 := s0.nextReq, Step(c, s0, StartPrepare(n));
    StepInv(c, s0, StartPrepare(n));
    CorosAfter(c, s0, StartPrepare(n), r);
    RunTargets(c, s1, after, r);
    RunInv(c, s1, after);
    forall t: nat | t < n ensures GoodOutcome(s.made, r, s.published[r][t]) {
      PublishedOutcomes(s, r, t);
    }
  }

  // ---- the audit trail ---------------------------------------------------

  lemma {:induction false} RunAppend(c: Config, s: State, first: seq<Action>, second: seq<Action>)
    ensures Run(c, s, first + second) == Run(c, Run(c, s, first), second)
    decreases |first|
  {
    if first == [] {
      assert first + second == second;
    } else {
      assert (first + second)[1..] == first[1..] + second;
      RunAppend(c, Step(c, s, first[0]), first[1..], second);
    }
  }

  /** The log only grows; and a stretch of a run in which nothing is sent, cancelled or
      answered - prepares, whatever their outcome, and the clock - adds no record. */
  lemma LogGrows(c: Config, first: seq<Action>, second: seq<Action>)
    ensures Run(c, INIT, first).log <= Run(c, INIT, first + second).log
    ensures (forall i :: 0 <= i < |second| ==> !OnTask(second[i])) ==>
      Run(c, INIT, first + second).log == Run(c, INIT, first).log
  {
    InitInv();
    RunInv(c, INIT, first);
    RunAppend(c, INIT, first, second);
    RunInv(c, Run(c, INIT, first), second);
    if forall i :: 0 <= i < |second| ==> !OnTask(second[i]) {
      QuietLog(c, Run(c, INIT, first), second);
    }
  }

  lemma {:induction false} QuietLog(c: Config, s: State, actions: seq<Action>)
    requires Inv(s) && forall i :: 0 <= i < |actions| ==> !OnTask(actions[i])
    ensures Run(c, s, actions).log == s.log
    decreases |actions|
  {
    if actions != [] {
      StepInv(c, s, actions[0]);
      StepAudited(c, s, actions[0]);
      QuietLog(c, Step(c, s, actions[0]), actions[1..]);
    }
  }

  /** In every run a broker call stands right after a request record with its envelope
      id, payload hash and model and a non-blank approver, its envelope has passed
      validation, and every request record is followed by its call. */
  lemma CallsAreAudited(c: Config, actions: seq<Action>, i: nat)
    requires i < |Run(c, INIT, actions).log|
    ensures CallOk(Run(c, INIT, actions).made, Run(c, INIT, actions).log, i)
  {
    InitInv();
    RunInv(c, INIT, actions);
  }

  // ---- runs that send only what they were given --------------------------

  /** Every send names only envelopes some caller was given. */
  ghost predicate Honest(c: Config, s: State, actions: seq<Action>)
    decreases |actions|
  {
    actions == [] ||
      ((actions[0].Send? ==> forall id :: id in actions[0].wanted ==> OfferedIn(s.published, id))
       && Honest(c, Step(c, s, actions[0]), actions[1..]))
  }

  ghost predicate OfferedIn(published: map<ReqId, seq<Coro>>, id: EnvId) {
    exists r :: r in published && Returned(Ready(id)) in published[r]
  }

  ghost predicate TasksOffered(s: State) {
    forall r, id :: HasTask(s, r, id) ==> OfferedIn(s.published, id)
  }

  lemma PublishedStays(c: Config, s: State, a: Action, id: EnvId)
    requires Books(s) && OfferedIn(s.published, id)
    ensures OfferedIn(Step(c, s, a).published, id)
  {
    if Enabled(s, a) && !OnTask(a) && !OnCoro(a) { PublishedStaysWhole(c, s, a, id); }
  }

  lemma PublishedStaysWhole(c: Config, s: State, a: Action, id: EnvId)
    requires Books(s) && OfferedIn(s.published, id) && Enabled(s, a) && !OnTask(a) && !OnCoro(a)
    ensures OfferedIn(StepWhole(c, s, a).published, id)
  {
    var r :| r in s.published && Returned(Ready(id)) in s.published[r];
    assert r in StepWhole(c, s, a).published && StepWhole(c, s, a).published[r] == s.published[r];
  }

  lemma TaskFrom(c: Config, s: State, a: Action, r: ReqId, id: EnvId)
    requires HasTask(Step(c, s, a), r, id)
    ensures HasTask(s, r, id) || (a.Send? && id in a.wanted)
  {
    if Enabled(s, a) && !OnTask(a) {
      Untouched(c, s, a);
    }
  }

  lemma StepOffered(c: Config, s: State, a: Action)
    requires Books(s) && TasksOffered(s)
    requires a.Send? ==> forall id :: id in a.wanted ==> OfferedIn(s.published, id)
    ensures TasksOffered(Step(c, s, a))
  {
    forall r, id | HasTask(Step(c, s, a), r, id) ensures OfferedIn(Step(c, s, a).published, id) {
      TaskFrom(c, s, a, r, id);
      PublishedStays(c, s, a, id);
    }
  }

  lemma {:induction false} RunOffered(c: Config, s: State, actions: seq<Action>)
    requires Inv(s) && TasksOffered(s) && Honest(c, s, actions)
    ensures TasksOffered(Run(c, s, actions))
    decreases |actions|
  {
    if actions != [] {
      StepInv(c, s, actions[0]);
      StepOffered(c, s, actions[0]);
      RunOffered(c, Step(c, s, actions[0]), actions[1..]);
    }
  }

  /** In every run whose sends name only envelopes the callers were given, with the
      codes as shipped or any others, no secret payload reaches the broker. */
  lemma HonestRunsSafe(c: Config, actions: seq<Action>, i: nat)
    requires Honest(c, INIT, actions)
    requires i < |Run(c, INIT, actions).log| && Run(c, INIT, actions).log[i].Invoked?
    ensures Run(c, INIT, actions).log[i].env.tier != Secret
  {
    InitInv();
    RunInv(c, INIT, actions);
    RunOffered(c, INIT, actions);
    var s := Run(c, INIT, actions);
    var id := s.log[i].env.id;
    CallCounted(s.log, i);
    assert Expected(TaskOf(s, id)) != [];
    assert HasTask(s, s.made[id].owner, id);
    var r :| r in s.published && Returned(Ready(id)) in s.published[r];
    var t :| 0 <= t < |s.published[r]| && s.published[r][t] == Returned(Ready(id));
    CallsBelowSecret(c, actions, i);
  }

  // ---- the conditions are needed -----------------------------------------

  lemma SendWaits(s: State, r: ReqId, wanted: set<EnvId>, approver: string, id: EnvId)
    requires r in s.pending && id in s.pending[r].calls && id in wanted
    ensures var s' := StepSend(s, r, wanted, approver, approver);
      s'.cache == s.cache && s'.now == s.now && s'.log == s.log
      && HasTask(s', r, id) && s'.sends[r] == Sending(approver, approver, s'.sends[r].tasks)
      && s'.sends[r].tasks[id] == Waiting
  {
    var selected := set x | x in s.pending[r].calls && x in wanted;
    assert id in selected;
  }

  lemma DispatchReaches(c: Config, s: State, r: ReqId, id: EnvId)
    requires HasTask(s, r, id) && s.sends[r].tasks[id] == Waiting
    requires id in s.cache && s.cache[id].env.id == id && s.now - s.cache[id].createdAt <= c.ttl
    requires Permitted(s.cache[id].env, s.sends[r].approver)
    ensures Step(c, s, Dispatch(r, id, true, true)).log == s.log + CallLog(s.cache[id].env, s.sends[r].approver)
  {
    var a := Dispatch(r, id, true, true);
    assert Enabled(s, a) && OnTask(a);
    assert Lookup(s.cache, id, s.now, c.ttl) == Some(s.cache[id]);
  }

  /** A listed, stored and unexpired envelope that is sent is called. */
  lemma SendReaches(c: Config, s: State, r: ReqId, id: EnvId, approver: string)
    requires r in s.pending && id in s.pending[r].calls
    requires id in s.cache && s.cache[id].env.id == id && s.now - s.cache[id].createdAt <= c.ttl
    requires Permitted(s.cache[id].env, approver)
    ensures Step(c, Step(c, s, Send(r, {id}, approver, approver)), Dispatch(r, id, true, true)).log
         == s.log + CallLog(s.cache[id].env, approver)
  {
    SendWaits(s, r, {id}, approver, id);
    DispatchReaches(c, StepSend(s, r, {id}, approver, approver), r, id);
  }

  lemma ThreeSteps(c: Config, s: State, a0: Action, a1: Action, a2: Action)
    ensures Run(c, s, [a0, a1, a2]) == Step(c, Step(c, Step(c, s, a0), a1), a2)
  {
    var s1 := Step(c, s, a0);
    var s2 := Step(c, s1, a1);
    assert [a0, a1, a2][1..] == [a1, a2] && [a1, a2][1..] == [a2] && [a2][1..] == [];
    assert Run(c, s, [a0, a1, a2]) == Run(c, s1, [a1, a2]);
    assert Run(c, s1, [a1, a2]) == Run(c, s2, [a2]);
    assert Run(c, s2, [a2]) == Run(c, Step(c, s2, a2), []);
  }

  /** The first target of a first request, secret and mixed, answering. */
  lemma MixedStored(c: Config, hash: nat, n: nat)
    requires n > 0
    ensures var s := Step(c, Step(c, INIT, StartPrepare(n)), PayloadDone(0, 0, Secret, hash, true, true));
      && 0 in s.preps && |s.preps[0].coros| == n && s.preps[0].coros[0] == MixedAnswering(0)
      && (forall t :: 0 < t < n ==> s.preps[0].coros[t] == Working)
      && s.preps[0].calls == [0] && s.now == 0 && s.log == [] && s.nextEnv == 1
      && s.cache == map[0 := Entry(Envelope(0, Secret, hash, Some(true)), 0)]
  {
    var s1 := Step(c, INIT, StartPrepare(n));
    assert s1.preps[0] == Prep(seq(n, i => Working), [], 0) && s1.cache == map[] && s1.nextEnv == 0;
  }

  /** It raises: its envelope is still stored and listed when the request is published. */
  lemma MixedLeft(c: Config, hash: nat, s: State, recordable: bool)
    requires !RecordsLocally(c, recordable)
    requires 0 in s.preps && s.preps[0].coros == [MixedAnswering(0)] && s.preps[0].calls == [0]
    ensures var s' := Step(c, Step(c, s, ResumeMixed(0, 0, recordable)), Publish(0));
      && 0 in s'.pending && s'.pending[0].calls == [0] && s'.cache == s.cache && s'.now == s.now && s'.log == s.log
  {
    var s1 := Step(c, s, ResumeMixed(0, 0, recordable));
    assert s1.preps[0].coros == [RaisedMixed(0)] && s1.preps[0].calls == [0];
    assert Enabled(s1, Publish(0));
  }

  ghost predicate SecretListed(s: State, hash: nat) {
    && 0 in s.pending && s.pending[0].calls == [0] && s.now == 0 && s.log == []
    && s.cache == map[0 := Entry(Envelope(0, Secret, hash, Some(true)), 0)]
  }

  lemma MixedLeftRun(c: Config, hash: nat, recordable: bool) returns (actions: seq<Action>)
    requires !RecordsLocally(c, recordable)
    ensures SecretListed(Run(c, INIT, actions), hash)
  {
    var a0, a1 := StartPrepare(1), PayloadDone(0, 0, Secret, hash, true, true);
    var a2, a3 := ResumeMixed(0, 0, recordable), Publish(0);
    var s2 := Step(c, Step(c, INIT, a0), a1);
    MixedStored(c, hash, 1);
    assert s2.preps[0].coros == [MixedAnswering(0)];
    MixedLeft(c, hash, s2, recordable);
    ThreeSteps(c, INIT, a0, a1, a2);
    RunAppend(c, INIT, [a0, a1, a2], [a3]);
    OneStep(c, Run(c, INIT, [a0, a1, a2]), a3);
    actions := [a0, a1, a2] + [a3];
  }

  /** A mixed target that cannot record its in-zone answer raises before its envelope is
      discarded and delisted: with the shipped codes always, with any others when the
      local store refuses. A run that then sends the id of that envelope, which the
      caller was never given, reaches the broker with it. */
  lemma HonestyNeeded(c: Config, hash: nat, approver: string, recordable: bool)
    requires !Blank(approver) && c.ttl >= 0 && !RecordsLocally(c, recordable)
    ensures exists actions :: exists i: nat ::
      i < |Run(c, INIT, actions).log| && Run(c, INIT, actions).log[i].Invoked?
      && Run(c, INIT, actions).log[i].env.tier == Secret
  {
    var first := MixedLeftRun(c, hash, recordable);
    var s := Run(c, INIT, first);
    var a, b := Send(0, {0}, approver, approver), Dispatch(0, 0, true, true);
    SentSecret(c, s, hash, approver);
    OneStep(c, s, a);
    OneStep(c, Step(c, s, a), b);
    RunAppend(c, INIT, first, [a]);
    RunAppend(c, INIT, first + [a], [b]);
    assert Run(c, INIT, first + [a] + [b]).log[2].Invoked?;
  }

  /** With the shipped codes a mixed target never records its in-zone answer. */
  lemma ShippedNeverRecords(recordable: bool)
    ensures !RecordsLocally(SHIPPED, recordable)
  {
  }

  lemma SentSecret(c: Config, s: State, hash: nat, approver: string)
    requires !Blank(approver) && c.ttl >= 0 && SecretListed(s, hash)
    ensures var log := Step(c, Step(c, s, Send(0, {0}, approver, approver)), Dispatch(0, 0, true, true)).log;
      |log| > 2 && log[2].Invoked? && log[2].env.tier == Secret
  {
    SendReaches(c, s, 0, 0, approver);
  }

  lemma OneStep(c: Config, s: State, a: Action)
    ensures Run(c, s, [a]) == Step(c, s, a)
  {
    assert [a][1..] == [];
    assert Run(c, s, [a]) == Run(c, Step(c, s, a), []);
  }

  /** Crossings happen: with `secret_tier_local` registered, a target that lists its
      envelope while a mixed one is answering loses its entry to it, although its envelope
      is offered to the caller. */
  lemma CrossingHappens(c: Config, hash: nat)
    requires SECRET_CODE in c.localCodes
    ensures exists actions, id ::
      var s := Run(c, INIT, actions);
      Crossed(c, INIT, actions, 0) && 0 in s.preps && GivenOut(s.preps[0].coros, id) && id !in s.preps[0].calls
  {
    var a0, a1, a2 := StartPrepare(2), PayloadDone(0, 0, Secret, hash, true, true), PayloadDone(0, 1, Internal, hash, true, true);
    var a3 := ResumeMixed(0, 0, true);
    var s2 := Step(c, Step(c, INIT, a0), a1);
    var s3 := Step(c, s2, a2);
    MixedStored(c, hash, 2);
    SecondListed(c, hash, s2);
    ThreeSteps(c, INIT, a0, a1, a2);
    RunAppend(c, INIT, [a0, a1, a2], [a3]);
    OneStep(c, s3, a3);
    CrossedPop(c, s3);
    CrossedThird(c, INIT, [a0, a1, a2] + [a3], s2);
    var s := Run(c, INIT, [a0, a1, a2] + [a3]);
    assert s.preps[0].coros[1] == Returned(Ready(1));
    assert GivenOut(s.preps[0].coros, 1) && 1 !in s.preps[0].calls;
  }

  lemma CrossedThird(c: Config, s: State, actions: seq<Action>, s2: State)
    requires |actions| >= 3 && s2 == Step(c, Step(c, s, actions[0]), actions[1]) && Crosses(s2, actions[2], 0)
    ensures Crossed(c, s, actions, 0)
  {
    var s1 := Step(c, s, actions[0]);
    assert actions[1..][0] == actions[1] && actions[1..][1..] == actions[2..] && actions[2..][0] == actions[2];
    assert Crossed(c, s2, actions[2..], 0);
    assert Crossed(c, s1, actions[1..], 0);
  }

  lemma SecondListed(c: Config, hash: nat, s: State)
    requires 0 in s.preps && |s.preps[0].coros| == 2 && s.preps[0].coros[0] == MixedAnswering(0)
    requires s.preps[0].coros[1] == Working && s.preps[0].calls == [0] && s.nextEnv == 1
    ensures var a := PayloadDone(0, 1, Internal, hash, true, true); var s' := Step(c, s, a);
      && Crosses(s, a, 0) && 0 in s'.preps
      && s'.preps[0].coros == [MixedAnswering(0), Returned(Ready(1))] && s'.preps[0].calls == [0, 1]
  {
    assert s.preps[0].coros[0] in s.preps[0].coros;
  }

  lemma CrossedPop(c: Config, s: State)
    requires SECRET_CODE in c.localCodes && 0 in s.preps
    requires s.preps[0].coros == [MixedAnswering(0), Returned(Ready(1))] && s.preps[0].calls == [0, 1]
    ensures var s' := Step(c, s, ResumeMixed(0, 0, true));
      0 in s'.preps && s'.preps[0].coros == [Returned(Blocked), Returned(Ready(1))] && s'.preps[0].calls == [0]
  {
    assert [0, 1][..1] == [0];
  }
}
