/** What a prepare leads to: the outcome told for each target, and how long a request
    waits to be sent. */
module ProtocolOutcomes {
  import opened Schemas
  import opened EnvelopeCaches
  import opened Protocol
  import opened ProtocolProofs
  import opened ProtocolTheorems
  import opened ProtocolPending
  import opened ProtocolRuns
  import opened ProtocolCauses

  // ---- the outcome of a target ----------------------------------------------

  /** The action that ended the work on target `t`, and where it can have led. */
  ghost predicate DecidedBy(s: State, a: Action, r: ReqId, t: nat, co: Coro) {
    match a
    case CoroFails(q, u) => q == r && u == t && co == Raised
    case PayloadDone(q, u, tier, hash, hasBelow, passed) =>
      q == r && u == t &&
      if !passed then co == Raised
      else if tier != Secret then co == Returned(Ready(s.nextEnv))
      else if hasBelow then
        co == MixedAnswering(s.nextEnv) || co == RaisedMixed(s.nextEnv) || co == Returned(Blocked) || co == Raised
      else co == PureAnswering || co == Returned(Blocked) || co == Raised
    case _ => false
  }

  lemma MoveDecides(c: Config, s: State, a: Action)
    requires Enabled(s, a) && OnCoro(a)
    ensures DecidedBy(s, a, a.r, a.t, CoroMove(c, s, a).coro) || a.ResumePure? || a.ResumeMixed?
    ensures a.ResumePure? || a.ResumeMixed? ==>
      forall s0: State, b :: DecidedBy(s0, b, a.r, a.t, s.preps[a.r].coros[a.t]) ==>
        DecidedBy(s0, b, a.r, a.t, CoroMove(c, s, a).coro)
  {
  }

  /** A target is decided by this action, or was decided before. */
  lemma CoroCause(c: Config, s: State, a: Action, r: ReqId, t: nat)
    requires Books(s) && t < |CorosOf(Step(c, s, a), r)| && CorosOf(Step(c, s, a), r)[t] != Working
    ensures
      || (Enabled(s, a) && DecidedBy(s, a, r, t, CorosOf(Step(c, s, a), r)[t]))
      || (t < |CorosOf(s, r)| && CorosOf(s, r)[t] != Working
          && forall s0: State, b :: DecidedBy(s0, b, r, t, CorosOf(s, r)[t]) ==>
               DecidedBy(s0, b, r, t, CorosOf(Step(c, s, a), r)[t]))
  {
    if Enabled(s, a) {
      CorosAfter(c, s, a, r);
      if OnCoro(a) && a.r == r && a.t == t {
        MoveDecides(c, s, a);
      } else if a.StartPrepare? && r == s.nextReq {
        AllWorking(c, s, a.targets);
      }
    }
  }

  lemma AllWorking(c: Config, s: State, n: nat)
    requires Books(s)
    ensures CorosOf(StepStart(c, s, n), s.nextReq) == seq(n, i => Working)
  {
  }

  /** Where target `t` of the request stands before action `n`, if it has been worked on. */
  ghost predicate Stands(c: Config, actions: seq<Action>, n: nat, r: ReqId, t: nat, co: Coro)
    requires n <= |actions|
  {
    t < |CorosOf(At(c, actions, n), r)| && CorosOf(At(c, actions, n), r)[t] == co && co != Working
  }

  ghost predicate DecidedAt(c: Config, actions: seq<Action>, k: nat, r: ReqId, t: nat, co: Coro) {
    k < |actions| && Happens(c, actions, k, actions[k]) && DecidedBy(At(c, actions, k), actions[k], r, t, co)
  }

  /** What decides the one state decides the other. */
  ghost predicate Follows(r: ReqId, t: nat, co: Coro, after: Coro) {
    forall s: State, b :: DecidedBy(s, b, r, t, co) ==> DecidedBy(s, b, r, t, after)
  }

  lemma DecidedStep(c: Config, actions: seq<Action>, n: nat, r: ReqId, t: nat, after: Coro) returns (co: Coro)
    requires n < |actions| && Stands(c, actions, n + 1, r, t, after)
    ensures DecidedAt(c, actions, n, r, t, after) || (Stands(c, actions, n, r, t, co) && Follows(r, t, co, after))
  {
    AtStep(c, actions, n);
    var s := At(c, actions, n);
    CoroCause(c, s, actions[n], r, t);
    co := if t < |CorosOf(s, r)| then CorosOf(s, r)[t] else Working;
  }

  lemma NoneAtFirst(c: Config, actions: seq<Action>, r: ReqId, t: nat, co: Coro)
    ensures !Stands(c, actions, 0, r, t, co)
  {
    AtEnds(c, actions);
  }

  lemma {:induction false} DecidedFrom(c: Config, actions: seq<Action>, n: nat, r: ReqId, t: nat, after: Coro) returns (k: nat)
    requires n <= |actions| && Stands(c, actions, n, r, t, after)
    ensures k < n && DecidedAt(c, actions, k, r, t, after)
    decreases n
  {
    if n == 0 { NoneAtFirst(c, actions, r, t, after); }
    k := n - 1;
    var co := DecidedStep(c, actions, n - 1, r, t, after);
    if !DecidedAt(c, actions, n - 1, r, t, after) {
      k := DecidedFrom(c, actions, n - 1, r, t, co);
    }
  }

  lemma {:induction false} MadeKept(c: Config, actions: seq<Action>, k: nat, n: nat, id: EnvId)
    requires k <= n <= |actions| && id in At(c, actions, k).made
    ensures id in At(c, actions, n).made && At(c, actions, n).made[id] == At(c, actions, k).made[id]
    decreases n
  {
    if k < n {
      MadeKept(c, actions, k, n - 1, id);
      AtStep(c, actions, n - 1);
      StepGrows(c, At(c, actions, n - 1), actions[n - 1]);
    }
  }

  /** What the caller is told of a target of a published request: `Ready` just when its payload
      was done, passed its checks and is below secret, and then with an envelope that holds this
      payload's tier and hash, made at that moment for this request. */
  lemma OutcomeIs(c: Config, actions: seq<Action>, r: ReqId, t: nat) returns (k: nat)
    requires r in Run(c, INIT, actions).published && t < |Run(c, INIT, actions).published[r]|
    ensures k < |actions| && Happens(c, actions, k, actions[k])
    ensures actions[k].CoroFails? || actions[k].PayloadDone?
    ensures actions[k].r == r && actions[k].t == t
    ensures var s, a, id := Run(c, INIT, actions), actions[k], At(c, actions, k).nextEnv;
      if a.PayloadDone? && a.passed && a.tier != Secret then
        && Told(s.published[r][t]) == Ready(id)
        && id in s.made && s.made[id] == Origin(Entry(Envelope(id, a.tier, a.hash, Some(true)), At(c, actions, k).now), r)
      else Told(s.published[r][t]) == Blocked
  {
    AtEnds(c, actions);
    var s := Run(c, INIT, actions);
    assert AllFinished(s.published[r]) && r !in s.preps;
    assert Finished(s.published[r][t]);
    k := DecidedFrom(c, actions, |actions|, r, t, s.published[r][t]);
    var a := actions[k];
    if a.PayloadDone? && a.passed && a.tier != Secret {
      AtStep(c, actions, k);
      PayloadMakes(c, At(c, actions, k), a);
      MadeKept(c, actions, k + 1, |actions|, At(c, actions, k).nextEnv);
    }
  }

  lemma PayloadMakes(c: Config, s: State, a: Action)
    requires Enabled(s, a) && a.PayloadDone? && a.passed
    ensures var made := Step(c, s, a).made;
      s.nextEnv in made
      && made[s.nextEnv] == Origin(Entry(Envelope(s.nextEnv, a.tier, a.hash, Some(true)), s.now), a.r)
  {
  }

  // ---- how long a request waits ---------------------------------------------------

  /** Request `r`, begun at time `at`, stops waiting: it is sent, or it is found too old when
      another one begins. */
  ghost predicate Ends(c: Config, s: State, a: Action, r: ReqId, at: int) {
    (a.Send? && a.r == r) || (a.StartPrepare? && s.now - at > c.pendingTtl)
  }

  lemma OthersLeave(c: Config, s: State, a: Action)
    requires Enabled(s, a) && (OnTask(a) || OnCoro(a))
    ensures Step(c, s, a).pending == s.pending && Step(c, s, a).published == s.published
  {
  }

  lemma BegunKept(c: Config, s: State, a: Action, r: ReqId)
    requires Enabled(s, a) && (OnTask(a) || OnCoro(a)) && r in Step(c, s, a).preps
    ensures r in s.preps && Step(c, s, a).preps[r].createdAt == s.preps[r].createdAt
  {
  }

  lemma PendingAfter(c: Config, s: State, a: Action, r: ReqId)
    requires Books(s) && r in s.pending
    ensures r in Step(c, s, a).pending <==> !Ends(c, s, a, r, s.pending[r].createdAt)
    ensures r in Step(c, s, a).pending ==> Step(c, s, a).pending[r] == s.pending[r]
  {
    assert r !in s.preps;
    if Enabled(s, a) {
      if OnTask(a) || OnCoro(a) { OthersLeave(c, s, a); } else { PendingWhole(c, s, a, r); }
    }
  }

  lemma PendingWhole(c: Config, s: State, a: Action, r: ReqId)
    requires r in s.pending && r !in s.preps && Enabled(s, a) && !OnTask(a) && !OnCoro(a)
    ensures r in StepWhole(c, s, a).pending <==> !Ends(c, s, a, r, s.pending[r].createdAt)
    ensures r in StepWhole(c, s, a).pending ==> StepWhole(c, s, a).pending[r] == s.pending[r]
  {
  }

  lemma PendingGone(c: Config, s: State, a: Action, r: ReqId)
    requires Books(s) && r in s.published
    ensures r in Step(c, s, a).published && (r !in s.pending ==> r !in Step(c, s, a).pending)
  {
    assert r !in s.preps;
    if Enabled(s, a) {
      if OnTask(a) || OnCoro(a) { OthersLeave(c, s, a); } else { GoneWhole(c, s, a, r); }
    }
  }

  lemma GoneWhole(c: Config, s: State, a: Action, r: ReqId)
    requires r in s.published && r !in s.preps && Enabled(s, a) && !OnTask(a) && !OnCoro(a)
    ensures r in StepWhole(c, s, a).published && (r !in s.pending ==> r !in StepWhole(c, s, a).pending)
  {
  }

  lemma PrepAfter(c: Config, s: State, a: Action, r: ReqId)
    requires Books(s) && r in Step(c, s, a).preps
    ensures
      || (r in s.preps && Step(c, s, a).preps[r].createdAt == s.preps[r].createdAt)
      || (a.StartPrepare? && r == s.nextReq && Step(c, s, a).preps[r].createdAt == s.now)
  {
    if Enabled(s, a) {
      if OnTask(a) || OnCoro(a) { BegunKept(c, s, a, r); } else { PrepWhole(c, s, a, r); }
    }
  }

  lemma PrepWhole(c: Config, s: State, a: Action, r: ReqId)
    requires Enabled(s, a) && !OnTask(a) && !OnCoro(a) && r in StepWhole(c, s, a).preps
    ensures
      || (r in s.preps && StepWhole(c, s, a).preps[r].createdAt == s.preps[r].createdAt)
      || (a.StartPrepare? && r == s.nextReq && StepWhole(c, s, a).preps[r].createdAt == s.now)
  {
  }

  lemma StartBegins(c: Config, s: State, n: nat)
    ensures var s' := Step(c, s, StartPrepare(n));
      s'.nextReq == s.nextReq + 1 && s.nextReq in s'.preps && s'.preps[s.nextReq].createdAt == s.now
  {
  }

  /** A request begun at time `at`. */
  ghost predicate Begun(s: State, r: ReqId, at: int) {
    r < s.nextReq && (r in s.preps ==> s.preps[r].createdAt == at)
  }

  lemma BegunAfter(c: Config, s: State, a: Action, r: ReqId, at: int)
    requires Books(s) && Begun(s, r, at)
    ensures Begun(Step(c, s, a), r, at)
  {
    StepTargets(c, s, a, r);
    if r in Step(c, s, a).preps { PrepAfter(c, s, a, r); }
  }

  lemma BegunAtStart(c: Config, actions: seq<Action>, b: nat)
    requires b < |actions| && actions[b].StartPrepare?
    ensures Begun(At(c, actions, b + 1), At(c, actions, b).nextReq, At(c, actions, b).now)
  {
    AtStep(c, actions, b);
    StartBegins(c, At(c, actions, b), actions[b].targets);
  }

  lemma BegunOneMore(c: Config, actions: seq<Action>, k: nat, r: ReqId, at: int)
    requires k < |actions| && Begun(At(c, actions, k), r, at)
    ensures Begun(At(c, actions, k + 1), r, at)
  {
    AtStep(c, actions, k);
    BegunAfter(c, At(c, actions, k), actions[k], r, at);
  }

  lemma PrepSince(c: Config, actions: seq<Action>, b: nat, n: nat)
    requires b < n <= |actions| && actions[b].StartPrepare?
    ensures Begun(At(c, actions, n), At(c, actions, b).nextReq, At(c, actions, b).now)
  {
    var r, at := At(c, actions, b).nextReq, At(c, actions, b).now;
    BegunAtStart(c, actions, b);
    for k := b + 1 to n
      invariant Begun(At(c, actions, k), r, at)
    {
      BegunOneMore(c, actions, k, r, at);
    }
  }

  lemma {:induction false} PendingSince(c: Config, actions: seq<Action>, p: nat, n: nat, r: ReqId, at: int)
    requires p < n <= |actions| && Happens(c, actions, p, Publish(r)) && At(c, actions, p).preps[r].createdAt == at
    ensures r in At(c, actions, n).published
    ensures r in At(c, actions, n).pending <==> forall k :: p < k < n ==> !Ends(c, At(c, actions, k), actions[k], r, at)
    ensures r in At(c, actions, n).pending ==> At(c, actions, n).pending[r] == Pending(At(c, actions, p).preps[r].calls, at)
    decreases n
  {
    AtStep(c, actions, n - 1);
    if p < n - 1 {
      PendingSince(c, actions, p, n - 1, r, at);
      var s, a := At(c, actions, n - 1), actions[n - 1];
      PendingGone(c, s, a, r);
      if r in s.pending { PendingAfter(c, s, a, r); }
    } else {
      PublishGives(c, At(c, actions, p), r);
    }
  }

  lemma PublishGives(c: Config, s: State, r: ReqId)
    requires Enabled(s, Publish(r))
    ensures var s' := Step(c, s, Publish(r));
      r in s'.published && r in s'.pending && s'.pending[r] == Pending(s.preps[r].calls, s.preps[r].createdAt)
  {
  }

  /** A published request waits, with the list it was published with, until it is sent, or until
      a later prepare finds that more than the limit has passed since this one began. */
  lemma PendingUntil(c: Config, actions: seq<Action>, b: nat, p: nat, r: ReqId)
    requires b < p && p < |actions| && actions[b].StartPrepare? && r == At(c, actions, b).nextReq
    requires Happens(c, actions, p, Publish(r))
    ensures r in Run(c, INIT, actions).pending <==>
      forall k :: p < k < |actions| ==>
        && !(actions[k].Send? && actions[k].r == r)
        && !(actions[k].StartPrepare? && At(c, actions, k).now - At(c, actions, b).now > c.pendingTtl)
    ensures r in Run(c, INIT, actions).pending ==>
      Run(c, INIT, actions).pending[r] == Pending(At(c, actions, p).preps[r].calls, At(c, actions, b).now)
  {
    AtEnds(c, actions);
    PrepSince(c, actions, b, p);
    PendingSince(c, actions, p, |actions|, r, At(c, actions, b).now);
    assert forall k :: p < k < |actions| ==>
      (Ends(c, At(c, actions, k), actions[k], r, At(c, actions, b).now) <==>
         (actions[k].Send? && actions[k].r == r)
         || (actions[k].StartPrepare? && At(c, actions, k).now - At(c, actions, b).now > c.pendingTtl));
  }

  // ---- the clock --------------------------------------------------------------------

  ghost function Elapsed(actions: seq<Action>): nat {
    if actions == [] then 0 else (if actions[0].Tick? then actions[0].dt else 0) + Elapsed(actions[1..])
  }

  lemma OneTick(c: Config, s: State, a: Action)
    ensures Step(c, s, a).now == s.now + if a.Tick? then a.dt else 0
  {
    if Enabled(s, a) && !OnTask(a) && !OnCoro(a) { WholeTick(c, s, a); }
  }

  lemma WholeTick(c: Config, s: State, a: Action)
    requires Enabled(s, a) && !OnTask(a) && !OnCoro(a)
    ensures StepWhole(c, s, a).now == s.now + if a.Tick? then a.dt else 0
  {
  }

  /** Time is what the ticks add up to: no other action takes any. */
  lemma {:induction false} TimeIs(c: Config, s: State, actions: seq<Action>)
    ensures Run(c, s, actions).now == s.now + Elapsed(actions)
    decreases |actions|
  {
    if actions != [] {
      OneTick(c, s, actions[0]);
      TimeIs(c, Step(c, s, actions[0]), actions[1..]);
    }
  }
}
