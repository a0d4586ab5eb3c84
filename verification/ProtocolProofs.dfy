/** What every interleaving keeps. */
module ProtocolProofs {
  import opened Schemas
  import opened EnvelopeCaches
  import opened Protocol

  // ---- bookkeeping -------------------------------------------------------

  /** The envelope belongs to request `r`. */
  ghost predicate Owned(made: Origins, id: EnvId, r: ReqId) {
    id in made && made[id].owner == r
  }

  /** Only a target whose payload is below secret is ever told `Ready`; only a secret
      one waits on, or dies in, the mixed branch. */
  ghost predicate CoroOk(made: Origins, r: ReqId, c: Coro) {
    match c
    case Returned(Ready(id)) => Owned(made, id, r) && made[id].Env().tier != Secret
    case MixedAnswering(id) => Owned(made, id, r) && made[id].Env().tier == Secret
    case RaisedMixed(id) => Owned(made, id, r) && made[id].Env().tier == Secret
    case _ => true
  }

  ghost predicate CorosOk(made: Origins, r: ReqId, coros: seq<Coro>) {
    forall t :: 0 <= t < |coros| ==> CoroOk(made, r, coros[t])
  }

  ghost predicate IdsOwned(made: Origins, r: ReqId, ids: set<EnvId>) {
    forall id :: id in ids ==> Owned(made, id, r)
  }

  ghost predicate CallsOwned(made: Origins, r: ReqId, calls: seq<EnvId>) {
    forall id :: id in calls ==> Owned(made, id, r)
  }

  ghost predicate MadeOk(made: Origins, next: EnvId) {
    forall id :: id in made ==> id < next && made[id].Env().id == id && made[id].Env().validation == Some(true)
  }

  ghost predicate CacheOk(made: Origins, cache: Items) {
    forall id :: id in cache ==> id in made && cache[id] == made[id].entry
  }

  ghost predicate Requests(s: State) {
    && (forall r :: r in s.preps ==> r < s.nextReq && r !in s.published && r !in s.pending && r !in s.sends)
    && (forall r :: r in s.pending ==> r in s.published && r !in s.sends)
    && (forall r :: r in s.sends ==> r in s.published)
    && (forall r :: r in s.published ==> r < s.nextReq)
  }

  ghost predicate PrepsOk(made: Origins, preps: map<ReqId, Prep>) {
    forall r :: r in preps ==> CorosOk(made, r, preps[r].coros) && CallsOwned(made, r, preps[r].calls)
  }

  ghost predicate PendingOk(made: Origins, pending: map<ReqId, Pending>) {
    forall r :: r in pending ==> CallsOwned(made, r, pending[r].calls)
  }

  ghost predicate PublishedOk(made: Origins, published: map<ReqId, seq<Coro>>) {
    forall r :: r in published ==> CorosOk(made, r, published[r])
  }

  ghost predicate SendsOk(made: Origins, sends: map<ReqId, Sending>) {
    forall r :: r in sends ==> IdsOwned(made, r, sends[r].tasks.Keys)
  }

  ghost predicate Books(s: State) {
    && MadeOk(s.made, s.nextEnv) && CacheOk(s.made, s.cache) && Requests(s)
    && PrepsOk(s.made, s.preps) && PendingOk(s.made, s.pending)
    && PublishedOk(s.made, s.published) && SendsOk(s.made, s.sends)
  }

  /** Envelopes and their owners are never forgotten or changed. */
  ghost predicate Grows(made: Origins, made': Origins) {
    forall id :: id in made ==> id in made' && made'[id] == made[id]
  }

  /** The books of one target's move. */
  ghost predicate MoveOk(s: State, r: ReqId, m: Move) {
    && Grows(s.made, m.made) && MadeOk(m.made, m.nextEnv) && CacheOk(m.made, m.cache)
    && CoroOk(m.made, r, m.coro) && CallsOwned(m.made, r, m.calls)
  }

  lemma BooksAdvance(s: State, r: ReqId, t: nat, m: Move)
    requires Books(s) && Active(s, r, t) && MoveOk(s, r, m)
    ensures Books(Advance(s, r, t, m))
  {
    var s' := Advance(s, r, t, m);
    GrowsKeeps(s.made, m.made, s);
    assert CorosOk(m.made, r, s.preps[r].coros);
    assert CorosOk(m.made, r, s'.preps[r].coros);
  }

  lemma BooksTask(s: State, r: ReqId, id: EnvId, task: Task)
    requires Books(s) && HasTask(s, r, id)
    ensures Books(SetTask(s, r, id, task))
  {
    assert SetTask(s, r, id, task).sends[r].tasks.Keys == s.sends[r].tasks.Keys;
  }

  lemma GrowsKeeps(made: Origins, made': Origins, s: State)
    requires Grows(made, made')
    ensures PrepsOk(made, s.preps) ==> PrepsOk(made', s.preps)
    ensures PendingOk(made, s.pending) ==> PendingOk(made', s.pending)
    ensures PublishedOk(made, s.published) ==> PublishedOk(made', s.published)
    ensures SendsOk(made, s.sends) ==> SendsOk(made', s.sends)
  {
    forall r, c | CoroOk(made, r, c) ensures CoroOk(made', r, c) { }
  }

  /** A new envelope in the books. */
  lemma NewEnvelope(s: State, r: ReqId, env: Envelope)
    requires Books(s) && r in s.preps && env.id == s.nextEnv && env.validation == Some(true)
    ensures var made := s.made[env.id := Origin(Entry(env, s.now), r)];
      && Grows(s.made, made) && MadeOk(made, env.id + 1)
      && CallsOwned(made, r, s.preps[r].calls) && CallsOwned(made, r, s.preps[r].calls + [env.id])
      && Owned(made, env.id, r) && made[env.id].Env() == env
  {
    assert s.nextEnv !in s.made;
    assert CallsOwned(s.made, r, s.preps[r].calls);
  }

  lemma NewStored(s: State, r: ReqId, env: Envelope, ttl: int)
    requires Books(s) && env.id == s.nextEnv
    ensures CacheOk(s.made[env.id := Origin(Entry(env, s.now), r)], Stored(s.cache, env, s.now, ttl))
  {
    assert s.nextEnv !in s.made && s.nextEnv !in s.cache;
  }

  lemma PayloadMoveOk(c: Config, s: State, r: ReqId, tier: Tier, hash: nat, hasBelow: bool, passed: bool)
    requires Books(s) && r in s.preps
    ensures MoveOk(s, r, PayloadMove(c, s, r, tier, hash, hasBelow, passed))
  {
    if passed {
      var env, calls := Envelope(s.nextEnv, tier, hash, Some(true)), s.preps[r].calls;
      NewEnvelope(s, r, env);
      NewStored(s, r, env, c.ttl);
      assert (calls + [s.nextEnv])[..|calls|] == calls;
    }
  }

  lemma MixedMoveOk(c: Config, s: State, r: ReqId, t: nat, recordable: bool)
    requires Books(s) && Active(s, r, t) && s.preps[r].coros[t].MixedAnswering?
    ensures MoveOk(s, r, MixedMove(c, s, r, s.preps[r].coros[t].id, recordable))
  {
    var calls := s.preps[r].calls;
    assert CoroOk(s.made, r, s.preps[r].coros[t]);
    assert calls != [] ==> forall x :: x in calls[..|calls| - 1] ==> x in calls;
  }

  lemma CoroMoveOk(c: Config, s: State, a: Action)
    requires Books(s) && Enabled(s, a) && OnCoro(a)
    ensures MoveOk(s, a.r, CoroMove(c, s, a))
  {
    match a
    case CoroFails(r, t) =>
    case PayloadDone(r, t, tier, hash, hasBelow, passed) => PayloadMoveOk(c, s, r, tier, hash, hasBelow, passed);
    case ResumePure(r, t, recordable) =>
    case ResumeMixed(r, t, recordable) => MixedMoveOk(c, s, r, t, recordable);
  }

  lemma BooksStart(c: Config, s: State, targets: nat)
    requires Books(s)
    ensures Books(StepStart(c, s, targets))
  {
    var s' := StepStart(c, s, targets);
    assert s.nextReq !in s.published && s.nextReq !in s.preps;
    assert CorosOk(s.made, s.nextReq, s'.preps[s.nextReq].coros);
  }

  lemma BooksPublish(s: State, r: ReqId)
    requires Books(s) && r in s.preps
    ensures Books(StepPublish(s, r))
  {
  }

  lemma BooksUnlisted(s: State, r: ReqId)
    requires Books(s) && r in s.pending
    ensures Books(s.(pending := s.pending - {r}))
  {
  }

  lemma BooksTasks(s: State, r: ReqId, sending: Sending)
    requires Books(s) && r in s.published && r !in s.preps && r !in s.pending && IdsOwned(s.made, r, sending.tasks.Keys)
    ensures Books(s.(sends := s.sends[r := sending]))
  {
  }

  lemma BooksSend(s: State, r: ReqId, wanted: set<EnvId>, approver: string, asker: string)
    requires Books(s) && r in s.pending
    ensures Books(StepSend(s, r, wanted, approver, asker))
  {
    var selected := set id | id in s.pending[r].calls && id in wanted;
    BooksUnlisted(s, r);
    if selected != {} {
      assert CallsOwned(s.made, r, s.pending[r].calls);
      BooksTasks(s.(pending := s.pending - {r}), r, Sending(approver, asker, map id | id in selected :: Waiting));
    }
  }

  lemma BooksSettle(s: State, r: ReqId, id: EnvId, e: Effect)
    requires Books(s) && HasTask(s, r, id)
    requires forall x :: x in e.cache ==> x in s.cache && e.cache[x] == s.cache[x]
    ensures Books(Settle(s, r, id, e))
  {
    BooksTask(s.(cache := e.cache, log := e.log), r, id, e.task);
  }

  lemma BooksOnTask(c: Config, s: State, a: Action)
    requires Books(s) && Enabled(s, a) && OnTask(a)
    ensures Books(Step(c, s, a))
  {
    BooksSettle(s, a.r, a.id, TaskEffect(c, s, a));
  }

  lemma BooksWhole(c: Config, s: State, a: Action)
    requires Books(s) && Enabled(s, a) && !OnTask(a) && !OnCoro(a)
    ensures Books(StepWhole(c, s, a))
  {
    match a
    case Tick(dt) =>
    case StartPrepare(n) => BooksStart(c, s, n);
    case Publish(r) => BooksPublish(s, r);
    case Send(r, wanted, approver, asker) => BooksSend(s, r, wanted, approver, asker);
  }

  lemma StepBooks(c: Config, s: State, a: Action)
    requires Books(s)
    ensures Books(Step(c, s, a))
  {
    if Enabled(s, a) {
      if OnTask(a) {
        BooksOnTask(c, s, a);
      } else if OnCoro(a) {
        CoroMoveOk(c, s, a);
        BooksAdvance(s, a.r, a.t, CoroMove(c, s, a));
      } else {
        BooksWhole(c, s, a);
      }
    }
  }

  lemma WholeLeaves(c: Config, s: State, a: Action)
    requires Enabled(s, a) && !OnTask(a) && !OnCoro(a)
    ensures var s' := StepWhole(c, s, a);
      s'.made == s.made && s'.nextEnv == s.nextEnv && s'.cache == s.cache && s'.log == s.log
      && (a.Send? || s'.sends == s.sends)
  {
  }

  lemma StepGrows(c: Config, s: State, a: Action)
    requires Books(s)
    ensures Grows(s.made, Step(c, s, a).made)
    ensures !OnCoro(a) ==> Step(c, s, a).made == s.made
  {
    if Enabled(s, a) {
      if OnCoro(a) { CoroMoveOk(c, s, a); } else if !OnTask(a) { WholeLeaves(c, s, a); }
    }
  }

  // ---- the log -----------------------------------------------------------

  /** The calls that reached the broker for one envelope, in order. */
  function CallsOf(log: seq<Event>, id: EnvId): seq<Model> {
    if log == [] then []
    else
      CallsOf(log[..|log| - 1], id)
      + match log[|log| - 1] case Invoked(env, m) => (if env.id == id then [m] else []) case _ => []
  }

  /** How often the envelope was taken out of the cache. */
  function TakesOf(log: seq<Event>, id: EnvId): nat {
    if log == [] then 0
    else TakesOf(log[..|log| - 1], id) + if log[|log| - 1] == Took(id) then 1 else 0
  }

  lemma {:induction false} LogAppend(log: seq<Event>, more: seq<Event>, id: EnvId)
    ensures CallsOf(log + more, id) == CallsOf(log, id) + CallsOf(more, id)
    ensures TakesOf(log + more, id) == TakesOf(log, id) + TakesOf(more, id)
  {
    if more == [] {
      assert log + more == log;
    } else {
      var front := more[..|more| - 1];
      assert (log + more)[..|log + more| - 1] == log + front;
      LogAppend(log, front, id);
    }
  }

  /** The suffix an action adds to the log says nothing about other envelopes. */
  lemma OneLog(e: Event, id: EnvId)
    ensures CallsOf([e], id) == if e.Invoked? && e.env.id == id then [e.calling] else []
    ensures TakesOf([e], id) == if e == Took(id) then 1 else 0
  {
    assert [e][..0] == [];
  }

  function TaskOf(s: State, id: EnvId): Option<Task> {
    if id in s.made && HasTask(s, s.made[id].owner, id) then Some(s.sends[s.made[id].owner].tasks[id]) else None
  }

  function Expected(task: Option<Task>): seq<Model> {
    match task
    case None => []
    case Some(Waiting) => []
    case Some(Called) => [AnswerModel]
    case Some(Answered(_)) => [AnswerModel]
    case Some(Drafted) => [AnswerModel, DraftModel]
    case Some(Failed(reached)) => if reached then [AnswerModel] else []
  }

  ghost predicate TakesFit(takes: nat, task: Option<Task>) {
    match task
    case None => takes == 0
    case Some(Waiting) => takes == 0
    case Some(Failed(false)) => takes <= 1
    case _ => takes == 1
  }

  /** Where every envelope stands is exactly what the log says about it. */
  ghost predicate History(s: State) {
    forall id :: CallsOf(s.log, id) == Expected(TaskOf(s, id)) && TakesFit(TakesOf(s.log, id), TaskOf(s, id))
  }

  ghost predicate AddsFor(more: seq<Event>, id: EnvId, task: Task, after: Task) {
    && (forall x :: x != id ==> CallsOf(more, x) == [] && TakesOf(more, x) == 0)
    && Expected(Some(task)) + CallsOf(more, id) == Expected(Some(after))
    && forall n: nat :: TakesFit(n, Some(task)) ==> TakesFit(n + TakesOf(more, id), Some(after))
  }

  lemma DispatchAdds(c: Config, s: State, r: ReqId, id: EnvId, u: bool, k: bool)
    requires Books(s) && HasTask(s, r, id) && s.sends[r].tasks[id] == Waiting
    ensures var e := DispatchEffect(c, s, r, id, u, k);
      s.log <= e.log && AddsFor(e.log[|s.log|..], id, Waiting, e.task)
  {
    var e := DispatchEffect(c, s, r, id, u, k);
    DispatchShape(c, s, r, id, u, k);
    DispatchLogAdds(s, id, s.sends[r].approver, e.log[|s.log|..], e.task);
  }

  lemma DispatchLogAdds(s: State, id: EnvId, approver: string, more: seq<Event>, after: Task)
    requires Books(s) && DispatchLog(s, id, approver, more, after)
    ensures AddsFor(more, id, Waiting, after)
  {
    if after == Called {
      CallLogCounts(s.made[id].Env(), approver);
    } else {
      TookCounts(id, more);
    }
  }

  /** What a dispatch can add to the log. */
  ghost predicate DispatchLog(s: State, id: EnvId, approver: string, more: seq<Event>, after: Task) {
    || (more == [] && after == Failed(false))
    || (more == [Took(id)] && after == Failed(false))
    || (after == Called && id in s.made && Permitted(s.made[id].Env(), approver)
        && more == CallLog(s.made[id].Env(), approver))
  }

  function CallLog(env: Envelope, approver: string): seq<Event> {
    [Took(env.id), Recorded(Request, env.id, env.hash, AnswerModel, approver), Invoked(env, AnswerModel)]
  }

  lemma DispatchShape(c: Config, s: State, r: ReqId, id: EnvId, u: bool, k: bool)
    requires Books(s) && HasTask(s, r, id)
    ensures s.log <= DispatchEffect(c, s, r, id, u, k).log
    ensures DispatchLog(s, id, s.sends[r].approver, DispatchEffect(c, s, r, id, u, k).log[|s.log|..],
                        DispatchEffect(c, s, r, id, u, k).task)
  {
  }

  lemma DispatchAudited(c: Config, s: State, r: ReqId, id: EnvId, u: bool, k: bool)
    requires Books(s) && HasTask(s, r, id)
    ensures s.log <= DispatchEffect(c, s, r, id, u, k).log
    ensures Audited(s.made, DispatchEffect(c, s, r, id, u, k).log[|s.log|..])
  {
    DispatchShape(c, s, r, id, u, k);
  }

  /** An event that is neither a take nor a call of `id` leaves its counts alone. */
  lemma {:induction false} Silent(more: seq<Event>, id: EnvId)
    requires forall i :: 0 <= i < |more| ==> more[i] != Took(id) && !(more[i].Invoked? && more[i].env.id == id)
    ensures CallsOf(more, id) == [] && TakesOf(more, id) == 0
  {
    if more != [] { Silent(more[..|more| - 1], id); }
  }

  lemma TookCounts(id: EnvId, more: seq<Event>)
    requires more == [] || more == [Took(id)]
    ensures forall x :: CallsOf(more, x) == [] && (x != id ==> TakesOf(more, x) == 0)
    ensures TakesOf(more, id) <= 1
  {
    forall x ensures CallsOf(more, x) == [] && TakesOf(more, x) <= 1 && (x != id ==> TakesOf(more, x) == 0) {
      if more != [] { OneLog(Took(id), x); }
    }
  }

  lemma CallLogCounts(env: Envelope, approver: string)
    ensures CallsOf(CallLog(env, approver), env.id) == [AnswerModel] && TakesOf(CallLog(env, approver), env.id) == 1
    ensures forall x :: x != env.id ==> CallsOf(CallLog(env, approver), x) == [] && TakesOf(CallLog(env, approver), x) == 0
  {
    var more := CallLog(env, approver);
    forall x ensures
      && CallsOf(more, x) == (if x == env.id then [AnswerModel] else [])
      && TakesOf(more, x) == if x == env.id then 1 else 0
    {
      ThreeLog(more[0], more[1], more[2], x);
    }
  }

  lemma ThreeLog(e: Event, f: Event, g: Event, id: EnvId)
    requires !e.Invoked? && !f.Invoked? && !f.Took? && g.Invoked?
    ensures CallsOf([e, f, g], id) == if g.env.id == id then [g.calling] else []
    ensures TakesOf([e, f, g], id) == if e == Took(id) then 1 else 0
  {
    assert [e, f, g] == [e, f] + [g] && [e, f] == [e] + [f];
    LogAppend([e, f], [g], id);
    LogAppend([e], [f], id);
    OneLog(e, id);
    OneLog(f, id);
    OneLog(g, id);
  }

  lemma ReplyAdds(c: Config, s: State, r: ReqId, id: EnvId, ok: bool, esc: bool)
    requires Books(s) && HasTask(s, r, id) && id in s.made && s.sends[r].tasks[id] == Called
    ensures var e := ReplyEffect(s, r, id, ok, esc);
      s.log <= e.log && AddsFor(e.log[|s.log|..], id, Called, e.task)
  {
    var e := ReplyEffect(s, r, id, ok, esc);
    var more := e.log[|s.log|..];
    forall x ensures CallsOf(more, x) == [] && TakesOf(more, x) == 0 { Silent(more, x); }
  }

  lemma DraftAdds(s: State, r: ReqId, id: EnvId, k: bool)
    requires Books(s) && HasTask(s, r, id) && id in s.made && s.sends[r].tasks[id] == Answered(true)
    ensures var e := DraftEffect(s, r, id, k);
      s.log <= e.log && AddsFor(e.log[|s.log|..], id, Answered(true), e.task)
  {
    var e := DraftEffect(s, r, id, k);
    var more := e.log[|s.log|..];
    assert e.task == Answered(false) ==> more == [];
    assert e.task == Answered(false) || e.task == Drafted;
    if e.task == Drafted { DraftLog(s.made[id].Env(), more, id); }
  }

  lemma DraftLog(env: Envelope, more: seq<Event>, id: EnvId)
    requires |more| == 2 && more[0].Recorded? && more[1] == Invoked(env, DraftModel) && env.id == id
    ensures CallsOf(more, id) == [DraftModel] && TakesOf(more, id) == 0
    ensures forall x :: x != id ==> CallsOf(more, x) == [] && TakesOf(more, x) == 0
  {
    forall x ensures x != id ==> CallsOf(more, x) == [] && TakesOf(more, x) == 0 {
      if x != id { Silent(more, x); }
    }
    assert more == [more[0]] + [more[1]];
    LogAppend([more[0]], [more[1]], id);
    OneLog(more[0], id);
    OneLog(more[1], id);
  }

  lemma OnTaskAdds(c: Config, s: State, a: Action)
    requires Books(s) && Enabled(s, a) && OnTask(a)
    ensures var e := TaskEffect(c, s, a);
      s.log <= e.log && AddsFor(e.log[|s.log|..], a.id, s.sends[a.r].tasks[a.id], e.task)
  {
    match a
    case Dispatch(r, id, u, k) => DispatchAdds(c, s, r, id, u, k);
    case Reply(r, id, ok, esc) => ReplyAdds(c, s, r, id, ok, esc);
    case Draft(r, id, k) => DraftAdds(s, r, id, k);
    case Cancel(r, id) =>
      assert s.log[|s.log|..] == [];
      forall x ensures CallsOf([], x) == [] && TakesOf([], x) == 0 { }
  }

  /** Only the envelope an action works on changes its standing. */
  lemma TaskOfSettle(s: State, r: ReqId, id: EnvId, e: Effect)
    requires Books(s) && HasTask(s, r, id)
    ensures TaskOf(s, id) == Some(s.sends[r].tasks[id])
    ensures forall x :: TaskOf(Settle(s, r, id, e), x) == if x == id then Some(e.task) else TaskOf(s, x)
  {
    assert id in s.sends[r].tasks.Keys;
    assert Owned(s.made, id, r);
  }

  lemma HistoryAt(s: State, r: ReqId, id: EnvId, e: Effect, x: EnvId)
    requires Books(s) && History(s) && HasTask(s, r, id) && s.log <= e.log
    requires AddsFor(e.log[|s.log|..], id, s.sends[r].tasks[id], e.task)
    ensures CallsOf(e.log, x) == Expected(TaskOf(Settle(s, r, id, e), x))
    ensures TakesFit(TakesOf(e.log, x), TaskOf(Settle(s, r, id, e), x))
  {
    var more := e.log[|s.log|..];
    assert e.log == s.log + more;
    TaskOfSettle(s, r, id, e);
    LogAppend(s.log, more, x);
    assert CallsOf(s.log, x) == Expected(TaskOf(s, x)) && TakesFit(TakesOf(s.log, x), TaskOf(s, x));
  }

  lemma HistoryOnTask(c: Config, s: State, a: Action)
    requires Books(s) && History(s) && Enabled(s, a) && OnTask(a)
    ensures History(Step(c, s, a))
  {
    var e, s' := TaskEffect(c, s, a), Step(c, s, a);
    OnTaskAdds(c, s, a);
    forall x ensures CallsOf(s'.log, x) == Expected(TaskOf(s', x)) && TakesFit(TakesOf(s'.log, x), TaskOf(s', x)) {
      HistoryAt(s, a.r, a.id, e, x);
    }
  }

  lemma Untouched(c: Config, s: State, a: Action)
    requires Enabled(s, a) && !OnTask(a)
    ensures Step(c, s, a).log == s.log
    ensures a.Send? || Step(c, s, a).sends == s.sends
  {
    if !OnCoro(a) { WholeLeaves(c, s, a); }
  }

  /** A new envelope has no task yet. */
  lemma NewHasNoTask(s: State, x: EnvId, r: ReqId)
    requires Books(s) && x !in s.made
    ensures !HasTask(s, r, x)
  {
    assert r in s.sends ==> IdsOwned(s.made, r, s.sends[r].tasks.Keys);
  }

  lemma StandingKept(s: State, s': State, x: EnvId)
    requires Books(s) && Grows(s.made, s'.made) && s'.sends == s.sends
    ensures TaskOf(s', x) == TaskOf(s, x)
  {
    if x !in s.made && x in s'.made { NewHasNoTask(s, x, s'.made[x].owner); }
  }

  lemma StandingSend(s: State, r: ReqId, wanted: set<EnvId>, approver: string, asker: string, x: EnvId)
    requires Books(s) && r in s.pending
    ensures var s' := StepSend(s, r, wanted, approver, asker);
      TaskOf(s', x) == TaskOf(s, x) || (TaskOf(s, x) == None && TaskOf(s', x) == Some(Waiting))
  {
    assert r !in s.sends;
  }

  /** Other actions leave the log alone and give nobody a task with a past. */
  lemma HistoryElse(c: Config, s: State, a: Action)
    requires Books(s) && History(s) && Enabled(s, a) && !OnTask(a)
    ensures History(Step(c, s, a))
  {
    var s' := Step(c, s, a);
    Untouched(c, s, a);
    StepGrows(c, s, a);
    forall x ensures CallsOf(s'.log, x) == Expected(TaskOf(s', x)) && TakesFit(TakesOf(s'.log, x), TaskOf(s', x)) {
      assert CallsOf(s.log, x) == Expected(TaskOf(s, x)) && TakesFit(TakesOf(s.log, x), TaskOf(s, x));
      if a.Send? {
        StandingSend(s, a.r, a.wanted, a.approver, a.asker, x);
      } else {
        StandingKept(s, s', x);
      }
    }
  }

  lemma StepHistory(c: Config, s: State, a: Action)
    requires Books(s) && History(s)
    ensures History(Step(c, s, a))
  {
    if Enabled(s, a) {
      if OnTask(a) { HistoryOnTask(c, s, a); } else { HistoryElse(c, s, a); }
    }
  }

  // ---- what crosses the boundary ----------------------------------------

  /** A call carries the envelope as it was made, and stands right after a request
      record with the same id, payload hash and model; the envelope has passed
      validation and the approver is not blank. A request record stands right before
      its call. */
  ghost predicate CallOk(made: Origins, log: seq<Event>, i: nat)
    requires i < |log|
  {
    && (log[i].Invoked? ==>
          var env := log[i].env;
          && env.id in made && env == made[env.id].Env() && env.validation == Some(true)
          && 0 < i && log[i - 1].Recorded? && log[i - 1].kind == Request
          && log[i - 1] == Recorded(Request, env.id, env.hash, log[i].calling, log[i - 1].approver)
          && !Blank(log[i - 1].approver))
    && (log[i].Recorded? && log[i].kind == Request ==>
          i + 1 < |log| && log[i + 1].Invoked? && log[i + 1].env.id == log[i].recId && log[i + 1].calling == log[i].model)
  }

  ghost predicate Audited(made: Origins, log: seq<Event>) {
    forall i :: 0 <= i < |log| ==> CallOk(made, log, i)
  }

  lemma AuditedAppend(made: Origins, log: seq<Event>, more: seq<Event>)
    requires Audited(made, log) && Audited(made, more)
    ensures Audited(made, log + more)
  {
    var all := log + more;
    forall i | 0 <= i < |all| ensures CallOk(made, all, i) {
      if i < |log| {
        assert CallOk(made, log, i);
        assert all[i] == log[i];
      } else {
        assert CallOk(made, more, i - |log|);
        assert all[i] == more[i - |log|];
      }
    }
  }

  lemma OnTaskAudited(c: Config, s: State, a: Action)
    requires Books(s) && Enabled(s, a) && OnTask(a)
    ensures s.log <= TaskEffect(c, s, a).log
    ensures Audited(s.made, TaskEffect(c, s, a).log[|s.log|..])
  {
    match a
    case Dispatch(r, id, u, k) => DispatchAudited(c, s, r, id, u, k);
    case _ =>
  }

  lemma AuditedGrows(made: Origins, made': Origins, log: seq<Event>)
    requires Grows(made, made') && Audited(made, log)
    ensures Audited(made', log)
  {
    forall i | 0 <= i < |log| ensures CallOk(made', log, i) {
      assert CallOk(made, log, i);
    }
  }

  lemma TaskAudited(c: Config, s: State, a: Action)
    requires Books(s) && Audited(s.made, s.log) && Enabled(s, a) && OnTask(a)
    ensures s.log <= TaskEffect(c, s, a).log && Audited(s.made, TaskEffect(c, s, a).log)
  {
    var log := TaskEffect(c, s, a).log;
    OnTaskAudited(c, s, a);
    AuditedAppend(s.made, s.log, log[|s.log|..]);
    assert log == s.log + log[|s.log|..];
  }

  lemma StepAudited(c: Config, s: State, a: Action)
    requires Books(s) && Audited(s.made, s.log)
    ensures Audited(Step(c, s, a).made, Step(c, s, a).log)
    ensures s.log <= Step(c, s, a).log
    ensures !OnTask(a) ==> Step(c, s, a).log == s.log
  {
    StepGrows(c, s, a);
    if Enabled(s, a) {
      if OnTask(a) {
        TaskAudited(c, s, a);
      } else {
        Untouched(c, s, a);
        AuditedGrows(s.made, Step(c, s, a).made, s.log);
      }
    }
  }
}
