/** Why each call was made. Every record and every call in the log of a run is traced back
    to the actions that asked for it, and those actions are shown to lead to it. */
module ProtocolCauses {
  import opened Schemas
  import opened EnvelopeCaches
  import opened Whitespace
  import opened Protocol
  import opened ProtocolProofs
  import opened ProtocolTheorems
  import opened ProtocolPending
  import opened ProtocolRuns

  /** The state before action `k` of a run. */
  ghost function At(c: Config, actions: seq<Action>, k: nat): State
    requires k <= |actions|
  {
    Run(c, INIT, actions[..k])
  }

  /** Action `k` of the run is `a`, and it takes place. */
  ghost predicate Happens(c: Config, actions: seq<Action>, k: nat, a: Action) {
    k < |actions| && actions[k] == a && Enabled(At(c, actions, k), a)
  }

  lemma AtStep(c: Config, actions: seq<Action>, k: nat)
    requires k < |actions|
    ensures At(c, actions, k + 1) == Step(c, At(c, actions, k), actions[k])
    ensures Inv(At(c, actions, k)) && Inv(At(c, actions, k + 1))
    ensures At(c, actions, k).log <= At(c, actions, k + 1).log
  {
    assert actions[..k + 1] == actions[..k] + [actions[k]];
    RunAppend(c, INIT, actions[..k], [actions[k]]);
    OneStep(c, At(c, actions, k), actions[k]);
    InitInv();
    RunInv(c, INIT, actions[..k]);
    StepInv(c, At(c, actions, k), actions[k]);
  }

  lemma AtEnds(c: Config, actions: seq<Action>)
    ensures At(c, actions, 0) == INIT && At(c, actions, |actions|) == Run(c, INIT, actions)
    ensures Inv(Run(c, INIT, actions))
  {
    assert actions[..0] == [] && actions[..|actions|] == actions;
    InitInv();
    RunInv(c, INIT, actions);
  }

  // ---- one step ----------------------------------------------------------------

  /** What an action on a task adds to the log, event by event. */
  ghost predicate AskedFor(s: State, a: Action, more: seq<Event>) {
    OnTask(a) && HasTask(s, a.r, a.id) &&
    match a
    case Dispatch(r, id, u, k) =>
      || more == [] || more == [Took(id)]
      || (u && k && id in s.made && !Blank(s.sends[r].approver)
          && more == [Took(id), Recorded(Request, id, s.made[id].Env().hash, AnswerModel, s.sends[r].approver),
                      Invoked(s.made[id].Env(), AnswerModel)])
    case Reply(r, id, ok, _) =>
      id in s.made
      && more == if ok then [Recorded(Result, id, s.made[id].Env().hash, AnswerModel, s.sends[r].approver)] else []
    case Draft(r, id, k) =>
      && id in s.made && s.sends[r].tasks[id] == Answered(true)
      && more ==
         if k && !Blank(s.sends[r].asker) then
           [Recorded(Request, id, s.made[id].Env().hash, DraftModel, s.sends[r].asker), Invoked(s.made[id].Env(), DraftModel)]
         else []
    case _ => more == []
  }

  lemma StepAsks(c: Config, s: State, a: Action)
    requires Books(s) && Enabled(s, a) && OnTask(a)
    ensures s.log <= Step(c, s, a).log && AskedFor(s, a, Step(c, s, a).log[|s.log|..])
  {
    match a
    case Dispatch(r, id, u, k) => DispatchAsks(c, s, r, id, u, k);
    case Reply(r, id, ok, esc) => ReplyAsks(c, s, r, id, ok, esc);
    case Draft(r, id, k) => DraftAsks(c, s, r, id, k);
    case Cancel(r, id) =>
  }

  lemma ReplyAsks(c: Config, s: State, r: ReqId, id: EnvId, ok: bool, esc: bool)
    requires Books(s) && Enabled(s, Reply(r, id, ok, esc))
    ensures s.log <= ReplyEffect(s, r, id, ok, esc).log
    ensures AskedFor(s, Reply(r, id, ok, esc), ReplyEffect(s, r, id, ok, esc).log[|s.log|..])
  {
    assert s.made[id].Env().id == id;
  }

  lemma DraftAsks(c: Config, s: State, r: ReqId, id: EnvId, k: bool)
    requires Books(s) && Enabled(s, Draft(r, id, k))
    ensures s.log <= DraftEffect(s, r, id, k).log
    ensures AskedFor(s, Draft(r, id, k), DraftEffect(s, r, id, k).log[|s.log|..])
  {
    assert s.made[id].Env().id == id && s.made[id].Env().validation == Some(true);
  }

  lemma DispatchAsks(c: Config, s: State, r: ReqId, id: EnvId, u: bool, k: bool)
    requires Books(s) && Enabled(s, Dispatch(r, id, u, k))
    ensures s.log <= DispatchEffect(c, s, r, id, u, k).log
    ensures AskedFor(s, Dispatch(r, id, u, k), DispatchEffect(c, s, r, id, u, k).log[|s.log|..])
  {
    if id in s.cache {
      assert s.cache[id] == s.made[id].entry && s.made[id].Env().id == id;
    }
  }

  /** The tasks of a request and its two names change only by its own actions. */
  lemma TaskAfter(c: Config, s: State, a: Action, r: ReqId, id: EnvId)
    requires Books(s) && HasTask(s, r, id)
    ensures var s' := Step(c, s, a);
      && HasTask(s', r, id) && s'.sends[r].approver == s.sends[r].approver && s'.sends[r].asker == s.sends[r].asker
      && s'.sends[r].tasks[id] ==
         if Enabled(s, a) && OnTask(a) && a.r == r && a.id == id then TaskEffect(c, s, a).task else s.sends[r].tasks[id]
  {
    if Enabled(s, a) {
      if OnTask(a) {
        TaskSettled(s, a.r, a.id, TaskEffect(c, s, a), r, id);
      } else if a.Send? {
        SendElsewhere(s, a.r, a.wanted, a.approver, a.asker, r);
      } else {
        Untouched(c, s, a);
      }
    }
  }

  lemma SendElsewhere(s: State, q: ReqId, wanted: set<EnvId>, approver: string, asker: string, r: ReqId)
    requires Books(s) && q in s.pending && r in s.sends
    ensures var s' := StepSend(s, q, wanted, approver, asker); r in s'.sends && s'.sends[r] == s.sends[r]
  {
    assert q !in s.sends;
  }

  lemma SendMakes(s: State, q: ReqId, wanted: set<EnvId>, approver: string, asker: string, r: ReqId, id: EnvId)
    requires q in s.pending && !HasTask(s, r, id)
    ensures var s' := StepSend(s, q, wanted, approver, asker);
      HasTask(s', r, id) ==>
        && q == r && id in wanted && id in s.pending[r].calls && s'.sends[r].approver == approver
        && s'.sends[r].asker == asker && s'.sends[r].tasks[id] == Waiting
  {
  }

  lemma TaskSettled(s: State, q: ReqId, x: EnvId, e: Effect, r: ReqId, id: EnvId)
    requires HasTask(s, q, x) && HasTask(s, r, id)
    ensures var s' := Settle(s, q, x, e);
      && HasTask(s', r, id) && s'.sends[r].approver == s.sends[r].approver && s'.sends[r].asker == s.sends[r].asker
      && s'.sends[r].tasks[id] == if q == r && x == id then e.task else s.sends[r].tasks[id]
  {
  }

  /** A task comes from a send that wants it, of a request that lists it. */
  lemma TaskBefore(c: Config, s: State, a: Action, r: ReqId, id: EnvId)
    requires Books(s) && !HasTask(s, r, id) && HasTask(Step(c, s, a), r, id)
    ensures a.Send? && Enabled(s, a) && a.r == r && id in a.wanted && id in s.pending[r].calls
    ensures Step(c, s, a).sends[r].approver == a.approver && Step(c, s, a).sends[r].asker == a.asker
    ensures Step(c, s, a).sends[r].tasks[id] == Waiting
  {
    if Enabled(s, a) {
      if OnTask(a) {
        TaskKeysKept(s, a.r, a.id, TaskEffect(c, s, a), r, id);
      } else if a.Send? {
        SendMakes(s, a.r, a.wanted, a.approver, a.asker, r, id);
      } else {
        Untouched(c, s, a);
      }
    }
  }

  lemma TaskKeysKept(s: State, q: ReqId, x: EnvId, e: Effect, r: ReqId, id: EnvId)
    requires HasTask(s, q, x)
    ensures HasTask(Settle(s, q, x, e), r, id) <==> HasTask(s, r, id)
  {
  }

  // ---- backwards through a run --------------------------------------------------

  /** The log before action `n`. */
  ghost function Logged(c: Config, actions: seq<Action>, n: nat): seq<Event>
    requires n <= |actions|
  {
    At(c, actions, n).log
  }

  lemma LoggedGrows(c: Config, actions: seq<Action>, k: nat)
    requires k < |actions|
    ensures Logged(c, actions, k) <= Logged(c, actions, k + 1)
  {
    AtStep(c, actions, k);
  }

  lemma LoggedNone(c: Config, actions: seq<Action>)
    ensures Logged(c, actions, 0) == []
  {
    AtEnds(c, actions);
  }

  /** The action that added event `i`. */
  lemma WhoAdded(c: Config, actions: seq<Action>, n: nat, i: nat) returns (k: nat)
    requires n <= |actions| && i < |Logged(c, actions, n)|
    ensures k < n && |Logged(c, actions, k)| <= i < |Logged(c, actions, k + 1)|
    ensures Logged(c, actions, k + 1) <= Logged(c, actions, n)
  {
    LoggedNone(c, actions);
    k := n - 1;
    LoggedGrows(c, actions, k);
    while i < |Logged(c, actions, k)|
      invariant k < n && i < |Logged(c, actions, k + 1)| && Logged(c, actions, k + 1) <= Logged(c, actions, n)
      invariant Logged(c, actions, k) <= Logged(c, actions, k + 1)
      decreases k
    {
      k := k - 1;
      LoggedGrows(c, actions, k);
    }
  }

  /** The send that selected an envelope. */
  ghost predicate SentBy(c: Config, actions: seq<Action>, m: nat, r: ReqId, id: EnvId, approver: string, asker: string) {
    && m < |actions| && actions[m].Send? && actions[m].r == r && Happens(c, actions, m, actions[m])
    && actions[m].approver == approver && actions[m].asker == asker
    && id in actions[m].wanted && id in At(c, actions, m).pending[r].calls
  }

  lemma {:induction false} SentFrom(c: Config, actions: seq<Action>, n: nat, r: ReqId, id: EnvId) returns (m: nat)
    requires n <= |actions| && HasTask(At(c, actions, n), r, id)
    ensures m < n
    ensures SentBy(c, actions, m, r, id, At(c, actions, n).sends[r].approver, At(c, actions, n).sends[r].asker)
    decreases n
  {
    AtEnds(c, actions);
    AtStep(c, actions, n - 1);
    if HasTask(At(c, actions, n - 1), r, id) {
      TaskAfter(c, At(c, actions, n - 1), actions[n - 1], r, id);
      m := SentFrom(c, actions, n - 1, r, id);
    } else {
      TaskBefore(c, At(c, actions, n - 1), actions[n - 1], r, id);
      m := n - 1;
    }
  }

  /** Only an answer to be escalated makes a task wait for its draft, and only a dispatch that
      went through makes it wait for its answer. */
  ghost predicate CausedBy(a: Action, r: ReqId, id: EnvId, task: Task) {
    (task == Answered(true) && a == Reply(r, id, true, true)) || (task == Called && a == Dispatch(r, id, true, true))
  }

  lemma TaskCause(c: Config, s: State, a: Action, r: ReqId, id: EnvId, task: Task)
    requires Books(s) && HasTask(Step(c, s, a), r, id) && Step(c, s, a).sends[r].tasks[id] == task
    requires task == Answered(true) || task == Called
    ensures HasTask(s, r, id) && (s.sends[r].tasks[id] == task || (Enabled(s, a) && CausedBy(a, r, id, task)))
  {
    if HasTask(s, r, id) { TaskAfter(c, s, a, r, id); } else { TaskBefore(c, s, a, r, id); }
  }

  lemma {:induction false} CausedFrom(c: Config, actions: seq<Action>, n: nat, r: ReqId, id: EnvId, task: Task) returns (j: nat)
    requires n <= |actions| && HasTask(At(c, actions, n), r, id) && At(c, actions, n).sends[r].tasks[id] == task
    requires task == Answered(true) || task == Called
    ensures j < n && Happens(c, actions, j, actions[j]) && CausedBy(actions[j], r, id, task)
    decreases n
  {
    AtEnds(c, actions);
    AtStep(c, actions, n - 1);
    TaskCause(c, At(c, actions, n - 1), actions[n - 1], r, id, task);
    j := n - 1;
    if At(c, actions, n - 1).sends[r].tasks[id] == task {
      j := CausedFrom(c, actions, n - 1, r, id, task);
    }
  }

  // ---- every call was asked for ----------------------------------------------------

  /** The action that added event `i`, and what else it added. */
  lemma AddedBy(c: Config, actions: seq<Action>, i: nat) returns (k: nat)
    requires i < |Run(c, INIT, actions).log|
    ensures k < |actions| && OnTask(actions[k]) && Happens(c, actions, k, actions[k])
    ensures var s, t := At(c, actions, k), At(c, actions, k + 1);
      && |s.log| <= i < |t.log| && s.log <= t.log <= Run(c, INIT, actions).log
      && AskedFor(s, actions[k], t.log[|s.log|..])
  {
    AtEnds(c, actions);
    assert Logged(c, actions, |actions|) == Run(c, INIT, actions).log;
    k := WhoAdded(c, actions, |actions|, i);
    AtStep(c, actions, k);
    var s := At(c, actions, k);
    if !(Enabled(s, actions[k]) && OnTask(actions[k])) {
      StepAudited(c, s, actions[k]);
    }
    StepAsks(c, s, actions[k]);
  }

  /** A call for an answer was made by a dispatch under the limit whose record was accepted,
      after a send that selected the envelope; the record before it names that send's approver. */
  lemma AnswersAreAskedFor(c: Config, actions: seq<Action>, i: nat) returns (m: nat, k: nat)
    requires i < |Run(c, INIT, actions).log| && Run(c, INIT, actions).log[i].Invoked?
    requires Run(c, INIT, actions).log[i].calling == AnswerModel
    ensures m < k < |actions| && actions[m].Send?
    ensures var log := Run(c, INIT, actions).log; var env, send := log[i].env, actions[m];
      && SentBy(c, actions, m, send.r, env.id, send.approver, send.asker)
      && Happens(c, actions, k, Dispatch(send.r, env.id, true, true))
      && |At(c, actions, k).log| <= i < |At(c, actions, k + 1).log|
      && i > 0 && log[i - 1] == Recorded(Request, env.id, env.hash, AnswerModel, send.approver)
  {
    k := AddedBy(c, actions, i);
    AtStep(c, actions, k);
    var s, t, log := At(c, actions, k), At(c, actions, k + 1), Run(c, INIT, actions).log;
    AnswerAdded(s, actions[k], t.log, i);
    assert log[i] == t.log[i] && log[i - 1] == t.log[i - 1];
    m := SentFrom(c, actions, k, actions[k].r, actions[k].id);
  }

  lemma AnswerAdded(s: State, a: Action, log: seq<Event>, i: nat)
    requires Books(s) && s.log <= log && AskedFor(s, a, log[|s.log|..])
    requires |s.log| <= i < |log| && log[i].Invoked? && log[i].calling == AnswerModel
    ensures a == Dispatch(a.r, log[i].env.id, true, true) && i > 0
    ensures log[i - 1] == Recorded(Request, log[i].env.id, log[i].env.hash, AnswerModel, s.sends[a.r].approver)
  {
    var more := log[|s.log|..];
    assert more[i - |s.log|] == log[i];
    assert i - |s.log| == 2 && log[i - 1] == more[1];
    assert s.made[a.id].Env().id == a.id;
  }

  lemma DraftAdded(s: State, a: Action, log: seq<Event>, i: nat)
    requires Books(s) && s.log <= log && AskedFor(s, a, log[|s.log|..])
    requires |s.log| <= i < |log| && log[i].Invoked? && log[i].calling == DraftModel
    ensures a == Draft(a.r, log[i].env.id, true) && i > 0 && HasTask(s, a.r, a.id)
    ensures s.sends[a.r].tasks[a.id] == Answered(true)
    ensures log[i - 1] == Recorded(Request, log[i].env.id, log[i].env.hash, DraftModel, s.sends[a.r].asker)
  {
    var more := log[|s.log|..];
    assert more[i - |s.log|] == log[i];
    assert i - |s.log| == 1 && log[i - 1] == more[0];
    assert s.made[a.id].Env().id == a.id;
  }

  /** A call for a draft was made by a draft after a reply to the same envelope that has to be
      escalated, after the dispatch of it, after the send that selected it; the record before
      the call names the asker of that send. */
  lemma DraftsAreAskedFor(c: Config, actions: seq<Action>, i: nat) returns (m: nat, d: nat, j: nat, k: nat)
    requires i < |Run(c, INIT, actions).log| && Run(c, INIT, actions).log[i].Invoked?
    requires Run(c, INIT, actions).log[i].calling == DraftModel
    ensures m < d < j < k < |actions| && actions[m].Send?
    ensures var log := Run(c, INIT, actions).log; var env, send := log[i].env, actions[m];
      && SentBy(c, actions, m, send.r, env.id, send.approver, send.asker)
      && Happens(c, actions, d, Dispatch(send.r, env.id, true, true))
      && Happens(c, actions, j, Reply(send.r, env.id, true, true))
      && Happens(c, actions, k, Draft(send.r, env.id, true))
      && |At(c, actions, k).log| <= i < |At(c, actions, k + 1).log|
      && i > 0 && log[i - 1] == Recorded(Request, env.id, env.hash, DraftModel, send.asker)
  {
    k := AddedBy(c, actions, i);
    AtStep(c, actions, k);
    var s, t, log := At(c, actions, k), At(c, actions, k + 1), Run(c, INIT, actions).log;
    DraftAdded(s, actions[k], t.log, i);
    assert log[i] == t.log[i] && log[i - 1] == t.log[i - 1];
    m, d, j := DraftTrace(c, actions, k, actions[k].r, actions[k].id);
  }

  lemma DraftTrace(c: Config, actions: seq<Action>, k: nat, r: ReqId, id: EnvId) returns (m: nat, d: nat, j: nat)
    requires k < |actions| && HasTask(At(c, actions, k), r, id) && At(c, actions, k).sends[r].tasks[id] == Answered(true)
    ensures m < d < j < k
    ensures SentBy(c, actions, m, r, id, At(c, actions, k).sends[r].approver, At(c, actions, k).sends[r].asker)
    ensures Happens(c, actions, d, Dispatch(r, id, true, true)) && Happens(c, actions, j, Reply(r, id, true, true))
  {
    j := CausedFrom(c, actions, k, r, id, Answered(true));
    d := CausedFrom(c, actions, j, r, id, Called);
    m := SentFrom(c, actions, d, r, id);
    NamesKept(c, actions, d, k, r, id);
  }

  lemma {:induction false} NamesKept(c: Config, actions: seq<Action>, d: nat, k: nat, r: ReqId, id: EnvId)
    requires d <= k <= |actions| && HasTask(At(c, actions, d), r, id)
    ensures HasTask(At(c, actions, k), r, id)
    ensures At(c, actions, k).sends[r].approver == At(c, actions, d).sends[r].approver
    ensures At(c, actions, k).sends[r].asker == At(c, actions, d).sends[r].asker
    decreases k
  {
    if d < k {
      NamesKept(c, actions, d, k - 1, r, id);
      AtStep(c, actions, k - 1);
      TaskAfter(c, At(c, actions, k - 1), actions[k - 1], r, id);
    }
  }

  /** A result is on record just for an answer that came back. */
  lemma ResultsAreReplies(c: Config, actions: seq<Action>, i: nat) returns (k: nat)
    requires i < |Run(c, INIT, actions).log| && Run(c, INIT, actions).log[i].Recorded?
    requires Run(c, INIT, actions).log[i].kind == Result
    ensures k < |actions| && actions[k].Reply? && actions[k].ok && Happens(c, actions, k, actions[k])
    ensures var e, s := Run(c, INIT, actions).log[i], At(c, actions, k);
      && actions[k].id == e.recId && e.recId in s.made && e.model == AnswerModel
      && e.hash == s.made[e.recId].Env().hash && e.approver == s.sends[actions[k].r].approver
      && i == |s.log| && |At(c, actions, k + 1).log| == i + 1
  {
    k := AddedBy(c, actions, i);
    var s, t := At(c, actions, k), At(c, actions, k + 1);
    assert t.log[|s.log|..][i - |s.log|] == Run(c, INIT, actions).log[i];
  }

  // ---- each of them at most once -----------------------------------------------------

  /** How far an envelope has come: sent, called, waiting for its draft, done. */
  function Stage(task: Task): nat {
    match task
    case Waiting => 0
    case Called => 1
    case Answered(true) => 2
    case _ => 3
  }

  ghost predicate StartsAt(a: Action, stage: nat) {
    match a
    case Dispatch(_, _, _, _) => stage == 0
    case Reply(_, _, _, _) => stage == 1
    case Draft(_, _, _) => stage == 2
    case _ => stage <= 1
  }

  ghost predicate EndsAt(a: Action, stage: nat) {
    match a
    case Dispatch(_, _, _, _) => stage >= 1
    case Reply(_, _, _, _) => stage >= 2
    case _ => stage == 3
  }

  lemma StageOf(c: Config, s: State, a: Action)
    requires Enabled(s, a) && OnTask(a)
    ensures StartsAt(a, Stage(s.sends[a.r].tasks[a.id])) && EndsAt(a, Stage(TaskEffect(c, s, a).task))
    ensures Stage(s.sends[a.r].tasks[a.id]) < Stage(TaskEffect(c, s, a).task)
  {
  }

  lemma StageGrows(c: Config, s: State, a: Action, r: ReqId, id: EnvId)
    requires Books(s) && HasTask(s, r, id)
    ensures HasTask(Step(c, s, a), r, id)
    ensures Stage(s.sends[r].tasks[id]) <= Stage(Step(c, s, a).sends[r].tasks[id])
  {
    TaskAfter(c, s, a, r, id);
    if Enabled(s, a) && OnTask(a) { StageOf(c, s, a); }
  }

  lemma {:induction false} StageKept(c: Config, actions: seq<Action>, j: nat, k: nat, r: ReqId, id: EnvId)
    requires j <= k <= |actions| && HasTask(At(c, actions, j), r, id)
    ensures HasTask(At(c, actions, k), r, id)
    ensures Stage(At(c, actions, j).sends[r].tasks[id]) <= Stage(At(c, actions, k).sends[r].tasks[id])
    decreases k
  {
    if j < k {
      StageKept(c, actions, j, k - 1, r, id);
      AtStep(c, actions, k - 1);
      StageGrows(c, At(c, actions, k - 1), actions[k - 1], r, id);
    }
  }

  /** In every run an envelope is dispatched, replied to, drafted and cancelled at most once;
      a reply comes after the dispatch, a draft after the reply, and nothing after a cancel. */
  lemma TaskInOrder(c: Config, actions: seq<Action>, j: nat, k: nat)
    requires j < k < |actions| && OnTask(actions[j]) && OnTask(actions[k])
    requires actions[j].r == actions[k].r && actions[j].id == actions[k].id
    requires Happens(c, actions, j, actions[j]) && Happens(c, actions, k, actions[k])
    ensures
      || (actions[j].Dispatch? && (actions[k].Reply? || actions[k].Draft? || actions[k].Cancel?))
      || (actions[j].Reply? && actions[k].Draft?)
  {
    var r, id, a, b := actions[j].r, actions[j].id, actions[j], actions[k];
    StageLeft(c, actions, j, a);
    StageKept(c, actions, j + 1, k, r, id);
    StageOf(c, At(c, actions, k), b);
    StagesOrder(a, b, Stage(At(c, actions, k).sends[r].tasks[id]));
  }

  lemma StageLeft(c: Config, actions: seq<Action>, j: nat, a: Action)
    requires Happens(c, actions, j, a) && OnTask(a)
    ensures HasTask(At(c, actions, j + 1), a.r, a.id) && EndsAt(a, Stage(At(c, actions, j + 1).sends[a.r].tasks[a.id]))
  {
    AtStep(c, actions, j);
    TaskAfter(c, At(c, actions, j), a, a.r, a.id);
    StageOf(c, At(c, actions, j), a);
  }

  lemma StagesOrder(a: Action, b: Action, stage: nat)
    requires OnTask(a) && OnTask(b) && StartsAt(b, stage)
    requires exists k: nat :: k <= stage && EndsAt(a, k)
    ensures (a.Dispatch? && (b.Reply? || b.Draft? || b.Cancel?)) || (a.Reply? && b.Draft?)
  {
  }

  /** Drafts come last: once one is made, nothing else happens to any envelope of that send
      but further drafts. */
  lemma DraftsComeLast(c: Config, actions: seq<Action>, j: nat, k: nat)
    requires j < k < |actions| && actions[j].Draft? && OnTask(actions[k]) && actions[k].r == actions[j].r
    requires Happens(c, actions, j, actions[j]) && Happens(c, actions, k, actions[k])
    ensures actions[k].Draft?
  {
    var r, id := actions[k].r, actions[k].id;
    NoNewTask(c, actions, j, k, r, id);
    StageKept(c, actions, j, k, r, id);
    SettledStage(At(c, actions, j).sends[r].tasks, id);
    StageOf(c, At(c, actions, k), actions[k]);
  }

  lemma SettledStage(tasks: map<EnvId, Task>, id: EnvId)
    requires AllSettled(tasks) && id in tasks
    ensures Stage(tasks[id]) >= 2
  {
  }

  lemma NoNewTaskOne(c: Config, actions: seq<Action>, n: nat, r: ReqId, id: EnvId)
    requires n < |actions| && r in At(c, actions, n).sends
    ensures r in At(c, actions, n + 1).sends
    ensures HasTask(At(c, actions, n + 1), r, id) ==> HasTask(At(c, actions, n), r, id)
  {
    AtStep(c, actions, n);
    var s, a := At(c, actions, n), actions[n];
    if !HasTask(s, r, id) && HasTask(At(c, actions, n + 1), r, id) {
      TaskBefore(c, s, a, r, id);
    }
    SendsKept(c, s, a, r);
  }

  lemma SendsKept(c: Config, s: State, a: Action, r: ReqId)
    requires Books(s) && r in s.sends
    ensures r in Step(c, s, a).sends
  {
    if Enabled(s, a) && !OnTask(a) {
      if a.Send? { SendElsewhere(s, a.r, a.wanted, a.approver, a.asker, r); } else { Untouched(c, s, a); }
    }
  }

  /** A send has the envelopes it began with. */
  lemma {:induction false} NoNewTask(c: Config, actions: seq<Action>, j: nat, k: nat, r: ReqId, id: EnvId)
    requires j <= k <= |actions| && r in At(c, actions, j).sends
    ensures r in At(c, actions, k).sends
    ensures HasTask(At(c, actions, k), r, id) ==> HasTask(At(c, actions, j), r, id)
    decreases k
  {
    if j < k {
      NoNewTask(c, actions, j, k - 1, r, id);
      NoNewTaskOne(c, actions, k - 1, r, id);
    }
  }

  // ---- forwards through a run ----------------------------------------------------------

  lemma {:induction false} TaskKept(c: Config, actions: seq<Action>, j: nat, n: nat, r: ReqId, id: EnvId)
    requires j <= n <= |actions| && HasTask(At(c, actions, j), r, id)
    requires forall k :: j <= k < n ==>
      !(OnTask(actions[k]) && actions[k].r == r && actions[k].id == id && Happens(c, actions, k, actions[k]))
    ensures HasTask(At(c, actions, n), r, id)
    ensures At(c, actions, n).sends[r].tasks[id] == At(c, actions, j).sends[r].tasks[id]
    ensures At(c, actions, n).sends[r].approver == At(c, actions, j).sends[r].approver
    ensures At(c, actions, n).sends[r].asker == At(c, actions, j).sends[r].asker
    decreases n
  {
    if j < n {
      TaskKept(c, actions, j, n - 1, r, id);
      AtStep(c, actions, n - 1);
      TaskAfter(c, At(c, actions, n - 1), actions[n - 1], r, id);
    }
  }

  /** Someone is named: not only white space. */
  ghost predicate Named(name: string) {
    exists c :: c in name && !IsSpace(c)
  }

  /** After an answer that has to be escalated the draft is due until it is made: as soon as
      every envelope of the send is settled it can be made, and it adds its record and one
      call when the asker is named and the record is accepted, and nothing otherwise. */
  lemma EscalationIsDrafted(c: Config, actions: seq<Action>, j: nat, r: ReqId, id: EnvId, recordable: bool)
    requires Happens(c, actions, j, Reply(r, id, true, true))
    requires forall k :: j < k < |actions| ==> !(actions[k].Draft? && actions[k].r == r && actions[k].id == id)
    ensures var s := Run(c, INIT, actions);
      && HasTask(s, r, id) && s.sends[r].tasks[id] == Answered(true) && id in s.made
      && (AllSettled(s.sends[r].tasks) ==>
           && Enabled(s, Draft(r, id, recordable))
           && Step(c, s, Draft(r, id, recordable)).log == s.log +
              if recordable && Named(s.sends[r].asker) then
                [Recorded(Request, id, s.made[id].Env().hash, DraftModel, s.sends[r].asker), Invoked(s.made[id].Env(), DraftModel)]
              else [])
  {
    AtEnds(c, actions);
    StaysAnswered(c, actions, j, r, id);
    var s, a := Run(c, INIT, actions), Draft(r, id, recordable);
    assert Owned(s.made, id, r) by { assert id in s.sends[r].tasks.Keys; }
    if AllSettled(s.sends[r].tasks) {
      DraftAsks(c, s, r, id, recordable);
      var log := Step(c, s, a).log;
      assert log == s.log + log[|s.log|..];
      assert Named(s.sends[r].asker) <==> !Blank(s.sends[r].asker);
    }
  }

  lemma StaysAnswered(c: Config, actions: seq<Action>, j: nat, r: ReqId, id: EnvId)
    requires Happens(c, actions, j, Reply(r, id, true, true))
    requires forall k :: j < k < |actions| ==> !(actions[k].Draft? && actions[k].r == r && actions[k].id == id)
    ensures var s := At(c, actions, |actions|); HasTask(s, r, id) && s.sends[r].tasks[id] == Answered(true)
  {
    AtStep(c, actions, j);
    TaskAfter(c, At(c, actions, j), actions[j], r, id);
    forall k | j + 1 <= k < |actions|
      ensures !(OnTask(actions[k]) && actions[k].r == r && actions[k].id == id && Happens(c, actions, k, actions[k]))
    {
      if OnTask(actions[k]) && actions[k].r == r && actions[k].id == id && Happens(c, actions, k, actions[k]) {
        TaskInOrder(c, actions, j, k);
      }
    }
    TaskKept(c, actions, j + 1, |actions|, r, id);
  }

  /** A call can be answered: one that comes back adds its result, under the send's approver,
      and has to be escalated or not; one that fails adds nothing. It can be given up like an
      envelope that still waits, which adds nothing either. */
  lemma CallEnds(c: Config, actions: seq<Action>, r: ReqId, id: EnvId, ok: bool, escalates: bool)
    requires HasTask(Run(c, INIT, actions), r, id)
    ensures var s, reply := Run(c, INIT, actions), Reply(r, id, ok, escalates);
      s.sends[r].tasks[id] == Called ==>
        && Enabled(s, reply) && id in s.made && HasTask(Step(c, s, reply), r, id)
        && Step(c, s, reply).sends[r].tasks[id] == (if ok then Answered(escalates) else Failed(true))
        && Step(c, s, reply).log == s.log +
           if ok then [Recorded(Result, id, s.made[id].Env().hash, AnswerModel, s.sends[r].approver)] else []
    ensures var s, cancel := Run(c, INIT, actions), Cancel(r, id);
      s.sends[r].tasks[id] == Called || s.sends[r].tasks[id] == Waiting ==>
        && Enabled(s, cancel) && HasTask(Step(c, s, cancel), r, id) && Step(c, s, cancel).log == s.log
        && Step(c, s, cancel).sends[r].tasks[id] == Failed(s.sends[r].tasks[id] == Called)
        && Step(c, s, cancel).cache == if s.sends[r].tasks[id] == Called then s.cache - {id} else s.cache
  {
    AtEnds(c, actions);
    var s, reply, cancel := Run(c, INIT, actions), Reply(r, id, ok, escalates), Cancel(r, id);
    assert Owned(s.made, id, r) by { assert id in s.sends[r].tasks.Keys; }
    TaskAfter(c, s, reply, r, id);
    TaskAfter(c, s, cancel, r, id);
    if s.sends[r].tasks[id] == Called {
      ReplyAsks(c, s, r, id, ok, escalates);
      var log := Step(c, s, reply).log;
      assert log == s.log + log[|s.log|..];
    }
  }

  /** An envelope that a send has selected waits, under that send's names, until it is
      dispatched or cancelled; dispatching it within the limit of its age adds the take, its
      record and one call, when it is below secret, the approver is named, the daily limit
      allows it and the record is accepted. */
  lemma SentIsCalled(c: Config, actions: seq<Action>, m: nat, r: ReqId, id: EnvId, approver: string, asker: string)
    requires SentBy(c, actions, m, r, id, approver, asker)
    requires forall k :: m < k < |actions| ==>
      !((actions[k].Dispatch? || actions[k].Cancel?) && actions[k].r == r && actions[k].id == id)
    ensures var s := Run(c, INIT, actions);
      && HasTask(s, r, id) && s.sends[r].tasks[id] == Waiting && id in s.made
      && s.sends[r].approver == approver && s.sends[r].asker == asker
      && (s.made[id].Env().tier != Secret && s.now - s.made[id].entry.createdAt <= c.ttl && Named(approver) ==>
           && Enabled(s, Dispatch(r, id, true, true))
           && Step(c, s, Dispatch(r, id, true, true)).log == s.log + [
                Took(id), Recorded(Request, id, s.made[id].Env().hash, AnswerModel, approver),
                Invoked(s.made[id].Env(), AnswerModel)])
  {
    AtEnds(c, actions);
    AtStep(c, actions, m);
    SendGives(At(c, actions, m), r, actions[m].wanted, approver, asker, id);
    StillWaiting(c, actions, m, r, id);
    TaskKept(c, actions, m + 1, |actions|, r, id);
    var s := Run(c, INIT, actions);
    assert Owned(s.made, id, r) by { assert id in s.sends[r].tasks.Keys; }
    InitInv();
    RunLive(c, INIT, actions);
    assert LiveAt(c, s, id);
    assert TaskOf(s, id) == Some(Waiting);
    if s.made[id].Env().tier != Secret && s.now - s.made[id].entry.createdAt <= c.ttl && Named(approver) {
      assert s.cache[id] == s.made[id].entry && s.made[id].Env().id == id;
      DispatchReaches(c, s, r, id);
    }
  }

  lemma SendGives(s: State, r: ReqId, wanted: set<EnvId>, approver: string, asker: string, id: EnvId)
    requires r in s.pending && id in s.pending[r].calls && id in wanted
    ensures var s' := StepSend(s, r, wanted, approver, asker);
      && HasTask(s', r, id) && s'.sends[r].tasks[id] == Waiting
      && s'.sends[r].approver == approver && s'.sends[r].asker == asker
  {
    var selected := set x | x in s.pending[r].calls && x in wanted;
    assert id in selected;
  }

  ghost predicate Waits(s: State, r: ReqId, id: EnvId) {
    HasTask(s, r, id) && s.sends[r].tasks[id] == Waiting
  }

  lemma StillWaitingOne(c: Config, actions: seq<Action>, k: nat, r: ReqId, id: EnvId)
    requires k < |actions| && Waits(At(c, actions, k), r, id)
    requires !((actions[k].Dispatch? || actions[k].Cancel?) && actions[k].r == r && actions[k].id == id)
    ensures Waits(At(c, actions, k + 1), r, id)
  {
    AtStep(c, actions, k);
    TaskAfter(c, At(c, actions, k), actions[k], r, id);
  }

  /** Until its dispatch or cancel nothing happens to it. */
  lemma StillWaitingTo(c: Config, actions: seq<Action>, m: nat, n: nat, r: ReqId, id: EnvId)
    requires m <= n <= |actions| && Waits(At(c, actions, m), r, id)
    requires forall k :: m <= k < n ==>
      !((actions[k].Dispatch? || actions[k].Cancel?) && actions[k].r == r && actions[k].id == id)
    ensures Waits(At(c, actions, n), r, id)
  {
    for k := m to n
      invariant Waits(At(c, actions, k), r, id)
    {
      StillWaitingOne(c, actions, k, r, id);
    }
  }

  lemma StillWaiting(c: Config, actions: seq<Action>, m: nat, r: ReqId, id: EnvId)
    requires m < |actions| && HasTask(At(c, actions, m + 1), r, id) && At(c, actions, m + 1).sends[r].tasks[id] == Waiting
    requires forall k :: m < k < |actions| ==>
      !((actions[k].Dispatch? || actions[k].Cancel?) && actions[k].r == r && actions[k].id == id)
    ensures forall k :: m + 1 <= k < |actions| ==>
      !(OnTask(actions[k]) && actions[k].r == r && actions[k].id == id && Happens(c, actions, k, actions[k]))
  {
    forall k | m + 1 <= k < |actions|
      ensures !(OnTask(actions[k]) && actions[k].r == r && actions[k].id == id && Happens(c, actions, k, actions[k]))
    {
      StillWaitingTo(c, actions, m + 1, k, r, id);
    }
  }
}
