/** src/mesh/orchestrator.py and src/mesh/gatekeeper.py: `prepare`, `send` and the
    crossing of the boundary, as a state machine. Coroutines interleave at `await`;
    every action below is one section of code between two awaits. A run is any list
    of actions, so a statement about all runs is a statement about all interleavings
    of any number of requests. */
module Protocol {
  import opened Schemas
  import opened EnvelopeCaches
  import opened Whitespace

  type ReqId = nat

  /** `secret_tier_local` is in the label table but not among the audit codes, so
      with the shipped codes recording it raises. */
  const SHIPPED_CODES: set<string> := {
    "extraction_failed", "validation_blocked", "broker_unavailable",
    "user_cancelled", "open_tier_local", "policy_no_external"
  }
  const SECRET_CODE := "secret_tier_local"

  datatype Config = Config(ttl: int, pendingTtl: int, localCodes: set<string>)

  const SHIPPED := Config(300, 300, SHIPPED_CODES)

  datatype Outcome = Ready(id: EnvId) | Blocked

  /** One target of a `prepare`. */
  datatype Coro =
    | Working                       // up to the payload: nothing shared touched yet
    | PureAnswering                 // secret only: stored, discarded and popped at once
    | MixedAnswering(id: EnvId)     // secret and lower: stored and listed while answering
    | Returned(outcome: Outcome)
    | Raised
    | RaisedMixed(id: EnvId)        // raised before the discard and the pop

  datatype Prep = Prep(coros: seq<Coro>, calls: seq<EnvId>, createdAt: int)
  datatype Pending = Pending(calls: seq<EnvId>, createdAt: int)

  /** One selected envelope of a `send`. */
  datatype Task =
    | Waiting
    | Called
    | Answered(escalates: bool)
    | Drafted
    | Failed(reached: bool)

  datatype Sending = Sending(approver: string, asker: string, tasks: map<EnvId, Task>)

  datatype Model = AnswerModel | DraftModel
  datatype Kind = Request | Result
  datatype Event =
    | Took(id: EnvId)
    | Recorded(kind: Kind, recId: EnvId, hash: nat, model: Model, approver: string)
    | Invoked(env: Envelope, calling: Model)

  /** Where an envelope came from; kept for every envelope ever stored. */
  datatype Origin = Origin(entry: Entry, owner: ReqId) {
    function Env(): Envelope { entry.env }
  }

  type Origins = map<EnvId, Origin>

  datatype State = State(
    now: int,
    nextEnv: EnvId,
    nextReq: ReqId,
    cache: Items,
    preps: map<ReqId, Prep>,
    pending: map<ReqId, Pending>,
    sends: map<ReqId, Sending>,
    published: map<ReqId, seq<Coro>>,
    made: Origins,
    log: seq<Event>)

  const INIT := State(0, 0, 0, map[], map[], map[], map[], map[], map[], [])

  datatype Action =
    | Tick(dt: nat)
    | StartPrepare(targets: nat)
    | CoroFails(r: ReqId, t: nat)
    | PayloadDone(r: ReqId, t: nat, tier: Tier, hash: nat, hasBelow: bool, passed: bool)
    | ResumePure(r: ReqId, t: nat, recordable: bool)
    | ResumeMixed(r: ReqId, t: nat, recordable: bool)
    | Publish(r: ReqId)
    | Send(r: ReqId, wanted: set<EnvId>, approver: string, asker: string)
    | Dispatch(r: ReqId, id: EnvId, underLimit: bool, recordable: bool)
    | Reply(r: ReqId, id: EnvId, ok: bool, escalates: bool)
    | Draft(r: ReqId, id: EnvId, recordable: bool)
    | Cancel(r: ReqId, id: EnvId)

  predicate Blank(s: string) {
    forall c :: c in s ==> IsSpace(c)
  }

  /** `check_preconditions`. */
  predicate Permitted(env: Envelope, approver: string) {
    env.validation == Some(true) && !Blank(approver)
  }

  predicate Finished(c: Coro) {
    c.Returned? || c.Raised? || c.RaisedMixed?
  }

  predicate Active(s: State, r: ReqId, t: nat) {
    r in s.preps && t < |s.preps[r].coros|
  }

  /** What an action on a target leaves behind: the cache, the envelopes made so far,
      the target and the pending list of its request. */
  datatype Move = Move(cache: Items, made: Origins, nextEnv: EnvId, coro: Coro, calls: seq<EnvId>)

  function Advance(s: State, r: ReqId, t: nat, m: Move): State
    requires Active(s, r, t)
  {
    s.(cache := m.cache, made := m.made, nextEnv := m.nextEnv,
       preps := s.preps[r := s.preps[r].(coros := s.preps[r].coros[t := m.coro], calls := m.calls)])
  }

  function Stays(s: State, r: ReqId, co: Coro): Move
    requires r in s.preps
  {
    Move(s.cache, s.made, s.nextEnv, co, s.preps[r].calls)
  }

  // ---- prepare -----------------------------------------------------------

  function StepStart(c: Config, s: State, targets: nat): State {
    var kept := map r | r in s.pending && s.now - s.pending[r].createdAt <= c.pendingTtl :: s.pending[r];
    s.(pending := kept,
       preps := s.preps[s.nextReq := Prep(seq(targets, i => Working), [], s.now)],
       nextReq := s.nextReq + 1)
  }

  /** The payload is ready and, if it passed, stored and listed. Pure secret is
      discarded and popped in the same breath; mixed is left standing. */
  function PayloadMove(c: Config, s: State, r: ReqId, tier: Tier, hash: nat, hasBelow: bool, passed: bool): Move
    requires r in s.preps
  {
    if !passed then Stays(s, r, Raised)
    else
      var env := Envelope(s.nextEnv, tier, hash, Some(true));
      var calls := s.preps[r].calls + [env.id];
      var cache := Stored(s.cache, env, s.now, c.ttl);
      var made := s.made[env.id := Origin(Entry(env, s.now), r)];
      if tier != Secret then Move(cache, made, env.id + 1, Returned(Ready(env.id)), calls)
      else if hasBelow then Move(cache, made, env.id + 1, MixedAnswering(env.id), calls)
      else Move(cache - {env.id}, made, env.id + 1, PureAnswering, calls[..|calls| - 1])
  }

  /** `record_local` raises on a code that is not registered, and when the local store
      does; so does anything else the in-zone answer needs. */
  predicate RecordsLocally(c: Config, recordable: bool) {
    SECRET_CODE in c.localCodes && recordable
  }

  /** The pop takes whatever entry is last by now. */
  function MixedMove(c: Config, s: State, r: ReqId, id: EnvId, recordable: bool): Move
    requires r in s.preps
  {
    var calls := s.preps[r].calls;
    if !RecordsLocally(c, recordable) then Stays(s, r, RaisedMixed(id))
    else if calls == [] then Stays(s, r, Raised).(cache := s.cache - {id})
    else Stays(s, r, Returned(Blocked)).(cache := s.cache - {id}, calls := calls[..|calls| - 1])
  }

  /** `answer_in_zone` has returned, or has raised. */
  function PureMove(c: Config, s: State, r: ReqId, recordable: bool): Move
    requires r in s.preps
  {
    Stays(s, r, if RecordsLocally(c, recordable) then Returned(Blocked) else Raised)
  }

  /** Every target is done; failures become blocked calls with an in-zone answer. */
  function StepPublish(s: State, r: ReqId): State
    requires r in s.preps
  {
    s.(preps := s.preps - {r},
       pending := s.pending[r := Pending(s.preps[r].calls, s.preps[r].createdAt)],
       published := s.published[r := s.preps[r].coros])
  }

  /** What the caller is told about one target. */
  function Told(c: Coro): Outcome {
    if c.Returned? then c.outcome else Blocked
  }

  // ---- send --------------------------------------------------------------

  function StepSend(s: State, r: ReqId, wanted: set<EnvId>, approver: string, asker: string): State
    requires r in s.pending
  {
    var selected := set id | id in s.pending[r].calls && id in wanted;
    var popped := s.(pending := s.pending - {r});
    if selected == {} then popped
    else popped.(sends := s.sends[r := Sending(approver, asker, map id | id in selected :: Waiting)])
  }

  predicate HasTask(s: State, r: ReqId, id: EnvId) {
    r in s.sends && id in s.sends[r].tasks
  }

  function SetTask(s: State, r: ReqId, id: EnvId, task: Task): State
    requires HasTask(s, r, id)
  {
    s.(sends := s.sends[r := s.sends[r].(tasks := s.sends[r].tasks[id := task])])
  }

  /** What an action on a task leaves behind: the cache, the log and where the
      envelope now stands. */
  datatype Effect = Effect(cache: Items, log: seq<Event>, task: Task)

  function Settle(s: State, r: ReqId, id: EnvId, e: Effect): State
    requires HasTask(s, r, id)
  {
    SetTask(s.(cache := e.cache, log := e.log), r, id, e.task)
  }

  /** Take, daily limit, preconditions, audit record and the call itself. */
  function DispatchEffect(c: Config, s: State, r: ReqId, id: EnvId, underLimit: bool, recordable: bool): Effect
    requires HasTask(s, r, id)
  {
    var entry, left := Lookup(s.cache, id, s.now, c.ttl), Taken(s.cache, id, s.now, c.ttl);
    if entry.None? then Effect(left, s.log, Failed(false))
    else
      var env, approver := entry.value.env, s.sends[r].approver;
      if !underLimit || !Permitted(env, approver) || !recordable then
        Effect(left, s.log + [Took(id)], Failed(false))
      else
        Effect(left,
               s.log + [Took(id), Recorded(Request, env.id, env.hash, AnswerModel, approver), Invoked(env, AnswerModel)],
               Called)
  }

  function ReplyEffect(s: State, r: ReqId, id: EnvId, ok: bool, escalates: bool): Effect
    requires HasTask(s, r, id) && id in s.made
  {
    var env := s.made[id].Env();
    if !ok then Effect(s.cache - {id}, s.log, Failed(true))
    else
      Effect(s.cache - {id},
             s.log + [Recorded(Result, env.id, env.hash, AnswerModel, s.sends[r].approver)], Answered(escalates))
  }

  /** A draft reuses the envelope; a failure falls back to a draft made in the zone. */
  function DraftEffect(s: State, r: ReqId, id: EnvId, recordable: bool): Effect
    requires HasTask(s, r, id) && id in s.made
  {
    var env, asker := s.made[id].Env(), s.sends[r].asker;
    if !Permitted(env, asker) || !recordable then Effect(s.cache, s.log, Answered(false))
    else
      Effect(s.cache, s.log + [Recorded(Request, env.id, env.hash, DraftModel, asker), Invoked(env, DraftModel)],
             Drafted)
  }

  predicate AllSettled(tasks: map<EnvId, Task>) {
    forall id :: id in tasks ==> !tasks[id].Waiting? && !tasks[id].Called?
  }

  // ---- the step relation, as a function of the action --------------------

  predicate Enabled(s: State, a: Action) {
    match a
    case Tick(_) => true
    case StartPrepare(_) => true
    case CoroFails(r, t) => Active(s, r, t) && s.preps[r].coros[t] == Working
    case PayloadDone(r, t, _, _, _, _) => Active(s, r, t) && s.preps[r].coros[t] == Working
    case ResumePure(r, t, _) => Active(s, r, t) && s.preps[r].coros[t] == PureAnswering
    case ResumeMixed(r, t, _) => Active(s, r, t) && s.preps[r].coros[t].MixedAnswering?
    case Publish(r) => r in s.preps && forall t :: 0 <= t < |s.preps[r].coros| ==> Finished(s.preps[r].coros[t])
    case Send(r, _, _, _) => r in s.pending
    case Dispatch(r, id, _, _) => HasTask(s, r, id) && s.sends[r].tasks[id] == Waiting
    case Reply(r, id, _, _) => HasTask(s, r, id) && s.sends[r].tasks[id] == Called && id in s.made
    case Draft(r, id, _) =>
      HasTask(s, r, id) && s.sends[r].tasks[id] == Answered(true) && AllSettled(s.sends[r].tasks) && id in s.made
    case Cancel(r, id) => HasTask(s, r, id) && (s.sends[r].tasks[id] == Waiting || s.sends[r].tasks[id] == Called)
  }

  /** The actions of one envelope of a `send`. */
  predicate OnTask(a: Action) {
    a.Dispatch? || a.Reply? || a.Draft? || a.Cancel?
  }

  function TaskEffect(c: Config, s: State, a: Action): Effect
    requires Enabled(s, a) && OnTask(a)
  {
    match a
    case Dispatch(r, id, underLimit, recordable) => DispatchEffect(c, s, r, id, underLimit, recordable)
    case Reply(r, id, ok, escalates) => ReplyEffect(s, r, id, ok, escalates)
    case Draft(r, id, recordable) => DraftEffect(s, r, id, recordable)
    case Cancel(r, id) =>
      var reached := s.sends[r].tasks[id] == Called;
      Effect(if reached then s.cache - {id} else s.cache, s.log, Failed(reached))
  }

  /** The actions of one target of a `prepare`. */
  predicate OnCoro(a: Action) {
    a.CoroFails? || a.PayloadDone? || a.ResumePure? || a.ResumeMixed?
  }

  function CoroMove(c: Config, s: State, a: Action): Move
    requires Enabled(s, a) && OnCoro(a)
  {
    match a
    case CoroFails(r, t) => Stays(s, r, Raised)
    case PayloadDone(r, t, tier, hash, hasBelow, passed) => PayloadMove(c, s, r, tier, hash, hasBelow, passed)
    case ResumePure(r, t, recordable) => PureMove(c, s, r, recordable)
    case ResumeMixed(r, t, recordable) => MixedMove(c, s, r, s.preps[r].coros[t].id, recordable)
  }

  /** The clock and the actions of a whole request. */
  function StepWhole(c: Config, s: State, a: Action): State
    requires Enabled(s, a) && !OnTask(a) && !OnCoro(a)
  {
    match a
    case Tick(dt) => s.(now := s.now + dt)
    case StartPrepare(n) => StepStart(c, s, n)
    case Publish(r) => StepPublish(s, r)
    case Send(r, wanted, approver, asker) => StepSend(s, r, wanted, approver, asker)
  }

  function Step(c: Config, s: State, a: Action): State {
    if !Enabled(s, a) then s
    else if OnTask(a) then Settle(s, a.r, a.id, TaskEffect(c, s, a))
    else if OnCoro(a) then Advance(s, a.r, a.t, CoroMove(c, s, a))
    else StepWhole(c, s, a)
  }

  function Run(c: Config, s: State, actions: seq<Action>): State
    decreases |actions|
  {
    if actions == [] then s else Run(c, Step(c, s, actions[0]), actions[1..])
  }

  /** An envelope id the caller was given. */
  ghost predicate Offered(s: State, id: EnvId) {
    exists r, t :: r in s.published && 0 <= t < |s.published[r]| && s.published[r][t] == Returned(Ready(id))
  }
}
