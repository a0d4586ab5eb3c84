/** The pending list of a request, which its targets share and pop from. */
module ProtocolPending {
  import opened Schemas
  import opened Ordering
  import opened EnvelopeCaches
  import opened Protocol
  import opened ProtocolProofs
  import opened ProtocolTheorems

  /** The envelope a target is listed with. */
  function ListedId(co: Coro): Option<EnvId> {
    match co
    case Returned(Ready(id)) => Some(id)
    case MixedAnswering(id) => Some(id)
    case RaisedMixed(id) => Some(id)
    case _ => None
  }

  /** How many targets are listed with `id`, and how many are listed at all. */
  function Times(coros: seq<Coro>, id: EnvId): nat {
    if coros == [] then 0 else One(ListedId(coros[0]) == Some(id)) + Times(coros[1..], id)
  }

  function Number(coros: seq<Coro>): nat {
    if coros == [] then 0 else One(ListedId(coros[0]).Some?) + Number(coros[1..])
  }

  lemma {:induction false} TimesUpdated(coros: seq<Coro>, t: nat, co: Coro, id: EnvId)
    requires t < |coros|
    ensures Times(coros[t := co], id) + One(ListedId(coros[t]) == Some(id)) == Times(coros, id) + One(ListedId(co) == Some(id))
  {
    if t == 0 {
      assert coros[t := co][1..] == coros[1..];
    } else {
      assert coros[t := co][1..] == coros[1..][t - 1 := co];
      TimesUpdated(coros[1..], t - 1, co, id);
    }
  }

  lemma {:induction false} NumberUpdated(coros: seq<Coro>, t: nat, co: Coro)
    requires t < |coros|
    ensures Number(coros[t := co]) + One(ListedId(coros[t]).Some?) == Number(coros) + One(ListedId(co).Some?)
  {
    if t == 0 {
      assert coros[t := co][1..] == coros[1..];
    } else {
      assert coros[t := co][1..] == coros[1..][t - 1 := co];
      NumberUpdated(coros[1..], t - 1, co);
    }
  }

  lemma {:induction false} NoneListed(coros: seq<Coro>)
    requires forall t :: 0 <= t < |coros| ==> coros[t] == Working
    ensures Number(coros) == 0 && forall id :: Times(coros, id) == 0
  {
    if coros != [] { NoneListed(coros[1..]); }
  }

  lemma {:induction false} NumberIn(coros: seq<Coro>, t: nat)
    requires t < |coros| && ListedId(coros[t]).Some?
    ensures Number(coros) > 0
  {
    if t > 0 { NumberIn(coros[1..], t - 1); }
  }

  /** As many entries as listed targets. */
  ghost predicate Sized(calls: seq<EnvId>, coros: seq<Coro>) {
    |calls| == Number(coros)
  }

  /** Exactly the entries of the listed targets. */
  ghost predicate Exact(calls: seq<EnvId>, coros: seq<Coro>) {
    forall id :: multiset(calls)[id] == Times(coros, id)
  }

  lemma FrontTimes(calls: seq<EnvId>, id: EnvId)
    requires calls != []
    ensures multiset(calls)[id] == multiset(calls[..|calls| - 1])[id] + One(calls[|calls| - 1] == id)
  {
    assert calls == calls[..|calls| - 1] + [calls[|calls| - 1]];
  }

  /** A resumed mixed target pops; a new envelope is listed at the end; otherwise list
      and entry stay. */
  ghost predicate Listed(calls: seq<EnvId>, was: Coro, m: Move, pops: bool) {
    if pops then
      && was.MixedAnswering? && ListedId(m.coro) == None
      && (calls != [] ==> m.calls == calls[..|calls| - 1])
    else
      || (m.calls == calls && ListedId(m.coro) == ListedId(was))
      || (ListedId(was) == None && ListedId(m.coro).Some? && m.calls == calls + [ListedId(m.coro).value])
  }

  predicate Pops(c: Config, a: Action) {
    a.ResumeMixed? && RecordsLocally(c, a.recordable)
  }

  lemma PayloadListed(c: Config, s: State, r: ReqId, tier: Tier, hash: nat, hasBelow: bool, passed: bool)
    requires r in s.preps
    ensures Listed(s.preps[r].calls, Working, PayloadMove(c, s, r, tier, hash, hasBelow, passed), false)
  {
    var calls := s.preps[r].calls;
    assert (calls + [s.nextEnv])[..|calls|] == calls;
  }

  lemma MoveListed(c: Config, s: State, a: Action)
    requires Enabled(s, a) && OnCoro(a)
    ensures Listed(s.preps[a.r].calls, s.preps[a.r].coros[a.t], CoroMove(c, s, a), Pops(c, a))
  {
    match a
    case PayloadDone(r, t, tier, hash, hasBelow, passed) => PayloadListed(c, s, r, tier, hash, hasBelow, passed);
    case _ =>
  }

  /** Whatever the others do, the list never runs short: the pop never raises, and
      the number of entries is right even when the entry popped is another's. */
  lemma KeepsSized(calls: seq<EnvId>, coros: seq<Coro>, t: nat, m: Move, pops: bool)
    requires t < |coros| && Listed(calls, coros[t], m, pops) && Sized(calls, coros)
    ensures Sized(m.calls, coros[t := m.coro])
    ensures pops ==> calls != []
  {
    NumberUpdated(coros, t, m.coro);
  }

  /** The entries stay exact through every move but one: a pop keeps them exact if and
      only if the last entry is the target's own. */
  lemma KeepsExact(calls: seq<EnvId>, coros: seq<Coro>, t: nat, m: Move, pops: bool)
    requires t < |coros| && Listed(calls, coros[t], m, pops) && Exact(calls, coros)
    ensures pops ==> calls != []
    ensures Exact(m.calls, coros[t := m.coro]) <==> (pops ==> calls[|calls| - 1] == coros[t].id)
  {
    forall x: EnvId ensures
      Times(coros[t := m.coro], x) + One(ListedId(coros[t]) == Some(x)) == Times(coros, x) + One(ListedId(m.coro) == Some(x))
    {
      TimesUpdated(coros, t, m.coro, x);
    }
    if pops {
      assert multiset(calls)[coros[t].id] == Times(coros, coros[t].id);
      PopExact(calls, coros, coros[t].id, coros[t := m.coro]);
    }
  }

  lemma PopExact(calls: seq<EnvId>, coros: seq<Coro>, id: EnvId, after: seq<Coro>)
    requires calls != [] && Exact(calls, coros)
    requires forall x :: Times(after, x) + One(id == x) == Times(coros, x)
    ensures Exact(calls[..|calls| - 1], after) <==> calls[|calls| - 1] == id
  {
    var front, last := calls[..|calls| - 1], calls[|calls| - 1];
    FrontTimes(calls, last);
    assert multiset(front)[last] + 1 == Times(after, last) + One(id == last);
    if last == id {
      forall x ensures multiset(front)[x] == Times(after, x) {
        FrontTimes(calls, x);
        assert multiset(calls)[x] == Times(coros, x);
      }
    }
  }

  // ---- over a run --------------------------------------------------------

  predicate HasList(s: State, r: ReqId) {
    r in s.preps || r in s.pending
  }

  function ListOf(s: State, r: ReqId): seq<EnvId>
    requires HasList(s, r)
  {
    if r in s.preps then s.preps[r].calls else s.pending[r].calls
  }

  ghost predicate NothingListed(coros: seq<Coro>) {
    Number(coros) == 0 && forall id :: Times(coros, id) == 0
  }

  lemma ListWhole(c: Config, s: State, a: Action, r: ReqId)
    requires Books(s) && Enabled(s, a) && !OnTask(a) && !OnCoro(a) && HasList(StepWhole(c, s, a), r)
    ensures var s' := StepWhole(c, s, a);
      if a.StartPrepare? && r == s.nextReq then ListOf(s', r) == [] && NothingListed(CorosOf(s', r))
      else HasList(s, r) && ListOf(s', r) == ListOf(s, r)
  {
    if a.StartPrepare? && r == s.nextReq { NoneListed(CorosOf(StepWhole(c, s, a), r)); }
  }

  /** A list and its targets change together, and only for the target's own request. */
  lemma ListAfter(c: Config, s: State, a: Action, r: ReqId)
    requires Books(s) && HasList(Step(c, s, a), r)
    ensures var s' := Step(c, s, a);
      || (ListOf(s', r) == [] && NothingListed(CorosOf(s', r)))
      || (HasList(s, r) && ListOf(s', r) == ListOf(s, r) && CorosOf(s', r) == CorosOf(s, r))
      || (Enabled(s, a) && OnCoro(a) && a.r == r && ListOf(s', r) == CoroMove(c, s, a).calls
          && CorosOf(s', r) == s.preps[r].coros[a.t := CoroMove(c, s, a).coro])
  {
    if Enabled(s, a) {
      CorosAfter(c, s, a, r);
      if !OnTask(a) && !OnCoro(a) { ListWhole(c, s, a, r); }
    }
  }

  ghost predicate SizedAt(s: State, r: ReqId) {
    HasList(s, r) ==> Sized(ListOf(s, r), CorosOf(s, r))
  }

  lemma StepSized(c: Config, s: State, a: Action, r: ReqId)
    requires Books(s) && SizedAt(s, r)
    ensures SizedAt(Step(c, s, a), r)
  {
    if HasList(Step(c, s, a), r) {
      ListAfter(c, s, a, r);
      if Enabled(s, a) && OnCoro(a) && a.r == r {
        MoveListed(c, s, a);
        KeepsSized(s.preps[r].calls, s.preps[r].coros, a.t, CoroMove(c, s, a), Pops(c, a));
      }
    }
  }

  lemma {:induction false} RunSized(c: Config, s: State, actions: seq<Action>, r: ReqId)
    requires Inv(s) && SizedAt(s, r)
    ensures SizedAt(Run(c, s, actions), r)
    decreases |actions|
  {
    if actions != [] {
      StepInv(c, s, actions[0]);
      StepSized(c, s, actions[0], r);
      RunSized(c, Step(c, s, actions[0]), actions[1..], r);
    }
  }

  // ---- offered entries in front, secret ones behind ------------------------

  ghost predicate GivenOut(coros: seq<Coro>, id: EnvId) {
    Returned(Ready(id)) in coros
  }

  ghost predicate AnyRaisedMixed(coros: seq<Coro>) {
    exists co :: co in coros && co.RaisedMixed?
  }

  ghost predicate AnyMixed(coros: seq<Coro>) {
    exists co :: co in coros && co.MixedAnswering?
  }

  predicate IsReady(co: Coro) {
    co.Returned? && co.outcome.Ready?
  }

  /** How many targets are ready. */
  function Readies(coros: seq<Coro>): nat {
    if coros == [] then 0 else One(IsReady(coros[0])) + Readies(coros[1..])
  }

  lemma {:induction false} ReadiesUpdated(coros: seq<Coro>, t: nat, co: Coro)
    requires t < |coros|
    ensures Readies(coros[t := co]) + One(IsReady(coros[t])) == Readies(coros) + One(IsReady(co))
  {
    if t == 0 {
      assert coros[t := co][1..] == coros[1..];
    } else {
      assert coros[t := co][1..] == coros[1..][t - 1 := co];
      ReadiesUpdated(coros[1..], t - 1, co);
    }
  }

  /** Every ready target is listed; so is every other one that is in, or was raised out
      of, the mixed branch, and no further one. */
  lemma {:induction false} ReadiesListed(coros: seq<Coro>)
    ensures Readies(coros) <= Number(coros)
    ensures Readies(coros) == Number(coros) <==> !AnyMixed(coros) && !AnyRaisedMixed(coros)
  {
    if coros != [] {
      ReadiesListed(coros[1..]);
      assert coros == [coros[0]] + coros[1..];
      assert forall co :: co in coros <==> co == coros[0] || co in coros[1..];
    }
  }

  ghost predicate BelowSecret(made: Origins, id: EnvId) {
    id in made && made[id].Env().tier != Secret
  }

  /** In front, as many entries below secret as there are ready targets; behind, secret
      ones only. */
  ghost predicate Layered(made: Origins, calls: seq<EnvId>, coros: seq<Coro>) {
    forall i :: 0 <= i < |calls| ==> (BelowSecret(made, calls[i]) <==> i < Readies(coros))
  }

  /** A secret entry so far in front that no pop still to come can reach it. */
  ghost predicate Buried(made: Origins, calls: seq<EnvId>, coros: seq<Coro>) {
    exists i :: 0 <= i < |calls| && i < Readies(coros) && !BelowSecret(made, calls[i])
  }

  /** The three things a move can do to the list. */
  ghost predicate KeepsList(calls: seq<EnvId>, was: Coro, m: Move) {
    m.calls == calls && !IsReady(was) && !IsReady(m.coro)
  }

  ghost predicate Enters(calls: seq<EnvId>, was: Coro, m: Move, id: EnvId) {
    m.calls == calls + [id] && !IsReady(was) && (IsReady(m.coro) <==> BelowSecret(m.made, id))
  }

  ghost predicate PopsLast(calls: seq<EnvId>, was: Coro, m: Move) {
    was.MixedAnswering? && !IsReady(m.coro) && calls != [] && m.calls == calls[..|calls| - 1]
  }

  ghost predicate Changes(calls: seq<EnvId>, was: Coro, m: Move, id: EnvId) {
    KeepsList(calls, was, m) || Enters(calls, was, m, id) || PopsLast(calls, was, m)
  }

  lemma PayloadChanges(c: Config, s: State, r: ReqId, tier: Tier, hash: nat, hasBelow: bool, passed: bool)
    requires Books(s) && r in s.preps
    ensures var m := PayloadMove(c, s, r, tier, hash, hasBelow, passed);
      && Changes(s.preps[r].calls, Working, m, s.nextEnv)
      && (IsReady(m.coro) <==> passed && tier != Secret)
      && (IsReady(m.coro) ==> Enters(s.preps[r].calls, Working, m, s.nextEnv))
  {
    var calls := s.preps[r].calls;
    assert (calls + [s.nextEnv])[..|calls|] == calls;
  }

  lemma MoveChanges(c: Config, s: State, a: Action)
    requires Books(s) && Enabled(s, a) && OnCoro(a)
    ensures var calls, was, m := s.preps[a.r].calls, s.preps[a.r].coros[a.t], CoroMove(c, s, a);
      && Changes(calls, was, m, s.nextEnv) && (IsReady(m.coro) ==> Enters(calls, was, m, s.nextEnv))
      && (IsReady(m.coro) <==> a.PayloadDone? && a.passed && a.tier != Secret)
  {
    match a
    case PayloadDone(r, t, tier, hash, hasBelow, passed) => PayloadChanges(c, s, r, tier, hash, hasBelow, passed);
    case _ =>
  }

  lemma MixedIn(coros: seq<Coro>, t: nat)
    requires t < |coros| && coros[t].MixedAnswering?
    ensures AnyMixed(coros)
  {
    assert coros[t] in coros;
  }

  /** A target that becomes ready while none is in the mixed branch keeps the layers, and
      so does everything else. */
  lemma KeepsLayered(made: Origins, calls: seq<EnvId>, coros: seq<Coro>, t: nat, m: Move, id: EnvId)
    requires t < |coros| && Sized(calls, coros) && Changes(calls, coros[t], m, id)
    requires Grows(made, m.made) && (forall x :: x in calls ==> x in made)
    requires Layered(made, calls, coros) && !AnyRaisedMixed(coros)
    requires IsReady(m.coro) ==> !AnyMixed(coros)
    ensures Layered(m.made, m.calls, coros[t := m.coro])
  {
    ReadiesUpdated(coros, t, m.coro);
    ReadiesListed(coros);
    forall i | 0 <= i < |m.calls| ensures BelowSecret(m.made, m.calls[i]) <==> i < Readies(coros[t := m.coro]) {
      if i < |calls| { assert m.calls[i] == calls[i] && calls[i] in made; }
    }
  }

  /** A secret entry in front stays there. */
  lemma KeepsBuried(made: Origins, calls: seq<EnvId>, coros: seq<Coro>, t: nat, m: Move, id: EnvId)
    requires t < |coros| && Sized(calls, coros) && Changes(calls, coros[t], m, id)
    requires Grows(made, m.made) && (forall x :: x in calls ==> x in made)
    requires Buried(made, calls, coros)
    ensures Buried(m.made, m.calls, coros[t := m.coro])
  {
    ReadiesUpdated(coros, t, m.coro);
    ReadiesListed(coros);
    var i :| 0 <= i < |calls| && i < Readies(coros) && !BelowSecret(made, calls[i]);
    if PopsLast(calls, coros[t], m) { MixedIn(coros, t); }
    assert m.calls[i] == calls[i] && calls[i] in made;
  }

  /** A target that becomes ready while one is in the mixed branch buries an entry. */
  lemma Buries(made: Origins, calls: seq<EnvId>, coros: seq<Coro>, t: nat, m: Move, id: EnvId)
    requires t < |coros| && Sized(calls, coros) && Enters(calls, coros[t], m, id) && IsReady(m.coro)
    requires Grows(made, m.made) && (forall x :: x in calls ==> x in made)
    requires Layered(made, calls, coros) && AnyMixed(coros)
    ensures Buried(m.made, m.calls, coros[t := m.coro])
  {
    ReadiesUpdated(coros, t, m.coro);
    ReadiesListed(coros);
    var h := Readies(coros);
    assert m.calls[h] == calls[h] && calls[h] in made && !BelowSecret(made, calls[h]);
  }

  // ---- the same over a run -------------------------------------------------

  /** A target of `r` below secret lists its envelope while another is still answering in
      the mixed branch. */
  ghost predicate Crosses(s: State, a: Action, r: ReqId) {
    && Enabled(s, a) && a.PayloadDone? && a.r == r && a.passed && a.tier != Secret
    && AnyMixed(s.preps[r].coros)
  }

  ghost predicate Crossed(c: Config, s: State, actions: seq<Action>, r: ReqId)
    decreases |actions|
  {
    actions != [] && (Crosses(s, actions[0], r) || Crossed(c, Step(c, s, actions[0]), actions[1..], r))
  }

  ghost predicate LayeredOr(made: Origins, calls: seq<EnvId>, coros: seq<Coro>) {
    AnyRaisedMixed(coros) || Layered(made, calls, coros)
  }

  ghost predicate BuriedOr(made: Origins, calls: seq<EnvId>, coros: seq<Coro>) {
    AnyRaisedMixed(coros) || Buried(made, calls, coros)
  }

  ghost predicate LayeredAt(s: State, r: ReqId) {
    HasList(s, r) ==> LayeredOr(s.made, ListOf(s, r), CorosOf(s, r))
  }

  ghost predicate BuriedAt(s: State, r: ReqId) {
    r < s.nextReq && (HasList(s, r) ==> BuriedOr(s.made, ListOf(s, r), CorosOf(s, r)))
  }

  lemma ListOwned(s: State, r: ReqId)
    requires Books(s) && HasList(s, r)
    ensures forall id :: id in ListOf(s, r) ==> Owned(s.made, id, r)
  {
    if r in s.preps {
      assert CallsOwned(s.made, r, s.preps[r].calls);
    } else {
      assert CallsOwned(s.made, r, s.pending[r].calls);
    }
  }

  lemma RaisedStays(c: Config, s: State, a: Action, r: ReqId)
    requires Books(s) && AnyRaisedMixed(CorosOf(s, r))
    ensures AnyRaisedMixed(CorosOf(Step(c, s, a), r))
  {
    var co :| co in CorosOf(s, r) && co.RaisedMixed?;
    FinalStays(c, s, a, r, co);
  }

  lemma LayersGrow(made: Origins, made': Origins, calls: seq<EnvId>, coros: seq<Coro>)
    requires Grows(made, made') && forall x :: x in calls ==> x in made
    ensures Layered(made, calls, coros) ==> Layered(made', calls, coros)
    ensures Buried(made, calls, coros) ==> Buried(made', calls, coros)
  {
    forall x | x in calls ensures BelowSecret(made, x) <==> BelowSecret(made', x) { }
    if Buried(made, calls, coros) {
      var i :| 0 <= i < |calls| && i < Readies(coros) && !BelowSecret(made, calls[i]);
      assert !BelowSecret(made', calls[i]);
    }
  }

  /** A move of the request itself. */
  lemma OwnLayers(c: Config, s: State, a: Action)
    requires Books(s) && Enabled(s, a) && OnCoro(a) && SizedAt(s, a.r) && !AnyRaisedMixed(s.preps[a.r].coros)
    ensures var m, p := CoroMove(c, s, a), s.preps[a.r];
      && (Layered(s.made, p.calls, p.coros) && Crosses(s, a, a.r) ==> Buried(m.made, m.calls, p.coros[a.t := m.coro]))
      && (Layered(s.made, p.calls, p.coros) && !Crosses(s, a, a.r) ==> Layered(m.made, m.calls, p.coros[a.t := m.coro]))
      && (Buried(s.made, p.calls, p.coros) ==> Buried(m.made, m.calls, p.coros[a.t := m.coro]))
  {
    var m, p := CoroMove(c, s, a), s.preps[a.r];
    MoveChanges(c, s, a);
    CoroMoveOk(c, s, a);
    ListOwned(s, a.r);
    if Layered(s.made, p.calls, p.coros) {
      if Crosses(s, a, a.r) {
        Buries(s.made, p.calls, p.coros, a.t, m, s.nextEnv);
      } else {
        KeepsLayered(s.made, p.calls, p.coros, a.t, m, s.nextEnv);
      }
    }
    if Buried(s.made, p.calls, p.coros) { KeepsBuried(s.made, p.calls, p.coros, a.t, m, s.nextEnv); }
  }

  lemma OwnAfter(c: Config, s: State, a: Action)
    requires Books(s) && Enabled(s, a) && OnCoro(a)
    ensures var s', m := Step(c, s, a), CoroMove(c, s, a);
      && HasList(s', a.r) && ListOf(s', a.r) == m.calls && s'.made == m.made && s'.nextReq == s.nextReq
      && CorosOf(s', a.r) == s.preps[a.r].coros[a.t := m.coro]
  {
  }

  /** A move of another request, or no move at all. */
  lemma OtherLayers(c: Config, s: State, a: Action, r: ReqId)
    requires Books(s) && HasList(s, r) && HasList(Step(c, s, a), r) && !Crosses(s, a, r)
    requires ListOf(Step(c, s, a), r) == ListOf(s, r) && CorosOf(Step(c, s, a), r) == CorosOf(s, r)
    ensures LayeredAt(s, r) ==> LayeredAt(Step(c, s, a), r)
    ensures BuriedAt(s, r) ==> BuriedAt(Step(c, s, a), r)
  {
    StepGrows(c, s, a);
    ReqsGrow(c, s, a);
    ListOwned(s, r);
    LayersGrow(s.made, Step(c, s, a).made, ListOf(s, r), CorosOf(s, r));
  }

  lemma OwnStep(c: Config, s: State, a: Action)
    requires Books(s) && Enabled(s, a) && OnCoro(a) && SizedAt(s, a.r)
    ensures LayeredAt(s, a.r) && Crosses(s, a, a.r) ==> BuriedAt(Step(c, s, a), a.r)
    ensures LayeredAt(s, a.r) && !Crosses(s, a, a.r) ==> LayeredAt(Step(c, s, a), a.r)
    ensures BuriedAt(s, a.r) ==> BuriedAt(Step(c, s, a), a.r)
  {
    var p := s.preps[a.r];
    assert a.r < s.nextReq && ListOf(s, a.r) == p.calls && CorosOf(s, a.r) == p.coros;
    OwnAfter(c, s, a);
    if AnyRaisedMixed(p.coros) { RaisedStays(c, s, a, a.r); } else { OwnLayers(c, s, a); }
  }

  lemma StepLayers(c: Config, s: State, a: Action, r: ReqId)
    requires Books(s) && SizedAt(s, r)
    ensures LayeredAt(s, r) && Crosses(s, a, r) ==> BuriedAt(Step(c, s, a), r)
    ensures LayeredAt(s, r) && !Crosses(s, a, r) ==> LayeredAt(Step(c, s, a), r)
    ensures BuriedAt(s, r) ==> BuriedAt(Step(c, s, a), r)
  {
    ReqsGrow(c, s, a);
    if Enabled(s, a) && OnCoro(a) && a.r == r {
      OwnStep(c, s, a);
    } else if HasList(Step(c, s, a), r) {
      ListAfter(c, s, a, r);
      if HasList(s, r) { HadList(c, s, a, r); OtherLayers(c, s, a, r); } else { NewIsNew(c, s, a, r); }
    }
  }

  /** A request that had a list keeps it, unless a target of its own moves. */
  lemma HadList(c: Config, s: State, a: Action, r: ReqId)
    requires Books(s) && HasList(s, r) && HasList(Step(c, s, a), r) && !(Enabled(s, a) && OnCoro(a) && a.r == r)
    ensures ListOf(Step(c, s, a), r) == ListOf(s, r) && CorosOf(Step(c, s, a), r) == CorosOf(s, r)
  {
    if Enabled(s, a) {
      CorosAfter(c, s, a, r);
      if !OnTask(a) && !OnCoro(a) { ListWhole(c, s, a, r); }
    }
  }

  /** A request that gets a list is a new one. */
  lemma NewIsNew(c: Config, s: State, a: Action, r: ReqId)
    requires Books(s) && HasList(Step(c, s, a), r) && !HasList(s, r)
    ensures r == s.nextReq
  {
    if Enabled(s, a) && !OnTask(a) && !OnCoro(a) && !(a.StartPrepare? && r == s.nextReq) { ListWhole(c, s, a, r); }
  }

  lemma ReqsGrow(c: Config, s: State, a: Action)
    ensures s.nextReq <= Step(c, s, a).nextReq
  {
    if Enabled(s, a) && !OnTask(a) && !OnCoro(a) { ReqsGrowWhole(c, s, a); }
  }

  lemma ReqsGrowWhole(c: Config, s: State, a: Action)
    requires Enabled(s, a) && !OnTask(a) && !OnCoro(a)
    ensures s.nextReq <= StepWhole(c, s, a).nextReq
  {
  }

  lemma {:induction false} RunLayers(c: Config, s: State, actions: seq<Action>, r: ReqId)
    requires Inv(s) && SizedAt(s, r)
    ensures BuriedAt(s, r) ==> BuriedAt(Run(c, s, actions), r)
    ensures LayeredAt(s, r) && Crossed(c, s, actions, r) ==> BuriedAt(Run(c, s, actions), r)
    ensures LayeredAt(s, r) && !Crossed(c, s, actions, r) ==> LayeredAt(Run(c, s, actions), r)
    decreases |actions|
  {
    if actions != [] {
      StepInv(c, s, actions[0]);
      StepSized(c, s, actions[0], r);
      StepLayers(c, s, actions[0], r);
      RunLayers(c, Step(c, s, actions[0]), actions[1..], r);
    }
  }

  // ---- no entry twice --------------------------------------------------------

  ghost predicate DistinctAt(s: State, r: ReqId) {
    HasList(s, r) ==> Distinct(ListOf(s, r))
  }

  lemma StepDistinct(c: Config, s: State, a: Action, r: ReqId)
    requires Books(s) && DistinctAt(s, r)
    ensures DistinctAt(Step(c, s, a), r)
  {
    if HasList(Step(c, s, a), r) {
      ListAfter(c, s, a, r);
      if Enabled(s, a) && OnCoro(a) && a.r == r {
        MoveChanges(c, s, a);
        ListOwned(s, r);
        assert s.nextEnv !in s.made;
        MoveDistinct(s.preps[r].calls, s.preps[r].coros[a.t], CoroMove(c, s, a), s.nextEnv);
      }
    }
  }

  lemma MoveDistinct(calls: seq<EnvId>, was: Coro, m: Move, id: EnvId)
    requires Distinct(calls) && id !in calls && Changes(calls, was, m, id)
    ensures Distinct(m.calls)
  {
  }

  lemma {:induction false} RunDistinct(c: Config, s: State, actions: seq<Action>, r: ReqId)
    requires Inv(s) && DistinctAt(s, r)
    ensures DistinctAt(Run(c, s, actions), r)
    decreases |actions|
  {
    if actions != [] {
      StepInv(c, s, actions[0]);
      StepDistinct(c, s, actions[0], r);
      RunDistinct(c, Step(c, s, actions[0]), actions[1..], r);
    }
  }

  // ---- the published list ----------------------------------------------------

  /** The envelopes the caller was given. */
  function Given(coros: seq<Coro>): set<EnvId> {
    if coros == [] then {} else (if IsReady(coros[0]) then {coros[0].outcome.id} else {}) + Given(coros[1..])
  }

  lemma {:induction false} GivenAre(coros: seq<Coro>)
    ensures |Given(coros)| <= Readies(coros)
    ensures forall id :: id in Given(coros) <==> GivenOut(coros, id)
  {
    if coros != [] {
      GivenAre(coros[1..]);
      assert coros == [coros[0]] + coros[1..];
      if IsReady(coros[0]) { assert coros[0] == Returned(Ready(coros[0].outcome.id)); }
    }
  }

  ghost predicate ExactlyGiven(calls: seq<EnvId>, coros: seq<Coro>) {
    forall id :: id in calls <==> GivenOut(coros, id)
  }

  /** Too long a list holds something else. */
  lemma TooManyEntries(calls: seq<EnvId>, coros: seq<Coro>)
    requires Distinct(calls) && Sized(calls, coros) && (AnyMixed(coros) || AnyRaisedMixed(coros))
    ensures !ExactlyGiven(calls, coros)
  {
    DistinctSize(calls);
    GivenAre(coros);
    ReadiesListed(coros);
    if ExactlyGiven(calls, coros) { SameIds(calls, coros); }
  }

  lemma SameIds(calls: seq<EnvId>, coros: seq<Coro>)
    requires ExactlyGiven(calls, coros)
    ensures Entries(calls) == Given(coros)
  {
    GivenAre(coros);
  }

  /** A list of given-out envelopes, one for each ready target, is exact. */
  lemma AllGiven(calls: seq<EnvId>, coros: seq<Coro>)
    requires Distinct(calls) && |calls| == Readies(coros) && forall id :: id in calls ==> GivenOut(coros, id)
    ensures ExactlyGiven(calls, coros)
  {
    DistinctSize(calls);
    GivenAre(coros);
    SmallerSet(Entries(calls), Given(coros));
    forall id ensures id in calls <==> GivenOut(coros, id) { assert id in calls <==> id in Entries(calls); }
  }

  lemma SecretNotGiven(s: State, r: ReqId, id: EnvId)
    requires Books(s) && !BelowSecret(s.made, id)
    ensures !GivenOut(CorosOf(s, r), id)
  {
    var coros := CorosOf(s, r);
    assert CorosOk(s.made, r, coros);
    forall k | 0 <= k < |coros| ensures coros[k] != Returned(Ready(id)) { assert CoroOk(s.made, r, coros[k]); }
  }

  lemma LayeredIsGiven(s: State, r: ReqId)
    requires Inv(s) && r in s.pending && DistinctAt(s, r) && SizedAt(s, r)
    requires Layered(s.made, s.pending[r].calls, s.published[r]) && !AnyRaisedMixed(s.published[r])
    ensures ExactlyGiven(s.pending[r].calls, s.published[r])
  {
    var calls, coros := s.pending[r].calls, s.published[r];
    assert AllFinished(coros);
    assert !AnyMixed(coros);
    ReadiesListed(coros);
    ListOwned(s, r);
    forall id | id in calls ensures GivenOut(coros, id) {
      var i :| 0 <= i < |calls| && calls[i] == id;
      assert BelowSecret(s.made, calls[i]) && HeldReady(s, id) && Owned(s.made, id, r);
    }
    AllGiven(calls, coros);
  }

  /** Under every interleaving of any number of requests, and whatever the codes, the
      pending list of a prepared request names nothing twice; and it names exactly the
      envelopes the caller was given if and only if no target raised in the mixed branch
      and none below secret listed its envelope while another was answering there. */
  lemma PendingExactIff(c: Config, actions: seq<Action>, r: ReqId)
    requires r in Run(c, INIT, actions).pending
    ensures var s := Run(c, INIT, actions);
      && r in s.published && Distinct(s.pending[r].calls)
      && (ExactlyGiven(s.pending[r].calls, s.published[r])
          <==> !AnyRaisedMixed(s.published[r]) && !Crossed(c, INIT, actions, r))
  {
    InitInv();
    RunInv(c, INIT, actions);
    RunSized(c, INIT, actions, r);
    RunDistinct(c, INIT, actions, r);
    RunLayers(c, INIT, actions, r);
    var s := Run(c, INIT, actions);
    var calls, coros := s.pending[r].calls, s.published[r];
    assert CorosOf(s, r) == coros && ListOf(s, r) == calls;
    if AnyRaisedMixed(coros) {
      TooManyEntries(calls, coros);
    } else if Crossed(c, INIT, actions, r) {
      var i :| 0 <= i < |calls| && i < Readies(coros) && !BelowSecret(s.made, calls[i]);
      SecretNotGiven(s, r, calls[i]);
    } else {
      LayeredIsGiven(s, r);
    }
  }

  /** A target of `r` enters the mixed branch. */
  predicate EntersMixed(a: Action, r: ReqId) {
    a.PayloadDone? && a.r == r && a.tier == Secret && a.hasBelow && a.passed
  }

  ghost predicate NoMixedAt(s: State, r: ReqId) {
    !AnyMixed(CorosOf(s, r)) && !AnyRaisedMixed(CorosOf(s, r))
  }

  lemma MoveNotMixed(c: Config, s: State, a: Action)
    requires Enabled(s, a) && OnCoro(a) && !EntersMixed(a, a.r)
    ensures var co := CoroMove(c, s, a).coro;
      co.MixedAnswering? || co.RaisedMixed? ==> s.preps[a.r].coros[a.t].MixedAnswering?
  {
  }

  lemma NoneMixedUpdated(coros: seq<Coro>, t: nat, co: Coro)
    requires t < |coros| && !AnyMixed(coros) && !AnyRaisedMixed(coros)
    requires co.MixedAnswering? || co.RaisedMixed? ==> coros[t].MixedAnswering?
    ensures !AnyMixed(coros[t := co]) && !AnyRaisedMixed(coros[t := co])
  {
    if coros[t].MixedAnswering? { MixedIn(coros, t); }
    forall x | x in coros[t := co] ensures x == co || x in coros { }
  }

  lemma StepNoMixed(c: Config, s: State, a: Action, r: ReqId)
    requires Books(s) && NoMixedAt(s, r) && !EntersMixed(a, r)
    ensures NoMixedAt(Step(c, s, a), r) && !Crosses(s, a, r)
  {
    if Enabled(s, a) {
      CorosAfter(c, s, a, r);
      if OnCoro(a) && a.r == r {
        MoveNotMixed(c, s, a);
        NoneMixedUpdated(CorosOf(s, r), a.t, CoroMove(c, s, a).coro);
      } else if a.StartPrepare? && r == s.nextReq {
        assert CorosOf(Step(c, s, a), r) == seq(a.targets, i => Working);
      }
    }
  }

  lemma {:induction false} NeverMixed(c: Config, s: State, actions: seq<Action>, r: ReqId)
    requires Inv(s) && NoMixedAt(s, r) && forall i :: 0 <= i < |actions| ==> !EntersMixed(actions[i], r)
    ensures NoMixedAt(Run(c, s, actions), r) && !Crossed(c, s, actions, r)
    decreases |actions|
  {
    if actions != [] {
      StepInv(c, s, actions[0]);
      StepNoMixed(c, s, actions[0], r);
      NeverMixed(c, Step(c, s, actions[0]), actions[1..], r);
    }
  }

  /** So without a mixed target the list is exact in every run. */
  lemma ExactWithoutMixed(c: Config, actions: seq<Action>, r: ReqId)
    requires r in Run(c, INIT, actions).pending && forall i :: 0 <= i < |actions| ==> !EntersMixed(actions[i], r)
    ensures var s := Run(c, INIT, actions); r in s.published && ExactlyGiven(s.pending[r].calls, s.published[r])
  {
    InitInv();
    RunInv(c, INIT, actions);
    NeverMixed(c, INIT, actions, r);
    PendingExactIff(c, actions, r);
  }

  /** Whatever is popped, the list of a prepared request has as many entries as the
      request has listed targets, and while a mixed target answers it is not empty. */
  lemma ListNeverShort(c: Config, actions: seq<Action>, r: ReqId)
    ensures var s := Run(c, INIT, actions);
      && (r in s.pending ==> r in s.published && |s.pending[r].calls| == Number(s.published[r]))
      && (forall t: nat :: Active(s, r, t) && s.preps[r].coros[t].MixedAnswering? ==> s.preps[r].calls != [])
  {
    InitInv();
    RunInv(c, INIT, actions);
    RunSized(c, INIT, actions, r);
    var s := Run(c, INIT, actions);
    forall t: nat | Active(s, r, t) && s.preps[r].coros[t].MixedAnswering? ensures s.preps[r].calls != [] {
      NumberIn(s.preps[r].coros, t);
    }
  }
}
