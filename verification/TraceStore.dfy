/** src/mesh/trace.py, `TraceStore`: a bounded store with a time limit. Python keeps a
    dict in the order of insertion, and the eviction takes the first of the oldest. */
module TraceStores {
  import opened Schemas
  import opened Ordering

  datatype Item = Item(id: string, at: int, trace: nat)

  ghost predicate DistinctIds(items: seq<Item>) {
    forall i, j :: 0 <= i < j < |items| ==> items[i].id != items[j].id
  }

  function Live(items: seq<Item>, now: int, ttl: int): seq<Item> {
    if items == [] then []
    else Live(items[..|items| - 1], now, ttl)
         + if now - items[|items| - 1].at > ttl then [] else [items[|items| - 1]]
  }

  function Drop(items: seq<Item>, i: nat): seq<Item>
    requires i < |items|
  {
    items[..i] + items[i + 1..]
  }

  /** The first of the oldest. */
  predicate IsOldest(items: seq<Item>, i: nat) {
    && i < |items|
    && (forall j :: 0 <= j < i ==> items[i].at < items[j].at)
    && (forall j :: i <= j < |items| ==> items[i].at <= items[j].at)
  }

  /** A value under a known id takes the old one's place, another goes to the end. */
  function Entered(items: seq<Item>, x: Item): seq<Item> {
    if items == [] then [x]
    else if items[0].id == x.id then [x] + items[1..]
    else [items[0]] + Entered(items[1..], x)
  }

  /** What `put` leaves: swept, one evicted if full - even for a known id - and entered. */
  ghost predicate IsAfterPut(items: seq<Item>, after: seq<Item>, x: Item, ttl: int, max: nat) {
    var live := Live(items, x.at, ttl);
    if |live| < max then after == Entered(live, x)
    else exists i: nat :: IsOldest(live, i) && after == Entered(Drop(live, i), x)
  }

  function Find(items: seq<Item>, id: string): Option<nat> {
    if items == [] then None
    else if items[0].id == id then Some(items[0].trace)
    else Find(items[1..], id)
  }

  // ---- sweeping and entering ---------------------------------------------

  lemma {:induction false} LiveAre(items: seq<Item>, now: int, ttl: int)
    ensures forall x :: x in Live(items, now, ttl) <==> x in items && now - x.at <= ttl
    ensures |Live(items, now, ttl)| <= |items|
  {
    if items != [] {
      var front, last := items[..|items| - 1], items[|items| - 1];
      LiveAre(front, now, ttl);
      assert items == front + [last];
    }
  }

  lemma {:induction false} LiveDistinct(items: seq<Item>, now: int, ttl: int)
    requires DistinctIds(items)
    ensures DistinctIds(Live(items, now, ttl))
  {
    if items != [] {
      var front, last := items[..|items| - 1], items[|items| - 1];
      LiveDistinct(front, now, ttl);
      LiveAre(front, now, ttl);
      forall x | x in front ensures x.id != last.id { }
    }
  }

  lemma {:induction false} EnteredAre(items: seq<Item>, x: Item)
    requires DistinctIds(items)
    ensures DistinctIds(Entered(items, x))
    ensures forall y :: y in Entered(items, x) <==> y == x || (y in items && y.id != x.id)
    ensures |Entered(items, x)| <= |items| + 1
  {
    if items != [] {
      assert items == [items[0]] + items[1..];
      if items[0].id == x.id {
        forall y | y in items[1..] ensures y.id != x.id { }
      } else {
        EnteredAre(items[1..], x);
        var rest := Entered(items[1..], x);
        forall y | y in rest ensures y.id != items[0].id { }
      }
    }
  }

  lemma DropAre(items: seq<Item>, i: nat)
    requires DistinctIds(items) && i < |items|
    ensures DistinctIds(Drop(items, i))
    ensures forall y :: y in Drop(items, i) <==> y in items && y != items[i]
  {
    var rest := Drop(items, i);
    forall y | y in items && y != items[i] ensures y in rest {
      var j :| 0 <= j < |items| && items[j] == y;
      assert y == rest[if j < i then j else j - 1];
    }
  }

  lemma {:induction false} FindIs(items: seq<Item>, id: string)
    requires DistinctIds(items)
    ensures match Find(items, id)
      case None => forall x :: x in items ==> x.id != id
      case Some(t) => exists x :: x in items && x.id == id && x.trace == t
  {
    if items != [] && items[0].id != id { FindIs(items[1..], id); }
  }

  // ---- the class ---------------------------------------------------------

  class TraceStore {
    var items: seq<Item>
    const ttl: int
    const max: nat

    ghost predicate Valid() reads this {
      DistinctIds(items) && 0 < max && |items| <= max
    }

    constructor (ttl: int, max: nat)
      requires max >= 1
      ensures Valid() && items == [] && this.ttl == ttl && this.max == max
    {
      items := [];
      this.ttl := ttl;
      this.max := max;
    }

    method Sweep(now: int) returns (count: nat)
      requires Valid()
      modifies this
      ensures Valid() && items == Live(old(items), now, ttl) && count == |old(items)| - |items|
    {
      var kept: seq<Item> := [];
      count := 0;
      for i := 0 to |items|
        invariant kept == Live(items[..i], now, ttl) && count == i - |kept|
        invariant items == old(items)
      {
        assert items[..i + 1][..i] == items[..i];
        if now - items[i].at > ttl { count := count + 1; } else { kept := kept + [items[i]]; }
      }
      assert items[..|items|] == items;
      LiveAre(items, now, ttl);
      LiveDistinct(items, now, ttl);
      items := kept;
    }

    /** `min` over the dict. */
    method Oldest() returns (k: nat)
      requires items != []
      ensures IsOldest(items, k)
    {
      k := 0;
      for i := 1 to |items|
        invariant IsOldest(items[..i], k)
      {
        if items[i].at < items[k].at { k := i; }
      }
      assert items[..|items|] == items;
    }

    method Put(now: int, id: string, trace: nat)
      requires Valid()
      modifies this
      ensures Valid() && IsAfterPut(old(items), items, Item(id, now, trace), ttl, max)
    {
      var _ := Sweep(now);
      var x := Item(id, now, trace);
      if |items| >= max {
        var k := Oldest();
        DropAre(items, k);
        items := Drop(items, k);
      }
      EnteredAre(items, x);
      items := Entered(items, x);
    }

    method Get(now: int, id: string) returns (hit: Option<nat>)
      requires Valid()
      modifies this
      ensures Valid() && items == Live(old(items), now, ttl) && hit == Find(items, id)
    {
      var _ := Sweep(now);
      hit := Find(items, id);
    }
  }

  // ---- whole histories ---------------------------------------------------

  datatype Op = Put(now: int, id: string, trace: nat) | Get(now: int)

  /** The states a history can lead through, one per operation. */
  ghost predicate IsRun(ops: seq<Op>, states: seq<seq<Item>>, ttl: int, max: nat) {
    && |states| == |ops| + 1 && states[0] == []
    && forall i :: 0 <= i < |ops| ==> StepAt(ops, states, ttl, max, i)
  }

  ghost predicate StepAt(ops: seq<Op>, states: seq<seq<Item>>, ttl: int, max: nat, i: nat)
    requires i < |ops| < |states|
  {
    IsStep(states[i], ops[i], states[i + 1], ttl, max)
  }

  lemma FrontIsRun(ops: seq<Op>, states: seq<seq<Item>>, ttl: int, max: nat)
    requires ops != [] && IsRun(ops, states, ttl, max)
    ensures IsRun(ops[..|ops| - 1], states[..|ops|], ttl, max)
    ensures IsStep(states[|ops| - 1], ops[|ops| - 1], states[|ops|], ttl, max)
  {
    var front, before := ops[..|ops| - 1], states[..|ops|];
    forall i | 0 <= i < |front| ensures StepAt(front, before, ttl, max, i) {
      assert StepAt(ops, states, ttl, max, i);
    }
    assert StepAt(ops, states, ttl, max, |ops| - 1);
  }

  ghost predicate IsStep(items: seq<Item>, op: Op, after: seq<Item>, ttl: int, max: nat) {
    match op
    case Put(now, id, trace) => IsAfterPut(items, after, Item(id, now, trace), ttl, max)
    case Get(now) => after == Live(items, now, ttl)
  }

  function LastPut(ops: seq<Op>, id: string): Option<Item> {
    if ops == [] then None
    else
      var op := ops[|ops| - 1];
      if op.Put? && op.id == id then Some(Item(id, op.now, op.trace)) else LastPut(ops[..|ops| - 1], id)
  }

  /** Every entry is the last thing put under its id. */
  ghost predicate Current(items: seq<Item>, ops: seq<Op>) {
    forall x :: x in items ==> LastPut(ops, x.id) == Some(x)
  }

  ghost predicate Sound(items: seq<Item>, ops: seq<Op>, max: nat) {
    DistinctIds(items) && |items| <= max && Current(items, ops)
  }

  lemma AfterPutAre(items: seq<Item>, after: seq<Item>, x: Item, ttl: int, max: nat)
    requires DistinctIds(items) && |items| <= max && max >= 1 && IsAfterPut(items, after, x, ttl, max)
    ensures DistinctIds(after) && |after| <= max && x in after
    ensures forall y :: y in after ==> y == x || (y in items && y.id != x.id)
  {
    var live := Live(items, x.at, ttl);
    LiveAre(items, x.at, ttl);
    LiveDistinct(items, x.at, ttl);
    if |live| < max {
      EnteredAre(live, x);
    } else {
      var i: nat :| IsOldest(live, i) && after == Entered(Drop(live, i), x);
      DropAre(live, i);
      EnteredAre(Drop(live, i), x);
    }
  }

  lemma StepSound(items: seq<Item>, ops: seq<Op>, op: Op, after: seq<Item>, ttl: int, max: nat)
    requires max >= 1 && Sound(items, ops, max) && IsStep(items, op, after, ttl, max)
    ensures Sound(after, ops + [op], max)
  {
    assert (ops + [op])[..|ops|] == ops;
    LiveAre(items, op.now, ttl);
    LiveDistinct(items, op.now, ttl);
    if op.Put? { AfterPutAre(items, after, Item(op.id, op.now, op.trace), ttl, max); }
  }

  /** In every history the store holds at most `max` traces, and each is the last one
      put under its id. */
  lemma {:induction false} RunSound(ops: seq<Op>, states: seq<seq<Item>>, ttl: int, max: nat)
    requires max >= 1 && IsRun(ops, states, ttl, max)
    ensures Sound(states[|ops|], ops, max)
    decreases |ops|
  {
    if ops != [] {
      var n := |ops| - 1;
      FrontIsRun(ops, states, ttl, max);
      RunSound(ops[..n], states[..n + 1], ttl, max);
      StepSound(states[n], ops[..n], ops[n], states[n + 1], ttl, max);
      assert ops[..n] + [ops[n]] == ops;
    }
  }

  /** Hence `get` answers with the last trace put under the id, not older than the time
      limit, or with nothing. */
  lemma GetIsLastPut(ops: seq<Op>, states: seq<seq<Item>>, ttl: int, max: nat, now: int, id: string)
    requires max >= 1 && IsRun(ops, states, ttl, max)
    ensures match Find(Live(states[|ops|], now, ttl), id)
      case None => true
      case Some(t) => LastPut(ops, id).Some? && LastPut(ops, id).value.trace == t && now - LastPut(ops, id).value.at <= ttl
  {
    RunSound(ops, states, ttl, max);
    LiveAre(states[|ops|], now, ttl);
    LiveDistinct(states[|ops|], now, ttl);
    FindIs(Live(states[|ops|], now, ttl), id);
  }

  // ---- survival ----------------------------------------------------------

  function Puts(ops: seq<Op>): nat {
    if ops == [] then 0 else Puts(ops[..|ops| - 1]) + if ops[|ops| - 1].Put? then 1 else 0
  }

  /** Entries newer than `t`. */
  function Newer(items: seq<Item>, t: int): set<Item> {
    set x | x in items && x.at > t
  }

  ghost predicate ClockStrict(ops: seq<Op>) {
    forall i, j :: 0 <= i < j < |ops| ==> ops[i].now <= ops[j].now && (ops[i].Put? && ops[j].Put? ==> ops[i].now < ops[j].now)
  }

  /** The entry is there, alone in its second, with at most `n` newer ones. */
  ghost predicate Kept(items: seq<Item>, x: Item, n: nat) {
    x in items && |Newer(items, x.at)| <= n && forall y :: y in items && y.at == x.at ==> y == x
  }

  lemma OthersNewer(items: seq<Item>, x: Item, i: nat)
    requires DistinctIds(items) && IsOldest(items, i) && items[i] == x
    requires forall y :: y in items && y.at == x.at ==> y == x
    ensures |items| <= |Newer(items, x.at)| + 1
  {
    assert Distinct(items);
    DistinctSize(items);
    assert Entries(items) == Newer(items, x.at) + {x} by {
      forall y | y in items ensures y.at > x.at || y == x { }
    }
  }

  /** What can be evicted while fewer than `max - 1` are newer. */
  lemma NotEvicted(live: seq<Item>, i: nat, x: Item, max: nat, n: nat)
    requires DistinctIds(live) && IsOldest(live, i) && |live| >= max && Kept(live, x, n) && n + 1 < max
    ensures live[i] != x
  {
    if live[i] == x { OthersNewer(live, x, i); }
  }

  lemma EnteredKeeps(rest: seq<Item>, y: Item, x: Item, n: nat)
    requires DistinctIds(rest) && Kept(rest, x, n) && y.id != x.id && x.at < y.at
    ensures Kept(Entered(rest, y), x, n + 1)
  {
    EnteredAre(rest, y);
    SmallerSet(Newer(Entered(rest, y), x.at), Newer(rest, x.at) + {y});
  }

  lemma DroppedKeeps(live: seq<Item>, i: nat, x: Item, n: nat)
    requires DistinctIds(live) && i < |live| && live[i] != x && Kept(live, x, n)
    ensures DistinctIds(Drop(live, i)) && Kept(Drop(live, i), x, n)
  {
    DropAre(live, i);
    SmallerSet(Newer(Drop(live, i), x.at), Newer(live, x.at));
  }

  /** A put under another id takes one place at most, and not this one's while fewer
      than `max - 1` are newer. */
  lemma PutKeeps(items: seq<Item>, after: seq<Item>, y: Item, x: Item, ttl: int, max: nat, n: nat)
    requires DistinctIds(items) && |items| <= max && IsAfterPut(items, after, y, ttl, max)
    requires Kept(items, x, n) && n + 1 < max && y.id != x.id && x.at < y.at <= x.at + ttl
    ensures Kept(after, x, n + 1)
  {
    var live := Live(items, y.at, ttl);
    GetKeeps(items, y.at, x, ttl, n);
    LiveDistinct(items, y.at, ttl);
    if |live| < max {
      EnteredKeeps(live, y, x, n);
    } else {
      var i: nat :| IsOldest(live, i) && after == Entered(Drop(live, i), y);
      NotEvicted(live, i, x, max, n);
      DroppedKeeps(live, i, x, n);
      EnteredKeeps(Drop(live, i), y, x, n);
    }
  }

  lemma GetKeeps(items: seq<Item>, now: int, x: Item, ttl: int, n: nat)
    requires Kept(items, x, n) && now <= x.at + ttl
    ensures Kept(Live(items, now, ttl), x, n)
  {
    LiveAre(items, now, ttl);
    SmallerSet(Newer(Live(items, now, ttl), x.at), Newer(items, x.at));
  }

  /** `ops[k]` put `x`; what follows leaves it alone. */
  ghost predicate Undisturbed(ops: seq<Op>, k: nat, x: Item, ttl: int) {
    && k < |ops| && ops[k] == Put(x.at, x.id, x.trace)
    && forall j :: k < j < |ops| ==>
         && ops[j].now <= x.at + ttl
         && (ops[j].Put? ==> ops[j].id != x.id && x.at < ops[j].now)
  }

  lemma JustPut(items: seq<Item>, after: seq<Item>, x: Item, ttl: int, max: nat)
    requires max >= 1 && DistinctIds(items) && |items| <= max && IsAfterPut(items, after, x, ttl, max)
    requires forall y :: y in items ==> y.at < x.at
    ensures Kept(after, x, 0)
  {
    AfterPutAre(items, after, x, ttl, max);
    assert Newer(after, x.at) == {};
  }

  lemma {:induction false} LastPutBefore(ops: seq<Op>, id: string)
    requires LastPut(ops, id).Some?
    ensures exists i :: 0 <= i < |ops| && ops[i].Put? && ops[i].now == LastPut(ops, id).value.at
  {
    if !(ops[|ops| - 1].Put? && ops[|ops| - 1].id == id) { LastPutBefore(ops[..|ops| - 1], id); }
  }

  lemma AllOlder(ops: seq<Op>, items: seq<Item>, t: int)
    requires ops != [] && ops[|ops| - 1].Put? && ops[|ops| - 1].now == t && ClockStrict(ops)
    requires Current(items, ops[..|ops| - 1])
    ensures forall y :: y in items ==> y.at < t
  {
    var front := ops[..|ops| - 1];
    forall y | y in items ensures y.at < t {
      LastPutBefore(front, y.id);
      var i :| 0 <= i < |front| && front[i].Put? && front[i].now == y.at;
      assert ops[i] == front[i];
    }
  }

  lemma StepKeeps(items: seq<Item>, op: Op, after: seq<Item>, x: Item, ttl: int, max: nat, n: nat)
    requires DistinctIds(items) && |items| <= max && IsStep(items, op, after, ttl, max) && Kept(items, x, n)
    requires op.now <= x.at + ttl && (op.Put? ==> op.id != x.id && x.at < op.now && n + 1 < max)
    ensures Kept(after, x, n + if op.Put? then 1 else 0)
  {
    if op.Put? {
      PutKeeps(items, after, Item(op.id, op.now, op.trace), x, ttl, max, n);
    } else {
      GetKeeps(items, op.now, x, ttl, n);
    }
  }

  lemma FrontRun(ops: seq<Op>, states: seq<seq<Item>>, ttl: int, max: nat)
    requires max >= 1 && ops != [] && IsRun(ops, states, ttl, max) && ClockStrict(ops)
    ensures IsRun(ops[..|ops| - 1], states[..|ops|], ttl, max) && ClockStrict(ops[..|ops| - 1])
    ensures Sound(states[|ops| - 1], ops[..|ops| - 1], max)
    ensures IsStep(states[|ops| - 1], ops[|ops| - 1], states[|ops|], ttl, max)
  {
    FrontIsRun(ops, states, ttl, max);
    RunSound(ops[..|ops| - 1], states[..|ops|], ttl, max);
  }

  lemma FrontUndisturbed(ops: seq<Op>, k: nat, x: Item, ttl: int)
    requires Undisturbed(ops, k, x, ttl) && k < |ops| - 1
    ensures Undisturbed(ops[..|ops| - 1], k, x, ttl)
    ensures var op := ops[|ops| - 1]; op.now <= x.at + ttl && (op.Put? ==> op.id != x.id && x.at < op.now)
    ensures Puts(ops[k + 1..]) == Puts(ops[..|ops| - 1][k + 1..]) + if ops[|ops| - 1].Put? then 1 else 0
  {
    var later, front := ops[k + 1..], ops[..|ops| - 1];
    assert later[..|later| - 1] == front[k + 1..] && later[|later| - 1] == ops[|ops| - 1];
  }

  lemma AtPut(ops: seq<Op>, states: seq<seq<Item>>, ttl: int, max: nat, x: Item)
    requires max >= 1 && ops != [] && IsRun(ops, states, ttl, max) && ClockStrict(ops)
    requires ops[|ops| - 1] == Put(x.at, x.id, x.trace)
    ensures Kept(states[|ops|], x, 0)
  {
    FrontRun(ops, states, ttl, max);
    AllOlder(ops, states[|ops| - 1], x.at);
    JustPut(states[|ops| - 1], states[|ops|], x, ttl, max);
  }

  lemma {:induction false} StaysKept(ops: seq<Op>, states: seq<seq<Item>>, ttl: int, max: nat, k: nat, x: Item)
    requires max >= 1 && IsRun(ops, states, ttl, max) && ClockStrict(ops) && Undisturbed(ops, k, x, ttl)
    requires Puts(ops[k + 1..]) <= max - 1
    ensures Kept(states[|ops|], x, Puts(ops[k + 1..]))
    decreases |ops|
  {
    if k == |ops| - 1 {
      AtPut(ops, states, ttl, max, x);
      assert ops[k + 1..] == [];
    } else {
      var n, front, before := |ops| - 1, ops[..|ops| - 1], states[..|ops|];
      FrontRun(ops, states, ttl, max);
      FrontUndisturbed(ops, k, x, ttl);
      StaysKept(front, before, ttl, max, k, x);
      StepKeeps(states[n], ops[n], states[n + 1], x, ttl, max, Puts(front[k + 1..]));
    }
  }

  /** With a strictly increasing clock a trace outlives the next `max - 1` puts under
      other ids, until the time limit. */
  lemma Survives(ops: seq<Op>, states: seq<seq<Item>>, ttl: int, max: nat, k: nat, x: Item, now: int)
    requires max >= 1 && IsRun(ops, states, ttl, max) && ClockStrict(ops) && Undisturbed(ops, k, x, ttl)
    requires Puts(ops[k + 1..]) <= max - 1 && now <= x.at + ttl
    ensures Find(Live(states[|ops|], now, ttl), x.id) == Some(x.trace)
  {
    StaysKept(ops, states, ttl, max, k, x);
    RunSound(ops, states, ttl, max);
    var live := Live(states[|ops|], now, ttl);
    LiveAre(states[|ops|], now, ttl);
    LiveDistinct(states[|ops|], now, ttl);
    FindIs(live, x.id);
    SameItem(live, x);
  }

  lemma SameItem(items: seq<Item>, x: Item)
    requires DistinctIds(items) && x in items
    ensures forall y :: y in items && y.id == x.id ==> y == x
  {
  }
}
