/** src/mesh/gatekeeper.py, `EnvelopeCache`: the one-shot store between `prepare`
    and `send`. The clock is a parameter of every call. */
module EnvelopeCaches {
  import opened Schemas

  type EnvId = nat

  /** What crosses the boundary, as far as the protocol is concerned. */
  datatype Envelope = Envelope(id: EnvId, tier: Tier, hash: nat, validation: Option<bool>)

  datatype Entry = Entry(env: Envelope, createdAt: int)

  type Items = map<EnvId, Entry>

  function Unexpired(items: Items, now: int, ttl: int): (r: Items)
    ensures forall k :: k in r <==> k in items && now - items[k].createdAt <= ttl
    ensures forall k :: k in r ==> r[k] == items[k]
  {
    map k | k in items && now - items[k].createdAt <= ttl :: items[k]
  }

  /** The state after `put`, `take` and `discard`. */
  function Stored(items: Items, env: Envelope, now: int, ttl: int): Items {
    Unexpired(items, now, ttl)[env.id := Entry(env, now)]
  }

  function Taken(items: Items, id: EnvId, now: int, ttl: int): Items {
    Unexpired(items, now, ttl) - {id}
  }

  function Lookup(items: Items, id: EnvId, now: int, ttl: int): Option<Entry> {
    if id in Unexpired(items, now, ttl) then Some(items[id]) else None
  }

  /** What may happen to the cache, at whatever times. */
  datatype Op = PutOp(env: Envelope, at: int) | TakeOp(id: EnvId, at: int) | PeekOp(at: int) | DiscardOp(id: EnvId)

  function AfterOp(items: Items, op: Op, ttl: int): Items {
    match op
    case PutOp(env, at) => Stored(items, env, at, ttl)
    case TakeOp(id, at) => Taken(items, id, at, ttl)
    case PeekOp(at) => Unexpired(items, at, ttl)
    case DiscardOp(id) => items - {id}
  }

  function After(items: Items, ops: seq<Op>, ttl: int): Items
    decreases |ops|
  {
    if ops == [] then items else After(AfterOp(items, ops[0], ttl), ops[1..], ttl)
  }

  ghost predicate NeverPut(ops: seq<Op>, id: EnvId) {
    forall i :: 0 <= i < |ops| && ops[i].PutOp? ==> ops[i].env.id != id
  }

  lemma {:induction false} StaysGone(items: Items, ops: seq<Op>, ttl: int, id: EnvId)
    requires id !in items && NeverPut(ops, id)
    ensures id !in After(items, ops, ttl)
    decreases |ops|
  {
    if ops != [] {
      assert id !in AfterOp(items, ops[0], ttl);
      StaysGone(AfterOp(items, ops[0], ttl), ops[1..], ttl, id);
    }
  }

  /** The operation leaves the entry alone: it neither stores, takes nor discards this id, and
      sweeps at a time when the entry is not too old. */
  ghost predicate Spares(op: Op, id: EnvId, e: Entry, ttl: int) {
    match op
    case PutOp(env, at) => env.id != id && at - e.createdAt <= ttl
    case TakeOp(x, at) => x != id && at - e.createdAt <= ttl
    case PeekOp(at) => at - e.createdAt <= ttl
    case DiscardOp(x) => x != id
  }

  ghost predicate SparedFrom(ops: seq<Op>, i: nat, id: EnvId, e: Entry, ttl: int) {
    forall j :: i <= j < |ops| ==> Spares(ops[j], id, e, ttl)
  }

  /** Operation `i` stored this entry, and it has been left alone since. */
  ghost predicate KeptSince(ops: seq<Op>, i: nat, id: EnvId, e: Entry, ttl: int) {
    && i < |ops| && ops[i].PutOp? && ops[i].env.id == id && e == Entry(ops[i].env, ops[i].at)
    && SparedFrom(ops, i + 1, id, e, ttl)
  }

  lemma OneOp(items: Items, op: Op, id: EnvId, e: Entry, ttl: int)
    ensures (id in AfterOp(items, op, ttl) && AfterOp(items, op, ttl)[id] == e) <==>
      (op.PutOp? && op.env.id == id && e == Entry(op.env, op.at)) || (id in items && items[id] == e && Spares(op, id, e, ttl))
  {
  }

  lemma SparedTail(ops: seq<Op>, i: nat, id: EnvId, e: Entry, ttl: int)
    requires ops != []
    ensures SparedFrom(ops, i + 1, id, e, ttl) <==> SparedFrom(ops[1..], i, id, e, ttl)
  {
    assert forall j :: 0 < j < |ops| ==> ops[1..][j - 1] == ops[j];
    if SparedFrom(ops[1..], i, id, e, ttl) {
      forall j | i + 1 <= j < |ops| ensures Spares(ops[j], id, e, ttl) { assert Spares(ops[1..][j - 1], id, e, ttl); }
    }
  }

  /** In every history, whatever the clock: an entry is there just when some operation stored
      it, or it was there to begin with, and every one since has left it alone. */
  lemma {:induction false} HistoryIs(items: Items, ops: seq<Op>, id: EnvId, e: Entry, ttl: int)
    ensures (id in After(items, ops, ttl) && After(items, ops, ttl)[id] == e) <==>
      (id in items && items[id] == e && SparedFrom(ops, 0, id, e, ttl)) || exists i: nat :: KeptSince(ops, i, id, e, ttl)
    decreases |ops|
  {
    if ops != [] {
      HistoryIs(AfterOp(items, ops[0], ttl), ops[1..], id, e, ttl);
      OneOp(items, ops[0], id, e, ttl);
      SparedTail(ops, 0, id, e, ttl);
      KeptTail(ops, id, e, ttl);
    }
  }

  lemma KeptTail(ops: seq<Op>, id: EnvId, e: Entry, ttl: int)
    requires ops != []
    ensures (exists i: nat :: KeptSince(ops, i, id, e, ttl)) <==>
      KeptSince(ops, 0, id, e, ttl) || exists i: nat :: KeptSince(ops[1..], i, id, e, ttl)
    ensures SparedFrom(ops, 0, id, e, ttl) <==> Spares(ops[0], id, e, ttl) && SparedFrom(ops, 1, id, e, ttl)
  {
    if i: nat :| KeptSince(ops, i, id, e, ttl) {
      if i > 0 {
        SparedTail(ops, i, id, e, ttl);
        assert KeptSince(ops[1..], i - 1, id, e, ttl);
      }
    }
    if i: nat :| KeptSince(ops[1..], i, id, e, ttl) {
      SparedTail(ops, i + 1, id, e, ttl);
      assert KeptSince(ops, i + 1, id, e, ttl);
    }
  }

  /** An envelope stored at `t` is handed out exactly until `t + ttl`, to the first taker
      only: whatever happens in between, short of storing it again, a second taker gets
      nothing at any time. */
  lemma OneShot(items: Items, env: Envelope, ttl: int, t: int, t1: int, between: seq<Op>, t2: int)
    requires t <= t1 && NeverPut(between, env.id)
    ensures var stored := Stored(items, env, t, ttl); var taken := Taken(stored, env.id, t1, ttl);
      && (Lookup(stored, env.id, t1, ttl) == if t1 - t <= ttl then Some(Entry(env, t)) else None)
      && Lookup(After(taken, between, ttl), env.id, t2, ttl) == None
  {
    StaysGone(Taken(Stored(items, env, t, ttl), env.id, t1, ttl), between, ttl, env.id);
  }

  /** What is left when everything stale is gone. */
  lemma AllStale(before: Items, after: Items, stale: set<EnvId>, now: int, ttl: int)
    requires stale == (set k | k in before && now - before[k].createdAt > ttl) && after == before - (stale - {})
    ensures after == Unexpired(before, now, ttl) && |stale| == |before| - |after|
  {
    assert stale - {} == stale;
    assert after.Keys == before.Keys - stale && stale <= before.Keys;
    assert |before.Keys - stale| == |before.Keys| - |stale|;
  }

  lemma OneMoreGone(before: Items, stale: set<EnvId>, left: set<EnvId>, k: EnvId)
    requires k in left && left <= stale
    ensures (before - (stale - left)) - {k} == before - (stale - (left - {k}))
  {
  }

  class EnvelopeCache {
    var items: Items
    const ttl: int

    constructor (ttl: int)
      ensures items == map[] && this.ttl == ttl
    {
      items := map[];
      this.ttl := ttl;
    }

    method Sweep(now: int) returns (count: nat)
      modifies this
      ensures items == Unexpired(old(items), now, ttl)
      ensures count == |old(items)| - |items|
    {
      var stale := set k | k in items && now - items[k].createdAt > ttl;
      ghost var before := items;
      count := |stale|;
      var left := stale;
      assert items == before - (stale - left);
      while left != {}
        invariant left <= stale && items == before - (stale - left)
      {
        var k :| k in left;
        OneMoreGone(before, stale, left, k);
        items := items - {k};
        left := left - {k};
      }
      AllStale(before, items, stale, now, ttl);
    }

    method Put(env: Envelope, now: int)
      modifies this
      ensures items == Stored(old(items), env, now, ttl)
    {
      var _ := Sweep(now);
      items := items[env.id := Entry(env, now)];
    }

    method Take(id: EnvId, now: int) returns (r: Option<Entry>)
      modifies this
      ensures r == Lookup(old(items), id, now, ttl)
      ensures items == Taken(old(items), id, now, ttl)
    {
      var _ := Sweep(now);
      r := if id in items then Some(items[id]) else None;
      items := items - {id};
    }

    method Peek(id: EnvId, now: int) returns (r: Option<Entry>)
      modifies this
      ensures r == Lookup(old(items), id, now, ttl)
      ensures items == Unexpired(old(items), now, ttl)
    {
      var _ := Sweep(now);
      r := if id in items then Some(items[id]) else None;
    }

    method Discard(id: EnvId)
      modifies this
      ensures items == old(items) - {id}
    {
      items := items - {id};
    }
  }
}
