/** src/mesh/pseudonymizer.py, `merge_mappings`: one table for labels and placeholders. */
module MappingMerge {
  import opened Schemas

  ghost predicate AllValid(ms: seq<Mapping>) {
    forall m :: m in ms ==> m.Valid()
  }

  ghost predicate Says(ms: seq<Mapping>, k: string, v: string) {
    exists m :: m in ms && k in m.table && m.table[k] == v
  }

  /** Two of the mappings disagree on a key. */
  ghost predicate Clash(ms: seq<Mapping>) {
    exists k, v, w :: Says(ms, k, v) && Says(ms, k, w) && v != w
  }

  /** The table says exactly what the mappings say. */
  ghost predicate IsUnion(out: Mapping, ms: seq<Mapping>) {
    && out.Valid()
    && (forall k :: k in out.table ==> Says(ms, k, out.table[k]))
    && (forall k, v :: Says(ms, k, v) ==> k in out.table && out.table[k] == v)
  }

  lemma SaysMore(ms: seq<Mapping>, m: Mapping)
    ensures forall k, v :: Says(ms + [m], k, v) <==> Says(ms, k, v) || (k in m.table && m.table[k] == v)
  {
    assert forall x :: x in ms + [m] <==> x in ms || x == m;
    forall k, v | k in m.table && m.table[k] == v ensures Says(ms + [m], k, v) { assert m in ms + [m]; }
  }

  /** `out` says what `base` says and what the keys `done` say in `m`. */
  ghost predicate Merged(base: Mapping, m: Mapping, done: seq<string>, out: Mapping) {
    && out.Valid()
    && (forall k :: k in base.table ==> k in out.table && out.table[k] == base.table[k])
    && (forall k :: k in done ==> k in m.table && k in out.table && out.table[k] == m.table[k])
    && (forall k :: k in out.table ==> k in base.table || k in done)
  }

  lemma MergedStep(base: Mapping, m: Mapping, done: seq<string>, out: Mapping, key: string)
    requires Merged(base, m, done, out) && key in m.table
    requires key in out.table ==> out.table[key] == m.table[key]
    ensures Merged(base, m, done + [key], out.Put(key, m.table[key]))
  {
    PutValid(out, key, m.table[key]);
  }

  method AddOne(base: Mapping, m: Mapping) returns (r: Option<Mapping>)
    requires base.Valid() && m.Valid()
    ensures r.None? <==> exists k :: k in base.table && k in m.table && base.table[k] != m.table[k]
    ensures r.Some? ==> r.value.Valid() && r.value.table == base.table + m.table
  {
    var out := base;
    for i := 0 to |m.order|
      invariant Merged(base, m, m.order[..i], out)
    {
      var key := m.order[i];
      assert m.order[..i + 1] == m.order[..i] + [key];
      if key in out.table && out.table[key] != m.table[key] {
        assert key in base.table;
        return None;
      }
      MergedStep(base, m, m.order[..i], out, key);
      out := out.Put(key, m.table[key]);
    }
    assert m.order[..|m.order|] == m.order;
    return Some(out);
  }

  /** Fails exactly when two mappings disagree on a key; otherwise the result says what
      they say, no more and no less, whatever their order. */
  method MergeMappings(ms: seq<Mapping>) returns (r: Option<Mapping>)
    requires AllValid(ms)
    ensures r.None? <==> Clash(ms)
    ensures r.Some? ==> IsUnion(r.value, ms)
  {
    var out := EMPTY_MAPPING;
    for i := 0 to |ms|
      invariant IsUnion(out, ms[..i])
    {
      ghost var front := ms[..i];
      assert ms[..i + 1] == front + [ms[i]];
      SaysMore(front, ms[i]);
      var next := AddOne(out, ms[i]);
      if next.None? {
        ghost var k :| k in out.table && k in ms[i].table && out.table[k] != ms[i].table[k];
        assert Says(front, k, out.table[k]) && Says(front + [ms[i]], k, ms[i].table[k]);
        FrontSays(ms, i + 1, k, out.table[k]);
        FrontSays(ms, i + 1, k, ms[i].table[k]);
        return None;
      }
      out := next.value;
    }
    assert ms[..|ms|] == ms;
    return Some(out);
  }

  lemma FrontSays(ms: seq<Mapping>, n: nat, k: string, v: string)
    requires n <= |ms| && Says(ms[..n], k, v)
    ensures Says(ms, k, v)
  {
    var m :| m in ms[..n] && k in m.table && m.table[k] == v;
    assert m in ms;
  }
}
