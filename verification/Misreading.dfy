/** What comes back when the table gives some placeholder another text than the one it
    stands for: two replacements that share a placeholder. */
module Misreading {
  import opened Sequences
  import opened Text
  import opened Nests
  import opened Reading
  import opened Restoring
  import opened Plans
  import opened Masking

  /** Nothing has been put into any placeholder. */
  ghost predicate Uncut(ns: Row) {
    ns == [] || (UncutNode(ns[0]) && Uncut(ns[1..]))
  }

  ghost predicate UncutNode(n: Node) {
    n.Sym? ==> ShapedSub(n.e) && n.body == Raws(n.e.key)
  }

  ghost predicate HasSym(ns: Row, e: Sub) {
    ns != [] && ((ns[0].Sym? && ns[0].e == e) || HasSym(ns[1..], e))
  }

  ghost predicate SymsIn(ns: Row, all: seq<Sub>) {
    forall e :: HasSym(ns, e) ==> e in all
  }

  ghost predicate UsedSub(s: string, plan: seq<Sub>, e: Sub) {
    exists j: nat :: Used(s, plan, j) && plan[j] == e
  }

  // ---- masking leaves placeholders whole ------------------------------------

  lemma {:induction false} RawsUnmasked(k: string, f: Sub)
    requires f.lit != "" && !Contains(k, f.lit)
    ensures MaskRow(Raws(k), f) == Raws(k)
  {
    if k != "" {
      if RawPrefix(Raws(k), f.lit) {
        RunIsSpelled(Raws(k), f.lit);
        RawsRender(k);
      }
      assert k == [k[0]] + k[1..];
      ContainsTail(k[0], k[1..], f.lit);
      RawsUnmasked(k[1..], f);
      RawsCons(k[0], k[1..]);
    }
  }

  lemma {:induction false} UncutFormed(ns: Row)
    requires Uncut(ns)
    ensures Formed(ns)
  {
    if ns != [] {
      UncutFormed(ns[1..]);
      if ns[0].Sym? { RawsRender(ns[0].e.key); }
    }
  }

  lemma {:induction false} UncutSplit(a: Row, b: Row)
    ensures Uncut(a + b) <==> Uncut(a) && Uncut(b)
    ensures forall e :: HasSym(a + b, e) <==> HasSym(a, e) || HasSym(b, e)
  {
    if a == [] {
      assert a + b == b;
    } else {
      assert (a + b)[1..] == a[1..] + b;
      UncutSplit(a[1..], b);
    }
  }

  lemma {:induction false} RawsUncut(s: string)
    ensures Uncut(Raws(s)) && forall e :: !HasSym(Raws(s), e)
  {
    if s != "" {
      assert Raws(s)[1..] == Raws(s[1..]);
      RawsUncut(s[1..]);
    }
  }

  ghost predicate AllApart(all: seq<Sub>, f: Sub) {
    forall e :: e in all ==> !Contains(e.key, f.lit)
  }

  /** One replacement adds its placeholder just if its literal is found. */
  lemma {:induction false} MaskUncut(ns: Row, f: Sub, all: seq<Sub>)
    requires Uncut(ns) && ShapedSub(f) && SymsIn(ns, all) && AllApart(all, f)
    ensures Uncut(MaskRow(ns, f))
    ensures forall e :: HasSym(MaskRow(ns, f), e) <==> HasSym(ns, e) || (e == f && Contains(Render(ns), f.lit))
  {
    if ns == [] {
      assert !Contains("", f.lit);
    } else if RawPrefix(ns, f.lit) {
      var rest := ns[|f.lit|..];
      RawPrefixSplit(ns, f.lit);
      UncutSplit(Raws(f.lit), rest);
      RawsUncut(f.lit);
      assert OccursAt(Render(ns), f.lit, 0);
      MaskUncut(rest, f, all);
      OneFront(Sym(f, Raws(f.key)), MaskRow(rest, f));
    } else {
      MaskUncut(ns[1..], f, all);
      MaskHeadUncut(ns, f, all);
      OneFront(ns[0], MaskRow(ns[1..], f));
    }
  }

  lemma OneFront(n: Node, ns: Row)
    ensures Uncut([n] + ns) <==> UncutNode(n) && Uncut(ns)
    ensures forall e :: HasSym([n] + ns, e) <==> (n.Sym? && n.e == e) || HasSym(ns, e)
  {
    assert ([n] + ns)[1..] == ns;
  }

  lemma MaskHeadUncut(ns: Row, f: Sub, all: seq<Sub>)
    requires Uncut(ns) && ShapedSub(f) && SymsIn(ns, all) && AllApart(all, f) && ns != [] && !RawPrefix(ns, f.lit)
    ensures MaskNode(ns[0], f) == ns[0]
    ensures Contains(Render(ns), f.lit) <==> Contains(Render(ns[1..]), f.lit)
  {
    if ns[0].Sym? {
      assert HasSym(ns, ns[0].e);
      MaskSymUncut(ns[0].e, Render(ns[1..]), f);
    } else {
      UncutFormed(ns);
      MaskRawUncut(ns, f);
    }
  }

  lemma MaskSymUncut(e: Sub, rest: string, f: Sub)
    requires ShapedSub(e) && ShapedSub(f) && !Contains(e.key, f.lit)
    ensures var n := Sym(e, Raws(e.key));
      MaskNode(n, f) == n && (Contains(RenderNode(n) + rest, f.lit) <==> Contains(rest, f.lit))
  {
    RawsRender(e.key);
    RawsUnmasked(e.key, f);
    ContainsApart(e.key, rest, f.lit);
  }

  lemma MaskRawUncut(ns: Row, f: Sub)
    requires Formed(ns) && ShapedSub(f) && ns != [] && ns[0].Raw? && !RawPrefix(ns, f.lit)
    ensures Contains(Render(ns), f.lit) <==> Contains(Render(ns[1..]), f.lit)
  {
    assert Render(ns) == [ns[0].c] + Render(ns[1..]);
    ContainsTail(ns[0].c, Render(ns[1..]), f.lit);
    if StartsWith(Render(ns), f.lit) { StartIsRaw(ns, f.lit); }
  }

  lemma {:induction false} PlanUncut(ns: Row, plan: seq<Sub>, all: seq<Sub>, e: Sub)
    requires Uncut(ns) && Shaped(plan) && SymsIn(ns, all)
    requires forall f :: f in plan ==> f in all && AllApart(all, f)
    ensures Uncut(MaskRows(ns, plan)) && SymsIn(MaskRows(ns, plan), all)
    ensures HasSym(MaskRows(ns, plan), e) <==> HasSym(ns, e) || UsedSub(Render(ns), plan, e)
    decreases |plan|
  {
    if plan != [] {
      var f := plan[0];
      assert f in plan;
      MaskUncut(ns, f, all);
      UncutFormed(ns);
      MaskRenders(ns, f);
      PlanUncut(MaskRow(ns, f), plan[1..], all, e);
      UsedSubCons(Render(ns), plan, e);
    }
  }

  lemma UsedSubCons(s: string, plan: seq<Sub>, e: Sub)
    requires plan != []
    ensures UsedSub(s, plan, e)
       <==> (plan[0] == e && Contains(s, plan[0].lit)) || UsedSub(Replace(s, plan[0].lit, plan[0].key), plan[1..], e)
  {
    var s' := Replace(s, plan[0].lit, plan[0].key);
    UsedFirst(s, plan);
    if j: nat :| Used(s, plan, j) && plan[j] == e {
      if j > 0 {
        UsedNext(s, plan, j - 1);
        assert Used(s', plan[1..], j - 1) && plan[1..][j - 1] == e;
      }
    }
    if j: nat :| Used(s', plan[1..], j) && plan[1..][j] == e {
      UsedNext(s, plan, j);
      assert Used(s, plan, j + 1) && plan[j + 1] == e;
    }
  }

  // ---- reading them back ----------------------------------------------------

  ghost predicate PlainTable(table: map<string, string>) {
    forall k :: k in table ==> Bracketed(k) && table[k] != "" && Plain(table[k])
  }

  lemma RawsUnread(key: string, k: string, v: string)
    requires Bracketed(key) && Bracketed(k) && k != key
    ensures ReadRow(Raws(key), k, v) == Raws(key)
  {
    if RawPrefix(Raws(key), k) {
      RunIsSpelled(Raws(key), k);
      RawsRender(key);
      BracketedInside(key, k);
    }
    assert key == [key[0]] + key[1..];
    RawsCons(key[0], key[1..]);
    assert ([Raw(key[0])] + Raws(key[1..]))[1..] == Raws(key[1..]);
    PlainKey(key);
    ReadPlain(key[1..], k, v);
  }

  lemma UncutNodeRead(n: Node, k: string, v: string)
    requires UncutNode(n) && Bracketed(k)
    ensures ReadNode(n, k, v) == if n.Sym? && n.e.key == k then Raws(v) else [n]
  {
    if n.Sym? {
      if n.e.key != k {
        RawsUnread(n.e.key, k, v);
        RawsRender(k);
        RawsRender(n.e.key);
      }
    }
  }

  /** A placeholder without anything inside is read in its turn, and no other is touched. */
  lemma {:induction false} ReadUncut(ns: Row, k: string, v: string)
    requires Uncut(ns) && Bracketed(k)
    ensures Uncut(ReadRow(ns, k, v))
    ensures forall e :: HasSym(ReadRow(ns, k, v), e) ==> HasSym(ns, e) && e.key != k
  {
    if ns != [] {
      if RawPrefix(ns, k) {
        assert ns == ns[..|k|] + ns[|k|..];
        UncutSplit(ns[..|k|], ns[|k|..]);
        ReadUncut(ns[|k|..], k, v);
        RawsUncut(v);
        UncutSplit(Raws(v), ReadRow(ns[|k|..], k, v));
      } else {
        var head, tail := ReadNode(ns[0], k, v), ReadRow(ns[1..], k, v);
        ReadUncut(ns[1..], k, v);
        UncutNodeRead(ns[0], k, v);
        RawsUncut(v);
        UncutSplit(head, tail);
        OneFront(ns[0], []);
        OneFront(ns[0], ns[1..]);
        assert ns == [ns[0]] + ns[1..] && [ns[0]] + [] == [ns[0]];
      }
    }
  }

  /** After the first `n` keys none of those placeholders is left. */
  lemma {:induction false} UncutAfter(ns: Row, order: seq<string>, table: map<string, string>, n: nat)
    requires n <= |order| && Keyed(order, table) && Uncut(ns)
    ensures var r := RowAfter(ns, order, table, n);
      && Uncut(r) && Render(r) == TextAfter(Render(ns), order, table, n)
      && forall e :: HasSym(r, e) ==> HasSym(ns, e) && e.key !in order[..n]
  {
    if n > 0 {
      var before, k := RowAfter(ns, order, table, n - 1), order[n - 1];
      assert k in order && order[..n] == order[..n - 1] + [k];
      UncutAfter(ns, order, table, n - 1);
      UncutFormed(before);
      ReadRenders(before, k, table[k]);
      ReadUncut(before, k, table[k]);
    }
  }

  // ---- what reading makes of a row, piece by piece --------------------------

  /** `r` is what the row may have become: characters and placeholders that stand, values
      in place of placeholders, and values in place of parts that came to spell a key. */
  ghost predicate Became(ns: Row, r: Row, table: map<string, string>)
    decreases |ns|, 1
  {
    if ns == [] then r == []
    else
      || (r != [] && r[0] == ns[0] && Became(ns[1..], r[1..], table))
      || (ns[0].Sym? && Took(ns, r, table, ns[0].e.key, 1))
      || (ns[0] == Raw('<') && exists k, n: nat :: Took(ns, r, table, k, n))
  }

  /** The value of `k` stands for the first `n` pieces. */
  ghost predicate Took(ns: Row, r: Row, table: map<string, string>, k: string, n: nat)
    decreases |ns|, 0
  {
    1 <= n <= |ns| && k in table && RawPrefix(r, table[k]) && Became(ns[n..], r[|table[k]|..], table)
  }

  lemma {:induction false} BecomesItself(ns: Row, table: map<string, string>)
    ensures Became(ns, ns, table)
  {
    if ns != [] { BecomesItself(ns[1..], table); }
  }

  lemma WhatTook(ns: Row, r: Row, table: map<string, string>) returns (k: string, n: nat)
    requires ns != [] && Became(ns, r, table) && !(r != [] && r[0] == ns[0] && Became(ns[1..], r[1..], table))
    ensures Took(ns, r, table, k, n) && if ns[0].Sym? then k == ns[0].e.key && n == 1 else ns[0] == Raw('<')
  {
    if ns[0].Sym? {
      k, n := ns[0].e.key, 1;
    } else {
      k, n :| Took(ns, r, table, k, n);
    }
  }

  /** A run that ends in `>` ends where a piece does. */
  lemma {:induction false} RunEnds(ns: Row, r: Row, table: map<string, string>, w: string) returns (n: nat)
    requires PlainTable(table) && Became(ns, r, table) && RawPrefix(r, w) && w != "" && w[|w| - 1] == '>'
    ensures 1 <= n <= |ns| && Became(ns[n..], r[|w|..], table)
    decreases |ns|
  {
    assert ns != [];
    if r[0] == ns[0] && Became(ns[1..], r[1..], table) {
      if |w| == 1 {
        n := 1;
      } else {
        RunTail(r, w, 1);
        var m := RunEnds(ns[1..], r[1..], table, w[1..]);
        n := m + 1;
        assert ns[1..][m..] == ns[n..] && r[1..][|w[1..]|..] == r[|w|..];
      }
    } else {
      var k, b := WhatTook(ns, r, table);
      var v := table[k];
      EndsBehind(r, w, v);
      RunTail(r, w, |v|);
      var m := RunEnds(ns[b..], r[|v|..], table, w[|v|..]);
      n := b + m;
      assert ns[b..][m..] == ns[n..] && r[|v|..][|w[|v|..]|..] == r[|w|..];
    }
  }

  lemma RunTail(r: Row, w: string, d: nat)
    requires RawPrefix(r, w) && d <= |w|
    ensures RawPrefix(r[d..], w[d..])
  {
    forall i | 0 <= i < |w[d..]| ensures r[d..][i] == Raw(w[d..][i]) { assert r[d + i] == Raw(w[d + i]); }
  }

  lemma EndsBehind(r: Row, w: string, v: string)
    requires RawPrefix(r, w) && RawPrefix(r, v) && w != "" && w[|w| - 1] == '>' && Plain(v)
    ensures |v| < |w|
  {
    if |w| <= |v| { EndsInside(r, w, v); }
  }

  lemma EndsInside(r: Row, w: string, v: string)
    requires RawPrefix(r, w) && RawPrefix(r, v) && w != "" && |w| <= |v|
    ensures w[|w| - 1] in v
  {
    assert r[|w| - 1] == Raw(v[|w| - 1]) && r[|w| - 1] == Raw(w[|w| - 1]);
  }

  lemma {:induction false} StepBecame(ns: Row, r: Row, table: map<string, string>, k: string)
    requires Uncut(ns) && PlainTable(table) && Became(ns, r, table) && k in table
    ensures Became(ns, ReadRow(r, k, table[k]), table)
    decreases |ns|
  {
    if ns != [] {
      var v := table[k];
      if RawPrefix(r, k) {
        FrontOf(ns, r, table);
        var n := RunEnds(ns, r, table, k);
        UncutFrom(ns, n);
        StepBecame(ns[n..], r[|k|..], table, k);
        TookFront(ns, v, ReadRow(r[|k|..], k, v), table, k, n);
      } else if r != [] && r[0] == ns[0] && Became(ns[1..], r[1..], table) {
        StepBecame(ns[1..], r[1..], table, k);
        UncutNodeRead(ns[0], k, v);
        if ns[0].Sym? && ns[0].e.key == k {
          TookFront(ns, v, ReadRow(r[1..], k, v), table, k, 1);
        }
      } else {
        var l, n := WhatTook(ns, r, table);
        UncutFrom(ns, n);
        StepBecame(ns[n..], r[|table[l]|..], table, k);
        TakenStays(r, table[l], k, v);
        TookFront(ns, table[l], ReadRow(r[|table[l]|..], k, v), table, l, n);
      }
    }
  }

  lemma UncutFrom(ns: Row, n: nat)
    requires Uncut(ns) && n <= |ns|
    ensures Uncut(ns[n..])
  {
    assert ns == ns[..n] + ns[n..];
    UncutSplit(ns[..n], ns[n..]);
  }

  lemma TookFront(ns: Row, v: string, rest: Row, table: map<string, string>, k: string, n: nat)
    requires 1 <= n <= |ns| && k in table && table[k] == v && Became(ns[n..], rest, table)
    ensures Took(ns, Raws(v) + rest, table, k, n)
  {
    assert (Raws(v) + rest)[|v|..] == rest;
  }

  /** The row starts with what stands, or with a value. */
  lemma FrontOf(ns: Row, r: Row, table: map<string, string>)
    requires PlainTable(table) && Became(ns, r, table) && ns != []
    ensures r != [] && (r[0] == ns[0] || (r[0].Raw? && r[0].c != '<'))
  {
    if r == [] || r[0] != ns[0] {
      var k, n := WhatTook(ns, r, table);
      PlainFirst(table[k]);
    }
  }

  lemma TakenStays(r: Row, w: string, k: string, v: string)
    requires RawPrefix(r, w) && Plain(w) && Bracketed(k)
    ensures ReadRow(r, k, v) == Raws(w) + ReadRow(r[|w|..], k, v)
  {
    RawPrefixSplit(r, w);
    PlainQuiet(w);
    ReadQuiet(Raws(w), r[|w|..], k, v);
    ReadPlain(w, k, v);
  }

  lemma {:induction false} AfterBecame(ns: Row, order: seq<string>, table: map<string, string>, n: nat)
    requires n <= |order| && Keyed(order, table) && PlainTable(table) && Uncut(ns)
    ensures Became(ns, RowAfter(ns, order, table, n), table)
  {
    if n == 0 {
      BecomesItself(ns, table);
    } else {
      assert order[n - 1] in order;
      AfterBecame(ns, order, table, n - 1);
      StepBecame(ns, RowAfter(ns, order, table, n - 1), table, order[n - 1]);
    }
  }

  // ---- wrong readings show ---------------------------------------------------

  /** A placeholder that is misread is given a text that does not hold its literal. */
  ghost predicate NoneHeld(ns: Row, table: map<string, string>) {
    forall e :: HasSym(ns, e) ==> e.key in table && (table[e.key] == e.lit || !Contains(table[e.key], e.lit))
  }

  ghost predicate NoSyms(ns: Row) {
    forall e :: !HasSym(ns, e)
  }

  /** With `v` in place of the front of `a`, what is over of `a` comes first. */
  lemma CutFront(a: string, b: string, v: string, rest: string)
    requires |v| <= |a|
    ensures a + b == v + rest ==> a[|v|..] + b == rest
  {
    if a + b == v + rest { assert (a + b)[|v|..] == a[|v|..] + b && (v + rest)[|v|..] == rest; }
  }

  lemma FrontHeld(u: string, lit: string, b: string, v: string, rest: string)
    requires u + lit + b == v + rest && |u| + |lit| <= |v|
    ensures Contains(v, lit)
  {
    var all := v + rest;
    assert all[|u|..|u| + |lit|] == lit;
    assert v[|u|..|u| + |lit|] == all[|u|..|u| + |lit|];
    assert OccursAt(v, lit, |u|);
  }

  lemma OpenBehind(u: string, b: string, v: string, rest: string)
    requires u + b == v + rest && b != "" && b[0] == '<' && Plain(v)
    ensures |v| <= |u|
  {
    if |u| < |v| { InFront(u, b, v, rest); }
  }

  lemma InFront(u: string, b: string, v: string, rest: string)
    requires u + b == v + rest && b != "" && |u| < |v|
    ensures b[0] in v
  {
    assert (u + b)[|u|] == b[0] && (v + rest)[|u|] == v[|u|];
  }

  lemma SymBehind(u: string, lit: string, b: string, v: string, rest: string)
    requires u + lit + b == v + rest && u != "" && (v == lit || !Contains(v, lit))
    ensures |v| < |u + lit|
  {
    if |u| + |lit| <= |v| { FrontHeld(u, lit, b, v, rest); }
  }

  lemma TailFits(ns: Row, n: nat, table: map<string, string>)
    requires Uncut(ns) && NoneHeld(ns, table) && n <= |ns|
    ensures Uncut(ns[n..]) && NoneHeld(ns[n..], table)
  {
    assert ns == ns[..n] + ns[n..];
    UncutSplit(ns[..n], ns[n..]);
  }

  lemma TailFree(r: Row, n: nat)
    requires NoSyms(r) && n <= |r|
    ensures NoSyms(r[n..])
  {
    assert r == r[..n] + r[n..];
    UncutSplit(r[..n], r[n..]);
  }

  /** A character that stands. */
  lemma Stands(u: string, ns: Row, r: Row)
    requires ns != [] && r != [] && r[0] == ns[0] && NoSyms(r)
    ensures ns[0].Raw? && Expand(ns) == [ns[0].c] + Expand(ns[1..]) && Render(r) == [ns[0].c] + Render(r[1..])
    ensures u != "" && u + Expand(ns) == Render(r) ==> (u[1..] + [ns[0].c]) + Expand(ns[1..]) == Render(r[1..])
  {
    if ns[0].Sym? { assert HasSym(r, ns[0].e); }
    if u != "" && u + Expand(ns) == Render(r) {
      var a := u + [ns[0].c];
      assert u + Expand(ns) == a + Expand(ns[1..]);
      CutFront(a, Expand(ns[1..]), [ns[0].c], Render(r[1..]));
      assert a[1..] == u[1..] + [ns[0].c];
    }
  }

  /** A value that was taken for the first `n` pieces ends before they do. */
  lemma TakenBehind(u: string, ns: Row, r: Row, table: map<string, string>, k: string, n: nat)
    requires u != "" && PlainTable(table) && Uncut(ns) && NoneHeld(ns, table) && Took(ns, r, table, k, n)
    requires if ns[0].Sym? then k == ns[0].e.key && n == 1 else ns[0] == Raw('<')
    ensures u + Expand(ns) == Render(r) ==>
      var lead, v := u + Expand(ns[..n]), table[k];
      |v| < |lead| && lead[|v|..] + Expand(ns[n..]) == Render(r[|v|..])
  {
    var v, front, back := table[k], Expand(ns[..n]), Expand(ns[n..]);
    RawPrefixSplit(r, v);
    assert ns == ns[..n] + ns[n..];
    ExpandConcat(ns[..n], ns[n..]);
    Regroup(u, front, back);
    if u + Expand(ns) == Render(r) {
      if ns[0].Sym? {
        assert ns[..1] == [ns[0]] && HasSym(ns, ns[0].e);
        Single(ns[0]);
        SymBehind(u, front, back, v, Render(r[|v|..]));
      } else {
        assert front[0] == '<';
        OpenBehind(u, front + back, v, Render(r[|v|..]));
      }
      CutFront(u + front, back, v, Render(r[|v|..]));
    }
  }

  /** A text that has got ahead stays ahead: what is read never catches up with it. */
  lemma {:induction false} StaysBehind(u: string, ns: Row, r: Row, table: map<string, string>)
    requires u != "" && Uncut(ns) && PlainTable(table) && Became(ns, r, table) && NoSyms(r) && NoneHeld(ns, table)
    ensures u + Expand(ns) != Render(r)
    decreases |ns|
  {
    if ns != [] {
      if r != [] && r[0] == ns[0] && Became(ns[1..], r[1..], table) {
        Stands(u, ns, r);
        TailFits(ns, 1, table);
        TailFree(r, 1);
        StaysBehind(u[1..] + [ns[0].c], ns[1..], r[1..], table);
      } else {
        var k, n := WhatTook(ns, r, table);
        var lead, v := u + Expand(ns[..n]), table[k];
        TailFits(ns, n, table);
        TailFree(r, |v|);
        TakenBehind(u, ns, r, table, k, n);
        if |v| < |lead| { StaysBehind(lead[|v|..], ns[n..], r[|v|..], table); }
      }
    }
  }

  ghost predicate AllRight(ns: Row, table: map<string, string>) {
    forall e :: HasSym(ns, e) ==> e.key in table && table[e.key] == e.lit
  }

  /** A row comes back as its text only if each of its placeholders is read right. */
  lemma {:induction false} ReadRight(ns: Row, r: Row, table: map<string, string>)
    requires Uncut(ns) && PlainTable(table) && Became(ns, r, table) && NoSyms(r) && NoneHeld(ns, table)
    requires Render(r) == Expand(ns)
    ensures AllRight(ns, table)
    decreases |ns|
  {
    if ns != [] {
      if r != [] && r[0] == ns[0] && Became(ns[1..], r[1..], table) {
        Stands("", ns, r);
        TailFits(ns, 1, table);
        TailFree(r, 1);
        SameFront([ns[0].c], Render(r[1..]), Expand(ns[1..]));
        ReadRight(ns[1..], r[1..], table);
      } else {
        var k, n := WhatTook(ns, r, table);
        var v := table[k];
        RawPrefixSplit(r, v);
        TailFits(ns, n, table);
        TailFree(r, |v|);
        if ns[0].Sym? {
          assert HasSym(ns, ns[0].e);
          TakenRight(ns[0].e.lit, ns[1..], v, r[|v|..], table);
          ReadRight(ns[1..], r[|v|..], table);
        } else {
          PlainFirst(v);
          FrontsDiffer(v, Render(r[|v|..]), "<", Expand(ns[1..]));
        }
      }
    }
  }

  /** A value in place of a literal, and the text all the same: the value is the literal. */
  lemma TakenRight(lit: string, ns: Row, v: string, r: Row, table: map<string, string>)
    requires Uncut(ns) && PlainTable(table) && Became(ns, r, table) && NoSyms(r) && NoneHeld(ns, table)
    requires (v == lit || !Contains(v, lit)) && v + Render(r) == lit + Expand(ns)
    ensures v == lit && Render(r) == Expand(ns)
  {
    if |lit| <= |v| {
      assert "" + lit == lit;
      FrontHeld("", lit, Expand(ns), v, Render(r));
    } else {
      CutFront(lit, Expand(ns), v, Render(r));
      StaysBehind(lit[|v|..], ns, r, table);
    }
    SameFront(lit, Render(r), Expand(ns));
  }

  // ---- a plan whose table misreads -------------------------------------------

  lemma {:induction false} RightReads(ns: Row, table: map<string, string>)
    requires Uncut(ns) && AllRight(ns, table)
    ensures ReadsAs(ns, table)
  {
    if ns != [] {
      TailRight(ns, table);
      RightReads(ns[1..], table);
      if ns[0].Sym? {
        assert HasSym(ns, ns[0].e);
        RawsRead(ns[0].e.key, table);
      }
    }
  }

  lemma TailRight(ns: Row, table: map<string, string>)
    requires AllRight(ns, table) && ns != []
    ensures AllRight(ns[1..], table)
  {
    forall e | HasSym(ns[1..], e) ensures e.key in table && table[e.key] == e.lit { assert HasSym(ns, e); }
  }

  lemma {:induction false} UncutGood(ns: Row, order: seq<string>)
    requires Uncut(ns) && forall e :: HasSym(ns, e) ==> e.key in order
    ensures Good(ns, order, 0, |order|)
  {
    if ns != [] {
      forall e | HasSym(ns[1..], e) ensures e.key in order { assert HasSym(ns, e); }
      UncutGood(ns[1..], order);
      if ns[0].Sym? {
        assert HasSym(ns, ns[0].e);
        RawsGood(ns[0].e.key, order, 0, Rank(order, ns[0].e.key));
      }
    }
  }

  lemma {:induction false} KeyUnmasked(k: string, plan: seq<Sub>)
    requires Shaped(plan) && forall e :: e in plan ==> !Contains(k, e.lit)
    ensures MaskRows(Raws(k), plan) == Raws(k)
    decreases |plan|
  {
    if plan != [] {
      assert plan[0] in plan;
      RawsUnmasked(k, plan[0]);
      KeyUnmasked(k, plan[1..]);
    }
  }

  /** The table has a placeholder of the plan for every key and a plain value for every
      placeholder of the plan; where that is not the literal, it does not hold it. */
  ghost predicate Tells(table: map<string, string>, plan: seq<Sub>) {
    && PlainTable(table)
    && (forall k :: k in table ==> k in Keys(plan))
    && forall e :: e in plan ==> e.key in table && (table[e.key] == e.lit || !Contains(table[e.key], e.lit))
  }

  /** Every placeholder put into `s` is read as what it stands for. */
  ghost predicate UsedRight(s: string, plan: seq<Sub>, table: map<string, string>) {
    forall e :: e in plan && UsedSub(s, plan, e) ==> e.key in table && table[e.key] == e.lit
  }

  /** What the row of a masked text holds. */
  lemma MaskedRow(s: string, plan: seq<Sub>)
    requires Shaped(plan) && Isolated(plan)
    ensures var row := MaskRows(Raws(s), plan);
      && Uncut(row) && Expand(row) == s && Render(row) == MaskText(s, plan)
      && (forall e :: HasSym(row, e) <==> e in plan && UsedSub(s, plan, e))
  {
    var row := MaskRows(Raws(s), plan);
    RawsUncut(s);
    RawsRender(s);
    MaskRowsKeep(Raws(s), plan);
    PlanUncut(Raws(s), plan, plan, Sub("", ""));
    forall e ensures HasSym(row, e) <==> e in plan && UsedSub(s, plan, e) { PlanUncut(Raws(s), plan, plan, e); }
  }

  /** A spelled key is there, whole, when its turn comes. */
  lemma SpelledIsWhole(s: string, plan: seq<Sub>, order: seq<string>, k: string)
    requires Shaped(plan) && AllBracketed(order) && k in order && Contains(s, k)
    requires forall e :: e in plan ==> !Contains(k, e.lit)
    ensures !NoneWhole(MaskRows(Raws(s), plan), order)
  {
    var i: nat :| i <= |s| && OccursAt(s, k, i);
    var a, b := s[..i], s[i + |k|..];
    ContainsSplit(s, k, i);
    SpelledSplit(a, k, b, plan);
    KeyUnmasked(k, plan);
    RawsRender(k);
    RawsGood(k, order, 0, Rank(order, k));
    if NoneWhole(MaskRows(Raws(s), plan), order) {
      NoneWholeAt(MaskRows(Raws(a), plan), Raws(k), MaskRows(Raws(b), plan), order, Rank(order, k));
    }
  }

  lemma RowRestored(row: Row, order: seq<string>, table: map<string, string>)
    requires Keyed(order, table) && PlainTable(table) && Uncut(row) && NoneHeld(row, table)
    requires (forall e :: HasSym(row, e) ==> e.key in order) && TextAfter(Render(row), order, table, |order|) == Expand(row)
    ensures AllRight(row, table)
  {
    var n := |order|;
    UncutAfter(row, order, table, n);
    AfterBecame(row, order, table, n);
    assert order[..n] == order;
    ReadRight(row, RowAfter(row, order, table, n), table);
  }

  lemma RestoredRight(s: string, plan: seq<Sub>, order: seq<string>, table: map<string, string>)
    requires Shaped(plan) && Isolated(plan) && Keyed(order, table) && Tells(table, plan)
    requires (forall k :: k in order <==> k in table) && UnmaskText(MaskText(s, plan), order, table) == s
    ensures UsedRight(s, plan, table)
  {
    MaskedRow(s, plan);
    UnmaskIsAfter(MaskText(s, plan), order, table);
    RowRestored(MaskRows(Raws(s), plan), order, table);
  }

  /** For every text: when no literal lies inside a placeholder, and no wrong reading holds
      the literal it stands in for, the text comes back if and only if it spells no key and
      no placeholder that is misread was put into it. */
  lemma MisreadIff(s: string, plan: seq<Sub>, order: seq<string>, table: map<string, string>)
    requires Shaped(plan) && Isolated(plan) && Keyed(order, table) && Tells(table, plan)
    requires forall k :: k in order <==> k in table
    ensures UnmaskText(MaskText(s, plan), order, table) == s
       <==> (forall k :: k in table ==> !Contains(s, k)) && UsedRight(s, plan, table)
  {
    var row, n := MaskRows(Raws(s), plan), |order|;
    if UnmaskText(MaskText(s, plan), order, table) == s { RestoredRight(s, plan, order, table); }
    if UsedRight(s, plan, table) {
      MaskedRow(s, plan);
      UncutFormed(row);
      RightReads(row, table);
      UncutGood(row, order);
      UnmaskIsAfter(MaskText(s, plan), order, table);
      ReadBackExactly(row, order, table);
      if forall k :: k in table ==> !Contains(s, k) {
        ReadBackIff(row, order, table);
      } else {
        var k :| k in table && Contains(s, k);
        KeyApart(plan, k);
        SpelledIsWhole(s, plan, order, k);
      }
    }
  }

  lemma KeyApart(plan: seq<Sub>, k: string)
    requires Isolated(plan) && k in Keys(plan)
    ensures forall e :: e in plan ==> !Contains(k, e.lit)
  {
    var f :| f in plan && f.key == k;
  }

  // ---- the condition on wrong readings is needed ------------------------------

  lemma NothingHeld(p: string)
    requires p != ""
    ensures !Contains("", p)
  {
  }

  /** The first occurrence in front, the rest without one. */
  lemma ReplaceFront(p: string, rest: string, sub: string)
    requires p != "" && !Contains(rest, p)
    ensures Replace(p + rest, p, sub) == sub + rest
  {
    assert (p + rest)[..|p|] == p && (p + rest)[|p|..] == rest;
    ReplaceHit(p + rest, p, sub);
    ReplaceAbsent(rest, p, sub);
  }

  lemma ReadsBoth(k: string, l: string, v: string, w: string)
    requires Bracketed(k) && Bracketed(l) && k != l && Plain(v)
    ensures Replace(k + l, k, v) == v + l && Replace(v + l, l, w) == v + w
  {
    if Contains(l, k) { BracketedInside(l, k); }
    ReplaceFront(k, l, v);
    PlainKey(l);
    StartsApart(v, l, l);
    ReplaceSplit(v, l, l, w);
    if Contains(v, l) { OpenInside(v, l); }
    ReplaceAbsent(v, l, w);
    NothingHeld(l);
    ReplaceFront(l, "", w);
    assert l + "" == l && w + "" == w;
  }

  lemma TwoSteps(s: string, d: Sub, e: Sub)
    ensures MaskText(s, [d, e]) == Replace(Replace(s, d.lit, d.key), e.lit, e.key)
    ensures Contains(s, d.lit) ==> UsedSub(s, [d, e], d)
    ensures Contains(Replace(s, d.lit, d.key), e.lit) ==> UsedSub(s, [d, e], e)
  {
    var plan, t := [d, e], Replace(s, d.lit, d.key);
    assert plan[1..] == [e] && [e][1..] == [];
    assert MaskText(t, [e]) == MaskText(Replace(t, e.lit, e.key), []);
    UsedSubCons(s, plan, d);
    UsedSubCons(s, plan, e);
    UsedSubCons(t, [e], e);
  }

  lemma BothPutIn(x: string, w: string, k: string, l: string)
    requires x != "" && w != "" && NoStartIn(x, w, w) && !Contains(l, x)
    ensures var s, plan := x + w, [Sub(w, l), Sub(x, k)];
      MaskText(s, plan) == k + l && UsedSub(s, plan, plan[0]) && UsedSub(s, plan, plan[1])
  {
    NothingHeld(w);
    ReplaceSkips(x, w, w, l);
    ReplaceFront(w, "", l);
    assert w + "" == w && l + "" == l;
    ReplaceFront(x, l, k);
    TwoSteps(x + w, Sub(w, l), Sub(x, k));
    assert OccursAt(w, w, 0) && OccursAt(x, x, 0);
    ContainsBehind(x, w, w);
    ContainsFront(x, l, x);
  }

  lemma BothRead(k: string, l: string, table: map<string, string>)
    requires Bracketed(k) && Bracketed(l) && k != l && k in table && l in table && Plain(table[k])
    ensures UnmaskText(k + l, [k, l], table) == table[k] + table[l]
  {
    var s, t := k + l, table[k] + l;
    ReadsBoth(k, l, table[k], table[l]);
    assert [k, l][1..] == [l] && [l][1..] == [];
    assert UnmaskText(s, [k, l], table) == UnmaskText(t, [l], table);
    assert UnmaskText(t, [l], table) == UnmaskText(table[k] + table[l], [], table);
  }

  /** A wrong reading that holds its literal and more can be made up for by another that
      lacks as much: `x` read as `x + y`, `y + z` read as `z`, and the text is right. */
  lemma TwoWrongsCanMatch(x: string, y: string, z: string, k: string, l: string)
    requires x != "" && Plain(x) && y != "" && Plain(y) && NoStartIn(x, y + z, y + z)
    requires Bracketed(k) && Bracketed(l) && k != l && !Contains(l, x)
    ensures var s, plan, table := x + (y + z), [Sub(y + z, l), Sub(x, k)], map[k := x + y, l := z];
      && UnmaskText(MaskText(s, plan), [k, l], table) == s
      && UsedSub(s, plan, plan[0]) && table[l] != y + z
      && UsedSub(s, plan, plan[1]) && table[k] != x
  {
    BothPutIn(x, y + z, k, l);
    BothRead(k, l, map[k := x + y, l := z]);
    Regroup(x, y, z);
  }
}
