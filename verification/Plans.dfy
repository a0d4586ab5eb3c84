/** A masking plan: the replacements a run performs, in order, and what they make of a
    text and of a row. Shared by both masking stages. */
module Plans {
  import opened Text
  import opened Nests
  import opened Reading
  import opened Ordering

  function MaskText(s: string, plan: seq<Sub>): string
    decreases |plan|
  {
    if plan == [] then s else MaskText(Replace(s, plan[0].lit, plan[0].key), plan[1..])
  }

  function UnmaskText(s: string, order: seq<string>, table: map<string, string>): string
    requires forall k :: k in order ==> k in table
    decreases |order|
  {
    if order == [] then s
    else UnmaskText(Replace(s, order[0], table[order[0]]), order[1..], table)
  }

  /** Every literal is bracket-free and non-empty and every key is a placeholder. */
  ghost predicate Shaped(plan: seq<Sub>) {
    forall e :: e in plan ==> ShapedSub(e)
  }

  /** No literal lies inside any placeholder of the plan. */
  ghost predicate Isolated(plan: seq<Sub>) {
    forall e, f :: e in plan && f in plan ==> !Contains(f.key, e.lit)
  }

  /** The table gives back, for every key of the plan, the literal it stands for. */
  ghost predicate Reads(table: map<string, string>, plan: seq<Sub>) {
    forall e :: e in plan ==> e.key in table && table[e.key] == e.lit
  }

  ghost function Keys(plan: seq<Sub>): set<string> {
    set e | e in plan :: e.key
  }

  /** The order a table is read back in: all keys of the plan, each once. */
  ghost predicate Covers(order: seq<string>, table: map<string, string>, plan: seq<Sub>) {
    && Distinct(order)
    && (forall k :: k in order <==> k in table)
    && (forall k :: k in table ==> k in Keys(plan))
    && Reads(table, plan)
  }

  /** The `i`-th replacement finds its literal in what the earlier ones made of `s`. */
  ghost predicate Used(s: string, plan: seq<Sub>, i: nat) {
    i < |plan| && Contains(MaskText(s, plan[..i]), plan[i].lit)
  }

  /** Whatever the plan puts into `t` is read back before the `hi`-th key. */
  ghost predicate Room(t: string, plan: seq<Sub>, order: seq<string>, hi: nat) {
    forall i: nat :: Used(t, plan, i) ==> Rank(order, plan[i].key) < hi
  }

  /** Wherever a later literal is found inside a placeholder already put in, the
      placeholder that replaces it there is read back first. */
  ghost predicate InnerFirst(order: seq<string>, plan: seq<Sub>, s: string) {
    forall j: nat :: Used(s, plan, j) ==> InTime(order, plan, j)
  }

  /** Whatever the plan goes on to put into its `j`-th placeholder is read before that. */
  ghost predicate InTime(order: seq<string>, plan: seq<Sub>, j: nat)
    requires j < |plan|
  {
    Room(plan[j].key, plan[j + 1..], order, Rank(order, plan[j].key))
  }

  /** A text that spells the key `k` is cut up by some replacement that is not undone
      before `k` is read. */
  ghost predicate Shielded(order: seq<string>, plan: seq<Sub>, k: string) {
    exists i: nat :: Used(k, plan, i) && !Before(order, plan[i].key, k)
  }

  // ---- steps of a plan ---------------------------------------------------

  lemma MaskTextCons(s: string, e: Sub, rest: seq<Sub>)
    ensures MaskText(s, [e] + rest) == MaskText(Replace(s, e.lit, e.key), rest)
  {
    assert ([e] + rest)[1..] == rest;
  }

  lemma {:induction false} MaskTextConcat(s: string, a: seq<Sub>, b: seq<Sub>)
    ensures MaskText(s, a + b) == MaskText(MaskText(s, a), b)
    decreases |a|
  {
    if a == [] {
      assert a + b == b;
    } else {
      assert (a + b)[1..] == a[1..] + b;
      MaskTextConcat(Replace(s, a[0].lit, a[0].key), a[1..], b);
    }
  }

  lemma UsedFirst(s: string, plan: seq<Sub>)
    requires plan != []
    ensures Used(s, plan, 0) <==> Contains(s, plan[0].lit)
  {
    assert plan[..0] == [];
  }

  lemma UsedNext(s: string, plan: seq<Sub>, i: nat)
    requires plan != []
    ensures Used(s, plan, i + 1) <==> Used(Replace(s, plan[0].lit, plan[0].key), plan[1..], i)
  {
    if i + 1 < |plan| {
      assert plan[..i + 1] == [plan[0]] + plan[1..][..i];
      MaskTextCons(s, plan[0], plan[1..][..i]);
    }
  }

  /** Parts that a bracket keeps apart are masked apart. */
  lemma {:induction false} MaskTextSplit(a: string, k: string, b: string, plan: seq<Sub>)
    requires Shaped(plan) && k != "" && k[0] == '<' && k[|k| - 1] == '>'
    ensures MaskText(a + k + b, plan) == MaskText(a, plan) + MaskText(k, plan) + MaskText(b, plan)
    decreases |plan|
  {
    if plan != [] {
      var e := plan[0];
      assert e in plan;
      ReplaceBrackets(a, k, b, e);
      BracketsStay(k, e);
      MaskTextSplit(Replace(a, e.lit, e.key), Replace(k, e.lit, e.key), Replace(b, e.lit, e.key), plan[1..]);
    }
  }

  lemma ReplaceBrackets(a: string, k: string, b: string, e: Sub)
    requires ShapedSub(e) && k != "" && k[0] == '<' && k[|k| - 1] == '>'
    ensures Replace(a + k + b, e.lit, e.key)
         == Replace(a, e.lit, e.key) + Replace(k, e.lit, e.key) + Replace(b, e.lit, e.key)
  {
    StartsApart(a, k, e.lit);
    ReplaceSplit(a, k, e.lit, e.key);
    assert (a + k)[|a + k| - 1] == '>';
    EndsApart(a + k, b, e.lit);
    ReplaceSplit(a + k, b, e.lit, e.key);
  }

  lemma BracketsStay(k: string, e: Sub)
    requires ShapedSub(e) && k != "" && k[0] == '<' && k[|k| - 1] == '>'
    ensures var r := Replace(k, e.lit, e.key); r != "" && r[0] == '<' && r[|r| - 1] == '>'
  {
    var front, last := k[..|k| - 1], k[|k| - 1..];
    assert k == front + last && last == ">";
    StartsApart(front, last, e.lit);
    ReplaceSplit(front, last, e.lit, e.key);
    LoneStays('>', e);
    assert k == [k[0]] + k[1..];
    if StartsWith(k, e.lit) { StartsWithAt(k, e.lit); }
    ReplaceStep(k[0], k[1..], e.lit, e.key);
  }

  lemma LoneStays(c: char, e: Sub)
    requires ShapedSub(e) && (c == '<' || c == '>')
    ensures Replace([c], e.lit, e.key) == [c]
  {
    if StartsWith([c], e.lit) { StartsWithAt([c], e.lit); }
    assert [c] == [c] + "";
    ReplaceStep(c, "", e.lit, e.key);
  }

  // ---- the plan on rows ----------------------------------------------------

  /** What the replacements make of a row. */
  function MaskRows(ns: Row, plan: seq<Sub>): Row
    requires forall e :: e in plan ==> e.lit != ""
    decreases |plan|
  {
    if plan == [] then ns else MaskRows(MaskRow(ns, plan[0]), plan[1..])
  }

  /** Masking a text is masking its row, and the row goes on standing for the text. */
  lemma {:induction false} MaskRowsKeep(ns: Row, plan: seq<Sub>)
    requires Shaped(plan) && Formed(ns)
    ensures var r := MaskRows(ns, plan);
      Formed(r) && Expand(r) == Expand(ns) && Render(r) == MaskText(Render(ns), plan)
    decreases |plan|
  {
    if plan != [] {
      assert plan[0] in plan;
      MaskExpands(ns, plan[0]);
      MaskRenders(ns, plan[0]);
      MaskRowsKeep(MaskRow(ns, plan[0]), plan[1..]);
    }
  }

  lemma {:induction false} MaskRowsRead(ns: Row, plan: seq<Sub>, table: map<string, string>)
    requires Shaped(plan) && ReadsAs(ns, table) && Reads(table, plan)
    ensures ReadsAs(MaskRows(ns, plan), table)
    decreases |plan|
  {
    if plan != [] {
      assert plan[0] in plan;
      MaskReads(ns, plan[0], table);
      MaskRowsRead(MaskRow(ns, plan[0]), plan[1..], table);
    }
  }

  lemma {:induction false} MaskReads(ns: Row, e: Sub, table: map<string, string>)
    requires ReadsAs(ns, table) && e.lit != "" && e.key in table && table[e.key] == e.lit
    ensures ReadsAs(MaskRow(ns, e), table)
  {
    if ns != [] {
      if RawPrefix(ns, e.lit) {
        assert ns == ns[..|e.lit|] + ns[|e.lit|..];
        ReadsConcat(ns[..|e.lit|], ns[|e.lit|..], table);
        MaskReads(ns[|e.lit|..], e, table);
        RawsRead(e.key, table);
        SingleReads(Sym(e, Raws(e.key)), table);
        ReadsConcat([Sym(e, Raws(e.key))], MaskRow(ns[|e.lit|..], e), table);
      } else {
        MaskReads(ns[1..], e, table);
        if ns[0].Sym? { MaskReads(ns[0].body, e, table); }
        SingleReads(MaskNode(ns[0], e), table);
        ReadsConcat([MaskNode(ns[0], e)], MaskRow(ns[1..], e), table);
      }
    }
  }

  // ---- which rows are good -------------------------------------------------

  lemma RoomCons(t: string, plan: seq<Sub>, order: seq<string>, hi: nat)
    requires plan != []
    ensures Room(t, plan, order, hi)
       <==> (Contains(t, plan[0].lit) ==> Rank(order, plan[0].key) < hi)
            && Room(Replace(t, plan[0].lit, plan[0].key), plan[1..], order, hi)
  {
    var e, rest := plan[0], plan[1..];
    var t' := Replace(t, e.lit, e.key);
    UsedFirst(t, plan);
    if Room(t, plan, order, hi) {
      forall i: nat | Used(t', rest, i) ensures Rank(order, rest[i].key) < hi {
        UsedNext(t, plan, i);
        assert rest[i] == plan[i + 1];
      }
    }
    if (Contains(t, e.lit) ==> Rank(order, e.key) < hi) && Room(t', rest, order, hi) {
      forall i: nat | Used(t, plan, i) ensures Rank(order, plan[i].key) < hi {
        if i > 0 {
          UsedNext(t, plan, i - 1);
          assert rest[i - 1] == plan[i];
        }
      }
    }
  }

  /** Every placeholder of the row is read before `hi` and after whatever the plan will
      put into it; and so for those inside. */
  ghost predicate RoomyNode(n: Node, plan: seq<Sub>, order: seq<string>, hi: nat) {
    n.Sym? ==>
      && Rank(order, n.e.key) < hi
      && Room(Render(n.body), plan, order, Rank(order, n.e.key))
      && Roomy(n.body, plan, order, Rank(order, n.e.key))
  }

  ghost predicate Roomy(ns: Row, plan: seq<Sub>, order: seq<string>, hi: nat) {
    ns == [] || (RoomyNode(ns[0], plan, order, hi) && Roomy(ns[1..], plan, order, hi))
  }

  lemma {:induction false} RawsRoomy(s: string, plan: seq<Sub>, order: seq<string>, hi: nat)
    ensures Roomy(Raws(s), plan, order, hi)
  {
    if s != "" {
      assert Raws(s)[1..] == Raws(s[1..]);
      RawsRoomy(s[1..], plan, order, hi);
    }
  }

  lemma {:induction false} RoomyConcat(a: Row, b: Row, plan: seq<Sub>, order: seq<string>, hi: nat)
    ensures Roomy(a + b, plan, order, hi) <==> Roomy(a, plan, order, hi) && Roomy(b, plan, order, hi)
  {
    if a == [] {
      assert a + b == b;
    } else {
      assert (a + b)[1..] == a[1..] + b;
      RoomyConcat(a[1..], b, plan, order, hi);
    }
  }

  lemma {:induction false} NoPlanRoomy(ns: Row, order: seq<string>, hi: nat)
    ensures Roomy(ns, [], order, hi) <==> Good(ns, order, 0, hi)
  {
    if ns != [] {
      NoPlanRoomy(ns[1..], order, hi);
      if ns[0].Sym? { NoPlanRoomy(ns[0].body, order, Rank(order, ns[0].e.key)); }
    }
  }

  /** The first replacement, if it finds its literal, must be in time itself and leave
      time for what will be put into its placeholder. */
  ghost predicate FirstFits(t: string, plan: seq<Sub>, order: seq<string>, hi: nat)
    requires plan != []
  {
    Contains(t, plan[0].lit) ==>
      Rank(order, plan[0].key) < hi && Room(plan[0].key, plan[1..], order, Rank(order, plan[0].key))
  }

  lemma {:induction false} RoomyStep(ns: Row, plan: seq<Sub>, order: seq<string>, hi: nat)
    requires plan != [] && ShapedSub(plan[0]) && Formed(ns)
    ensures Roomy(MaskRow(ns, plan[0]), plan[1..], order, hi)
       <==> Roomy(ns, plan, order, hi) && FirstFits(Render(ns), plan, order, hi)
  {
    var e, rest := plan[0], plan[1..];
    if ns == [] {
      assert !Contains("", e.lit);
    } else if RawPrefix(ns, e.lit) {
      RunStep(ns, plan, order, hi);
      RoomyStep(ns[|e.lit|..], plan, order, hi);
    } else {
      RoomyStep(ns[1..], plan, order, hi);
      if ns[0].Sym? { RoomyStep(ns[0].body, plan, order, Rank(order, ns[0].e.key)); }
      HeadStep(ns, plan, order, hi);
    }
  }

  /** A run that is replaced. */
  lemma RunStep(ns: Row, plan: seq<Sub>, order: seq<string>, hi: nat)
    requires plan != [] && ShapedSub(plan[0]) && Formed(ns) && ns != [] && RawPrefix(ns, plan[0].lit)
    ensures var n := |plan[0].lit|;
      && Formed(ns[n..]) && Contains(Render(ns), plan[0].lit)
      && (Roomy(ns, plan, order, hi) <==> Roomy(ns[n..], plan, order, hi))
      && (Roomy(MaskRow(ns, plan[0]), plan[1..], order, hi)
          <==> FirstFits(plan[0].lit, plan, order, hi) && Roomy(MaskRow(ns[n..], plan[0]), plan[1..], order, hi))
      && Contains(plan[0].lit, plan[0].lit)
  {
    var lit := plan[0].lit;
    RawPrefixSplit(ns, lit);
    RunHasRoom(ns, lit, plan, order, hi);
    assert OccursAt(lit, lit, 0) && OccursAt(Render(ns), lit, 0);
    NewHasRoom(plan, MaskRow(ns[|lit|..], plan[0]), order, hi);
  }

  lemma RunHasRoom(ns: Row, lit: string, plan: seq<Sub>, order: seq<string>, hi: nat)
    requires RawPrefix(ns, lit)
    ensures Roomy(ns, plan, order, hi) <==> Roomy(ns[|lit|..], plan, order, hi)
  {
    assert ns == Raws(lit) + ns[|lit|..];
    RawsRoomy(lit, plan, order, hi);
    RoomyConcat(Raws(lit), ns[|lit|..], plan, order, hi);
  }

  /** The placeholder just put in front. */
  lemma NewHasRoom(plan: seq<Sub>, tail: Row, order: seq<string>, hi: nat)
    requires plan != [] && Contains(plan[0].lit, plan[0].lit)
    ensures var head := Sym(plan[0], Raws(plan[0].key));
      (Roomy([head] + tail, plan[1..], order, hi)
       <==> FirstFits(plan[0].lit, plan, order, hi) && Roomy(tail, plan[1..], order, hi))
  {
    var key, head := plan[0].key, Sym(plan[0], Raws(plan[0].key));
    RawsRender(key);
    RawsRoomy(key, plan[1..], order, Rank(order, key));
    assert ([head] + tail)[1..] == tail;
  }

  /** A character or placeholder that stays. */
  lemma HeadStep(ns: Row, plan: seq<Sub>, order: seq<string>, hi: nat)
    requires plan != [] && ShapedSub(plan[0]) && Formed(ns) && ns != [] && !RawPrefix(ns, plan[0].lit)
    requires Roomy(MaskRow(ns[1..], plan[0]), plan[1..], order, hi)
        <==> Roomy(ns[1..], plan, order, hi) && FirstFits(Render(ns[1..]), plan, order, hi)
    requires ns[0].Sym? ==> var r := Rank(order, ns[0].e.key);
      (Roomy(MaskRow(ns[0].body, plan[0]), plan[1..], order, r)
       <==> Roomy(ns[0].body, plan, order, r) && FirstFits(Render(ns[0].body), plan, order, r))
    ensures Roomy(MaskRow(ns, plan[0]), plan[1..], order, hi)
       <==> Roomy(ns, plan, order, hi) && FirstFits(Render(ns), plan, order, hi)
  {
    var e, rest := plan[0], plan[1..];
    var head, tail := MaskNode(ns[0], e), MaskRow(ns[1..], e);
    assert ([head] + tail)[1..] == tail;
    match ns[0]
    case Raw(c) =>
      assert Render(ns) == [c] + Render(ns[1..]);
      ContainsTail(c, Render(ns[1..]), e.lit);
      if StartsWith(Render(ns), e.lit) { StartIsRaw(ns, e.lit); }
    case Sym(f, body) =>
      BodyRenders(body, f.key);
      ContainsApart(Render(body), Render(ns[1..]), e.lit);
      MaskRenders(body, e);
      RoomCons(Render(body), plan, order, Rank(order, f.key));
  }

  lemma ContainsApart(a: string, b: string, lit: string)
    requires lit != "" && Plain(lit) && a != "" && a[|a| - 1] == '>'
    ensures Contains(a + b, lit) <==> Contains(a, lit) || Contains(b, lit)
  {
    var s := a + b;
    if Contains(a, lit) {
      ContainsFront(a, b, lit);
    }
    ContainsBehind(a, b, lit);
    if Contains(s, lit) {
      var i: nat :| i <= |s| && OccursAt(s, lit, i);
      if i >= |a| {
        assert b[i - |a|..i - |a| + |lit|] == s[i..i + |lit|];
        assert OccursAt(b, lit, i - |a|);
      } else {
        assert s[i..] == a[i..] + b;
        assert s[i..][..|lit|] == s[i..i + |lit|];
        EndsApart(a, b, lit);
        assert a[i..i + |lit|] == s[i..i + |lit|];
        assert OccursAt(a, lit, i);
      }
    }
  }

  lemma ContainsFront(a: string, b: string, lit: string)
    requires Contains(a, lit)
    ensures Contains(a + b, lit)
  {
    var i: nat :| i <= |a| && OccursAt(a, lit, i);
    assert (a + b)[i..i + |lit|] == a[i..i + |lit|];
    assert OccursAt(a + b, lit, i);
  }

  /** In time at every step. */
  ghost predicate AllFit(t: string, plan: seq<Sub>, order: seq<string>, hi: nat)
    decreases |plan|
  {
    plan == [] || (FirstFits(t, plan, order, hi) && AllFit(Replace(t, plan[0].lit, plan[0].key), plan[1..], order, hi))
  }

  lemma {:induction false} RoomyGood(ns: Row, plan: seq<Sub>, order: seq<string>, hi: nat)
    requires Shaped(plan) && Formed(ns)
    ensures Good(MaskRows(ns, plan), order, 0, hi) <==> Roomy(ns, plan, order, hi) && AllFit(Render(ns), plan, order, hi)
    decreases |plan|
  {
    if plan == [] {
      NoPlanRoomy(ns, order, hi);
    } else {
      assert plan[0] in plan;
      MaskExpands(ns, plan[0]);
      MaskRenders(ns, plan[0]);
      RoomyGood(MaskRow(ns, plan[0]), plan[1..], order, hi);
      RoomyStep(ns, plan, order, hi);
    }
  }

  /** The same, place by place. */
  lemma {:induction false} AllFitIff(t: string, plan: seq<Sub>, order: seq<string>, hi: nat)
    ensures AllFit(t, plan, order, hi) <==> Room(t, plan, order, hi) && InnerFirst(order, plan, t)
    decreases |plan|
  {
    if plan != [] {
      AllFitIff(Replace(t, plan[0].lit, plan[0].key), plan[1..], order, hi);
      RoomCons(t, plan, order, hi);
      InnerFirstCons(t, plan, order);
    }
  }

  lemma InnerFirstCons(t: string, plan: seq<Sub>, order: seq<string>)
    requires plan != []
    ensures InnerFirst(order, plan, t)
       <==> (Contains(t, plan[0].lit) ==> Room(plan[0].key, plan[1..], order, Rank(order, plan[0].key)))
            && InnerFirst(order, plan[1..], Replace(t, plan[0].lit, plan[0].key))
  {
    var t', rest := Replace(t, plan[0].lit, plan[0].key), plan[1..];
    UsedFirst(t, plan);
    if InnerFirst(order, plan, t) {
      assert Used(t, plan, 0) ==> InTime(order, plan, 0);
      forall j: nat | Used(t', rest, j) ensures InTime(order, rest, j) {
        UsedNext(t, plan, j);
        InTimeNext(order, plan, j);
      }
    }
    if (Used(t, plan, 0) ==> InTime(order, plan, 0)) && InnerFirst(order, rest, t') {
      forall j: nat | Used(t, plan, j) ensures InTime(order, plan, j) {
        if j > 0 {
          UsedNext(t, plan, j - 1);
          InTimeNext(order, plan, j - 1);
        }
      }
    }
  }

  lemma InTimeNext(order: seq<string>, plan: seq<Sub>, j: nat)
    requires j + 1 < |plan|
    ensures InTime(order, plan, j + 1) <==> InTime(order, plan[1..], j)
  {
    assert plan[1..][j + 1..] == plan[j + 1 + 1..] && plan[1..][j] == plan[j + 1];
  }

  /** Which masked texts are good. */
  lemma MaskedGood(s: string, plan: seq<Sub>, order: seq<string>, hi: nat)
    requires Shaped(plan)
    ensures Good(MaskRows(Raws(s), plan), order, 0, hi) <==> Room(s, plan, order, hi) && InnerFirst(order, plan, s)
  {
    RawsRender(s);
    RawsRoomy(s, plan, order, hi);
    RoomyGood(Raws(s), plan, order, hi);
    AllFitIff(s, plan, order, hi);
  }
}
