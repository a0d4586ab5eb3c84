/** src/mesh/rehydrator.py: putting the real names back, and the proof that it
    undoes both masking stages. */
module Rehydrator {
  import opened Text
  import opened Nests
  import opened Reading
  import opened Plans
  import opened Masking
  import opened Schemas
  import opened Ordering
  import opened Pseudonymizer

  function Rehydrated(text: string, m: Mapping): string
    requires m.Valid()
  {
    KeysLongestFirstCovers(m);
    UnmaskText(text, m.KeysLongestFirst(), m.table)
  }

  /** Testing first whether the key occurs makes no difference. */
  lemma RehydrateStep(out: string, keys: seq<string>, i: nat, table: map<string, string>)
    requires i < |keys| && forall k :: k in keys ==> k in table
    ensures UnmaskText(out, keys[i..], table) == UnmaskText(Replace(out, keys[i], table[keys[i]]), keys[i + 1..], table)
    ensures !Contains(out, keys[i]) ==> Replace(out, keys[i], table[keys[i]]) == out
  {
    assert keys[i..][0] == keys[i] && keys[i..][1..] == keys[i + 1..];
    if !Contains(out, keys[i]) {
      assert OccursAt(out, "", 0);
      ReplaceAbsent(out, keys[i], table[keys[i]]);
    }
  }

  method RehydrateText(text: string, m: Mapping) returns (out: string)
    requires m.Valid()
    ensures out == Rehydrated(text, m)
  {
    KeysLongestFirstCovers(m);
    var keys := m.KeysLongestFirst();
    out := text;
    for i := 0 to |keys|
      invariant UnmaskText(out, keys[i..], m.table) == Rehydrated(text, m)
    {
      RehydrateStep(out, keys, i, m.table);
      if Contains(out, keys[i]) { out := Replace(out, keys[i], m.table[keys[i]]); }
    }
    assert keys[|keys|..] == [];
  }

  // ---- what has been issued --------------------------------------------

  lemma LastUnderscore(p: string, d: string)
    requires '_' !in d
    ensures forall i :: |p| < i < |p + "_" + d| ==> (p + "_" + d)[i] != '_'
  {
    forall i | |p| < i < |p + "_" + d| ensures (p + "_" + d)[i] != '_' {
      assert (p + "_" + d)[i] == d[i - |p| - 1];
    }
  }

  /** The last underscore of a text is found from its right end. */
  lemma SplitLast(p: string, d: string, q: string, e: string)
    requires p + "_" + d == q + "_" + e && '_' !in d && '_' !in e
    ensures p == q && d == e
  {
    var a, b := p + "_" + d, q + "_" + e;
    assert a[|p|] == '_' && b[|q|] == '_';
    LastUnderscore(p, d);
    LastUnderscore(q, e);
    assert |p| == |q|;
    assert p == a[..|p|] && q == b[..|q|];
    assert d == a[|p| + 1..] && e == b[|q| + 1..];
  }

  /** Prefix and number can be read off a placeholder. */
  lemma PlaceholderInjective(p: string, m: nat, q: string, n: nat)
    requires Placeholder(p, m) == Placeholder(q, n)
    ensures p == q && m == n
  {
    var x, y := Placeholder(p, m), Placeholder(q, n);
    assert x[1..|x| - 1] == p + "_" + Decimal(m) && y[1..|y| - 1] == q + "_" + Decimal(n);
    assert '_' !in DIGITS;
    SplitLast(p, Decimal(m), q, Decimal(n));
    DecimalInjective(m, n);
  }

  lemma PlaceholderBracketed(p: string, n: nat)
    requires Plain(p)
    ensures Bracketed(Placeholder(p, n))
  {
    var x, d := Placeholder(p, n), Decimal(n);
    assert '<' !in DIGITS && '>' !in DIGITS;
    forall i | 0 < i < |x| - 1 ensures x[i] != '<' && x[i] != '>' {
      if i <= |p| { assert x[i] == p[i - 1]; }
      else if i == |p| + 1 { assert x[i] == '_'; }
      else { assert x[i] == d[i - |p| - 2]; }
    }
  }

  /** Literals are distinct, and numbers of one prefix strictly increase. */
  ghost predicate WellIssued(issued: seq<Issued>) {
    && (forall i, j :: 0 <= i < j < |issued| ==> Apart(issued[i], issued[j]))
    && (forall e :: e in issued ==> Counted(issued, e))
  }

  ghost predicate Apart(e: Issued, f: Issued) {
    e.lit != f.lit && (e.prefix == f.prefix ==> e.number < f.number)
  }

  ghost predicate Counted(issued: seq<Issued>, e: Issued) {
    1 <= e.number <= CountPrefix(issued, e.prefix)
  }

  lemma {:induction false} AssignedIs(issued: seq<Issued>)
    ensures forall l :: l in Assigned(issued) <==> exists e :: e in issued && e.lit == l
    ensures forall l :: l in Assigned(issued) ==>
      exists e :: e in issued && e.lit == l && e.Key() == Assigned(issued)[l]
  {
    if issued != [] {
      var front, e := issued[..|issued| - 1], issued[|issued| - 1];
      assert issued == front + [e];
      AssignedIs(front);
    }
  }

  lemma {:induction false} IssueFromWell(pairs: seq<(string, string)>, texts: seq<string>,
                                         technical: set<string>, issued: seq<Issued>)
    requires WellIssued(issued)
    ensures WellIssued(IssueFrom(pairs, texts, technical, issued))
    decreases |pairs|
  {
    if pairs != [] {
      if Wanted(pairs[0], texts, technical, issued) {
        IssueOneWell(pairs[0], texts, technical, issued);
        IssueFromWell(pairs[1..], texts, technical, issued + [Next(pairs[0], issued)]);
      } else {
        IssueFromWell(pairs[1..], texts, technical, issued);
      }
    }
  }

  /** Every literal issued is one that was asked for. */
  lemma {:induction false} IssuedFrom(pairs: seq<(string, string)>, texts: seq<string>,
                                      technical: set<string>, issued: seq<Issued>, e: Issued)
    requires e in IssueFrom(pairs, texts, technical, issued)
    ensures e in issued || (e.prefix, e.lit) in pairs
    decreases |pairs|
  {
    if pairs != [] {
      var more := if Wanted(pairs[0], texts, technical, issued) then issued + [Next(pairs[0], issued)] else issued;
      IssuedFrom(pairs[1..], texts, technical, more, e);
    }
  }

  lemma IssueOneWell(pair: (string, string), texts: seq<string>, technical: set<string>, issued: seq<Issued>)
    requires WellIssued(issued) && Wanted(pair, texts, technical, issued)
    ensures WellIssued(issued + [Next(pair, issued)])
  {
    AssignedIs(issued);
    assert forall f :: f in issued ==> f.lit != pair.1;
    OneMoreWell(issued, Next(pair, issued));
  }

  lemma OneMoreWell(issued: seq<Issued>, e: Issued)
    requires WellIssued(issued) && e.number == CountPrefix(issued, e.prefix) + 1
    requires forall f :: f in issued ==> f.lit != e.lit
    ensures WellIssued(issued + [e])
  {
    var all := issued + [e];
    forall i, j | 0 <= i < j < |all| ensures Apart(all[i], all[j]) {
      assert all[i] == issued[i] && issued[i] in issued && Counted(issued, issued[i]);
      if j < |issued| { assert Apart(issued[i], issued[j]); }
    }
    forall f | f in all ensures Counted(all, f) {
      IssuedOneMore(issued, e);
      assert f in issued || f == e;
    }
  }

  lemma KeysDistinct(issued: seq<Issued>)
    requires WellIssued(issued)
    ensures forall e, f :: e in issued && f in issued && e.Key() == f.Key() ==> e == f
  {
    forall e, f | e in issued && f in issued && e.Key() == f.Key() ensures e == f {
      PlaceholderInjective(e.prefix, e.number, f.prefix, f.number);
      var i :| 0 <= i < |issued| && issued[i] == e;
      var j :| 0 <= j < |issued| && issued[j] == f;
    }
  }

  /** The table holds the keys issued, no others, and says for each its literal. */
  ghost predicate TableFits(issued: seq<Issued>, m: Mapping) {
    && m.Valid()
    && (forall k :: k in m.table <==> exists e :: e in issued && e.Key() == k)
    && (forall e :: e in issued ==> e.Key() in m.table && m.table[e.Key()] == e.lit)
  }

  lemma {:induction false} TableIs(issued: seq<Issued>)
    requires WellIssued(issued)
    ensures TableFits(issued, Table(issued))
  {
    if issued != [] {
      var front, e := issued[..|issued| - 1], issued[|issued| - 1];
      assert issued == front + [e];
      FrontWell(front, e);
      TableIs(front);
      KeysDistinct(issued);
      TableStep(front, e, Table(front));
    }
  }

  lemma TableStep(front: seq<Issued>, e: Issued, m: Mapping)
    requires TableFits(front, m) && forall f :: f in front && f.Key() == e.Key() ==> f == e
    ensures TableFits(front + [e], m.Put(e.Key(), e.lit))
  {
    PutValid(m, e.Key(), e.lit);
    var r := m.Put(e.Key(), e.lit);
    forall k ensures k in r.table <==> exists f :: f in front + [e] && f.Key() == k {
      if k in r.table {
        if k == e.Key() {
          assert e in front + [e];
        } else {
          var f :| f in front && f.Key() == k;
          assert f in front + [e];
        }
      }
    }
  }

  lemma FrontWell(front: seq<Issued>, e: Issued)
    requires WellIssued(front + [e])
    ensures WellIssued(front)
  {
    var all := front + [e];
    forall i, j | 0 <= i < j < |front| ensures Apart(front[i], front[j]) {
      assert Apart(all[i], all[j]);
    }
    forall f | f in front ensures Counted(front, f) {
      IssuedOneMore(front, e);
      var i :| 0 <= i < |front| && front[i] == f;
      assert f in all && Counted(all, f) && Apart(all[i], all[|front|]);
      if f.prefix == e.prefix { assert Counted(all, e) by { assert e in all; } }
    }
  }

  // ---- one stage: apply -------------------------------------------------

  /** Every literal that was given a placeholder, and every prefix, is free of
      angle brackets. */
  ghost predicate BracketFree(issued: seq<Issued>) {
    forall e :: e in issued ==> e.lit != "" && Plain(e.lit) && Plain(e.prefix)
  }

  lemma {:induction false} PlanOfIs(pairs: seq<(string, string)>, given: map<string, string>)
    ensures forall e :: e in PlanOf(pairs, given) ==> e.lit in given && e.key == given[e.lit]
    ensures forall p :: p in pairs && p.1 in given ==> Sub(p.1, given[p.1]) in PlanOf(pairs, given)
  {
    if pairs != [] {
      PlanOfIs(pairs[1..], given);
      assert pairs == [pairs[0]] + pairs[1..];
    }
  }

  /** A literal is issued once, so it is given its own placeholder. */
  lemma IssuedByLiteral(issued: seq<Issued>, e: Issued)
    requires WellIssued(issued) && e in issued
    ensures e.lit in Assigned(issued) && Assigned(issued)[e.lit] == e.Key()
  {
    AssignedIs(issued);
    var f :| f in issued && f.lit == e.lit && f.Key() == Assigned(issued)[e.lit];
    var i :| 0 <= i < |issued| && issued[i] == e;
    var j :| 0 <= j < |issued| && issued[j] == f;
    assert i == j;
  }

  /** The replacements of `apply` are exactly the placeholders it issued. */
  lemma BasePlanIs(texts: seq<string>, targets: Targets)
    ensures WellIssued(Issue(texts, targets))
    ensures forall e :: e in Issue(texts, targets) ==> e.AsSub() in BasePlan(texts, targets)
    ensures forall s :: s in BasePlan(texts, targets) ==>
      exists e :: e in Issue(texts, targets) && e.AsSub() == s
  {
    var pairs := targets.AllLiterals();
    var issued := Issue(texts, targets);
    var given := Assigned(issued);
    IssueFromWell(pairs, texts, targets.technical, []);
    AssignedIs(issued);
    PlanOfIs(pairs, given);
    forall e | e in issued ensures e.AsSub() in BasePlan(texts, targets) {
      IssuedFrom(pairs, texts, targets.technical, [], e);
      IssuedByLiteral(issued, e);
      assert Sub((e.prefix, e.lit).1, given[e.lit]) in BasePlan(texts, targets);
    }
    forall s | s in BasePlan(texts, targets)
      ensures exists e :: e in issued && e.AsSub() == s
    {
      var e :| e in issued && e.lit == s.lit && e.Key() == given[s.lit];
      assert e.AsSub() == s;
    }
  }

  /** What the table must look like for the theorem of `Masking` to apply. */
  ghost predicate Tabled(m: Mapping, plan: seq<Sub>) {
    m.Valid() && (forall k :: k in m.table <==> k in Keys(plan)) && Reads(m.table, plan)
  }

  lemma TabledCovers(m: Mapping, plan: seq<Sub>)
    requires Tabled(m, plan)
    ensures Covers(m.KeysLongestFirst(), m.table, plan)
  {
    KeysLongestFirstCovers(m);
  }

  lemma BaseTabled(texts: seq<string>, targets: Targets)
    ensures Tabled(Table(Issue(texts, targets)), BasePlan(texts, targets))
  {
    BasePlanIs(texts, targets);
    TableIs(Issue(texts, targets));
    FitsPlan(Issue(texts, targets), Table(Issue(texts, targets)), BasePlan(texts, targets));
  }

  /** A table that fits what was issued fits the plan of the same replacements. */
  lemma FitsPlan(issued: seq<Issued>, m: Mapping, plan: seq<Sub>)
    requires TableFits(issued, m)
    requires forall e :: e in issued ==> e.AsSub() in plan
    requires forall s :: s in plan ==> exists e :: e in issued && e.AsSub() == s
    ensures Tabled(m, plan)
  {
    forall k | k in m.table ensures k in Keys(plan) {
      var e :| e in issued && e.Key() == k;
      assert e.AsSub() in plan;
    }
    forall s | s in plan ensures s.key in m.table && m.table[s.key] == s.lit {
      var e :| e in issued && e.AsSub() == s;
    }
  }

  lemma BaseShaped(texts: seq<string>, targets: Targets)
    requires BracketFree(Issue(texts, targets))
    ensures Shaped(BasePlan(texts, targets))
  {
    BasePlanIs(texts, targets);
    forall s | s in BasePlan(texts, targets) ensures s.lit != "" && Plain(s.lit) && Bracketed(s.key) {
      var e :| e in Issue(texts, targets) && e.AsSub() == s;
      PlaceholderBracketed(e.prefix, e.number);
    }
  }

  /** The text holds none of the placeholders that were issued. */
  ghost predicate SpellsNone(text: string, m: Mapping) {
    forall k :: k in m.table ==> !Contains(text, k)
  }

  /** Every placeholder put into `s` is read back after those put inside it, and every
      placeholder `s` happens to spell is cut up by one that is read no earlier. */
  ghost predicate Restorable(s: string, plan: seq<Sub>, m: Mapping) {
    && InnerFirst(m.KeysLongestFirst(), plan, s)
    && forall k :: k in m.table && Contains(s, k) ==> Shielded(m.KeysLongestFirst(), plan, k)
  }

  /** The literal is left in what has become of a placeholder put into `s`. */
  ghost predicate LeftInside(s: string, plan: seq<Sub>, lit: string) {
    exists j: nat :: Used(s, plan, j) && Contains(MaskText(plan[j].key, plan[j + 1..]), lit)
  }

  /** Of two keys the longer is read first. */
  lemma LongerReadFirst(m: Mapping, k: string, l: string)
    requires m.Valid() && k in m.table && l in m.table && |k| > |l|
    ensures Before(m.KeysLongestFirst(), k, l)
  {
    KeysLongestFirstCovers(m);
    var order := m.KeysLongestFirst();
    assert order[Rank(order, k)] == k && order[Rank(order, l)] == l;
  }

  /** What holds of any plan with its table. */
  lemma TabledRoundTrip(s: string, plan: seq<Sub>, m: Mapping)
    requires Shaped(plan) && Tabled(m, plan)
    ensures Rehydrated(MaskText(s, plan), m) == s <==> Restorable(s, plan, m)
    ensures forall e :: e in plan ==> (Contains(MaskText(s, plan), e.lit) <==> LeftInside(s, plan, e.lit))
  {
    TabledCovers(m, plan);
    RoundTripIff(s, plan, m.KeysLongestFirst(), m.table);
    forall e | e in plan ensures Contains(MaskText(s, plan), e.lit) <==> LeftInside(s, plan, e.lit) {
      SurvivesIff(s, plan, e);
    }
  }

  lemma TabledIsolated(s: string, plan: seq<Sub>, m: Mapping)
    requires Shaped(plan) && Tabled(m, plan) && Isolated(plan)
    ensures Rehydrated(MaskText(s, plan), m) == s <==> SpellsNone(s, m)
    ensures forall e :: e in plan ==> !Contains(MaskText(s, plan), e.lit)
  {
    TabledCovers(m, plan);
    IsolatedRoundTripIff(s, plan, m.KeysLongestFirst(), m.table);
    forall e | e in plan ensures !Contains(MaskText(s, plan), e.lit) {
      NothingSurvives(s, plan, e);
    }
  }

  /** One stage: exactly which texts come back, and exactly which literals are left. */
  lemma ApplyRoundTripIff(texts: seq<string>, targets: Targets, i: nat)
    requires i < |texts| && BracketFree(Issue(texts, targets))
    ensures Applied(texts, targets).mapping.Valid()
    ensures var r, plan, s := Applied(texts, targets), BasePlan(texts, targets), Excerpt(texts[i]);
      && (Rehydrated(r.texts[i], r.mapping) == s <==> Restorable(s, plan, r.mapping))
      && (forall e :: e in plan ==> (Contains(r.texts[i], e.lit) <==> LeftInside(s, plan, e.lit)))
  {
    BaseShaped(texts, targets);
    BaseTabled(texts, targets);
    TabledRoundTrip(Excerpt(texts[i]), BasePlan(texts, targets), Applied(texts, targets).mapping);
  }

  /** When no literal lies inside a placeholder: just the texts that spell none of the
      issued placeholders, and no masked literal is left in any output. */
  lemma ApplyRoundTrip(texts: seq<string>, targets: Targets, i: nat)
    requires i < |texts|
    requires BracketFree(Issue(texts, targets)) && Isolated(BasePlan(texts, targets))
    ensures Applied(texts, targets).mapping.Valid()
    ensures var r := Applied(texts, targets);
      && (Rehydrated(r.texts[i], r.mapping) == Excerpt(texts[i]) <==> SpellsNone(Excerpt(texts[i]), r.mapping))
      && (forall e :: e in Issue(texts, targets) ==> !Contains(r.texts[i], e.lit))
  {
    BaseShaped(texts, targets);
    BaseTabled(texts, targets);
    TabledIsolated(Excerpt(texts[i]), BasePlan(texts, targets), Applied(texts, targets).mapping);
    BasePlanIs(texts, targets);
    var r := Applied(texts, targets);
    forall e | e in Issue(texts, targets) ensures !Contains(r.texts[i], e.lit) {
      assert e.AsSub() in BasePlan(texts, targets);
    }
  }

  // ---- two stages: apply_conservative -----------------------------------

  /** Both stages as one plan. */
  function WholePlan(texts: seq<string>, targets: Targets, proposals: Proposals): seq<Sub> {
    BasePlan(texts, targets) + CtxPlan(AcceptedSpans(texts, targets, proposals))
  }

  /** No placeholder of the first stage is one of the second stage's first `n`. */
  ghost predicate CtxFree(issued: seq<Issued>, n: nat) {
    forall e :: e in issued && e.prefix == "CTX" ==> e.number > n
  }

  lemma {:induction false} PutAllTabled(m: Mapping, base: seq<Sub>, plan: seq<Sub>)
    requires Tabled(m, base)
    requires forall i, j :: 0 <= i < j < |plan| ==> plan[i].key != plan[j].key
    requires forall e, f :: e in base && f in plan ==> e.key != f.key
    ensures Tabled(PutAll(m, plan), base + plan)
  {
    if plan == [] {
      assert base + plan == base;
    } else {
      var front, e := plan[..|plan| - 1], plan[|plan| - 1];
      PutAllTabled(m, base, front);
      assert base + plan == (base + front) + [e];
      assert forall f :: f in base + front ==> f.key != e.key;
      TabledOneMore(PutAll(m, front), base + front, e);
    }
  }

  lemma TabledOneMore(m: Mapping, plan: seq<Sub>, e: Sub)
    requires Tabled(m, plan) && forall f :: f in plan ==> f.key != e.key
    ensures Tabled(m.Put(e.key, e.lit), plan + [e])
  {
    PutValid(m, e.key, e.lit);
    assert Keys(plan + [e]) == Keys(plan) + {e.key};
  }

  /** Accepted spans carry no bracket, so only their placement can hurt. */
  lemma SpansPlain(texts: seq<string>, targets: Targets, proposals: Proposals)
    ensures forall s :: s in AcceptedSpans(texts, targets, proposals) ==> |s| >= 2 && Plain(s)
  {
    if proposals.Spans? {
      var joined := JoinLines(Applied(texts, targets).texts);
      var valid := AcceptFrom(proposals.spans, joined, targets.technical, []);
      AcceptFromDistinct(proposals.spans, joined, targets.technical, []);
      SortSpansSorts(valid);
      SameMembers(SortSpans(valid), valid);
    }
  }

  /** Second-stage placeholders differ from each other and from those of the first stage,
      unless a category is itself called `CTX`. */
  lemma CtxApart(spans: seq<string>, i: nat, prefix: string, n: nat)
    requires i < |spans|
    ensures CtxPlan(spans)[i].key == Placeholder(prefix, n) ==> prefix == "CTX" && n == i + 1
  {
    if CtxPlan(spans)[i].key == Placeholder(prefix, n) {
      PlaceholderInjective("CTX", i + 1, prefix, n);
    }
  }

  lemma WholeTabled(texts: seq<string>, targets: Targets, proposals: Proposals)
    requires CtxFree(Issue(texts, targets), |AcceptedSpans(texts, targets, proposals)|)
    ensures Tabled(Conservative(texts, targets, proposals).mapping, WholePlan(texts, targets, proposals))
  {
    var base := BasePlan(texts, targets);
    var spans := AcceptedSpans(texts, targets, proposals);
    var ctx := CtxPlan(spans);
    forall i, j | 0 <= i < j < |ctx| ensures ctx[i].key != ctx[j].key {
      CtxApart(spans, i, "CTX", j + 1);
    }
    forall e, f | e in base && f in ctx ensures e.key != f.key {
      BasePlanIs(texts, targets);
      var x :| x in Issue(texts, targets) && x.AsSub() == e;
      var j :| 0 <= j < |ctx| && ctx[j] == f;
      CtxApart(spans, j, x.prefix, x.number);
    }
    BaseTabled(texts, targets);
    PutAllTabled(Table(Issue(texts, targets)), base, ctx);
  }

  lemma CtxShaped(spans: seq<string>)
    requires forall s :: s in spans ==> |s| >= 2 && Plain(s)
    ensures Shaped(CtxPlan(spans))
  {
    forall e | e in CtxPlan(spans) ensures e.lit != "" && Plain(e.lit) && Bracketed(e.key) {
      var j :| 0 <= j < |spans| && CtxPlan(spans)[j] == e;
      assert spans[j] in spans;
      PlaceholderBracketed("CTX", j + 1);
    }
  }

  lemma WholeShaped(texts: seq<string>, targets: Targets, proposals: Proposals)
    requires BracketFree(Issue(texts, targets))
    ensures Shaped(WholePlan(texts, targets, proposals))
  {
    BaseShaped(texts, targets);
    SpansPlain(texts, targets, proposals);
    CtxShaped(AcceptedSpans(texts, targets, proposals));
  }

  lemma ConservativeText(texts: seq<string>, targets: Targets, proposals: Proposals, i: nat)
    requires i < |texts|
    ensures |Conservative(texts, targets, proposals).texts| == |texts|
    ensures Conservative(texts, targets, proposals).texts[i]
         == MaskText(Excerpt(texts[i]), WholePlan(texts, targets, proposals))
  {
    var ctx := CtxPlan(AcceptedSpans(texts, targets, proposals));
    MaskTextConcat(Excerpt(texts[i]), BasePlan(texts, targets), ctx);
  }

  lemma WholeFits(texts: seq<string>, targets: Targets, proposals: Proposals, i: nat)
    requires i < |texts| && BracketFree(Issue(texts, targets))
    requires CtxFree(Issue(texts, targets), |AcceptedSpans(texts, targets, proposals)|)
    ensures var r, plan := Conservative(texts, targets, proposals), WholePlan(texts, targets, proposals);
      && |r.texts| == |texts| && r.texts[i] == MaskText(Excerpt(texts[i]), plan)
      && Shaped(plan) && Tabled(r.mapping, plan)
  {
    ConservativeText(texts, targets, proposals, i);
    WholeTabled(texts, targets, proposals);
    WholeShaped(texts, targets, proposals);
  }

  /** Both stages, whatever spans the model proposes: exactly which texts come back, and
      exactly which literals and accepted spans are left. */
  lemma ConservativeRoundTripIff(texts: seq<string>, targets: Targets, proposals: Proposals, i: nat)
    requires i < |texts| && BracketFree(Issue(texts, targets))
    requires CtxFree(Issue(texts, targets), |AcceptedSpans(texts, targets, proposals)|)
    ensures var r := Conservative(texts, targets, proposals);
      |r.texts| == |texts| && r.mapping.Valid()
    ensures var r, plan, s := Conservative(texts, targets, proposals), WholePlan(texts, targets, proposals), Excerpt(texts[i]);
      && (Rehydrated(r.texts[i], r.mapping) == s <==> Restorable(s, plan, r.mapping))
      && (forall e :: e in plan ==> (Contains(r.texts[i], e.lit) <==> LeftInside(s, plan, e.lit)))
  {
    WholeFits(texts, targets, proposals, i);
    TabledRoundTrip(Excerpt(texts[i]), WholePlan(texts, targets, proposals), Conservative(texts, targets, proposals).mapping);
  }

  /** So a text that spells no issued placeholder comes back whenever each literal and each
      span that lies inside an earlier placeholder has its own placeholder read first. */
  lemma ConservativeRoundTrip(texts: seq<string>, targets: Targets, proposals: Proposals, i: nat)
    requires i < |texts| && BracketFree(Issue(texts, targets))
    requires CtxFree(Issue(texts, targets), |AcceptedSpans(texts, targets, proposals)|)
    requires EarlierRead(Conservative(texts, targets, proposals).mapping.KeysLongestFirst(), WholePlan(texts, targets, proposals))
    requires SpellsNone(Excerpt(texts[i]), Conservative(texts, targets, proposals).mapping)
    ensures var r := Conservative(texts, targets, proposals);
      |r.texts| == |texts| && r.mapping.Valid() && Rehydrated(r.texts[i], r.mapping) == Excerpt(texts[i])
  {
    var r, plan := Conservative(texts, targets, proposals), WholePlan(texts, targets, proposals);
    WholeFits(texts, targets, proposals, i);
    TabledCovers(r.mapping, plan);
    RoundTrip(Excerpt(texts[i]), plan, r.mapping.KeysLongestFirst(), r.mapping.table);
  }

  /** When no literal or span lies inside any placeholder: just the texts that spell none,
      and then no literal and no accepted span survives either. */
  lemma ConservativeIsolated(texts: seq<string>, targets: Targets, proposals: Proposals, i: nat)
    requires i < |texts| && BracketFree(Issue(texts, targets))
    requires CtxFree(Issue(texts, targets), |AcceptedSpans(texts, targets, proposals)|)
    requires Isolated(WholePlan(texts, targets, proposals))
    ensures var r := Conservative(texts, targets, proposals);
      && |r.texts| == |texts| && r.mapping.Valid()
      && (Rehydrated(r.texts[i], r.mapping) == Excerpt(texts[i]) <==> SpellsNone(Excerpt(texts[i]), r.mapping))
      && (forall e :: e in WholePlan(texts, targets, proposals) ==> !Contains(r.texts[i], e.lit))
  {
    WholeFits(texts, targets, proposals, i);
    TabledIsolated(Excerpt(texts[i]), WholePlan(texts, targets, proposals), Conservative(texts, targets, proposals).mapping);
  }

  // ---- numbering ---------------------------------------------------------

  /** The placeholders depend on which texts there are, not on their order or
      repetition. */
  lemma {:induction false} IssueFromOrderFree(pairs: seq<(string, string)>, texts: seq<string>, others: seq<string>,
                                              technical: set<string>, issued: seq<Issued>)
    requires forall t :: t in texts <==> t in others
    ensures IssueFrom(pairs, texts, technical, issued) == IssueFrom(pairs, others, technical, issued)
    decreases |pairs|
  {
    if pairs != [] {
      assert Appears(pairs[0].1, texts) <==> Appears(pairs[0].1, others);
      IssueFromOrderFree(pairs[1..], texts, others, technical,
        if Wanted(pairs[0], texts, technical, issued) then issued + [Next(pairs[0], issued)] else issued);
    }
  }

  lemma MappingOrderFree(texts: seq<string>, others: seq<string>, targets: Targets)
    requires forall t :: t in texts <==> t in others
    ensures Applied(texts, targets).mapping == Applied(others, targets).mapping
  {
    IssueFromOrderFree(targets.AllLiterals(), texts, others, targets.technical, []);
  }

  ghost predicate PlanDescending(plan: seq<Sub>) {
    forall i, j :: 0 <= i < j < |plan| ==> |plan[j].lit| <= |plan[i].lit|
  }

  lemma LongerNotInside(s: string, p: string)
    requires |s| <= |p| && s != p
    ensures !Contains(s, p)
  {
    forall i: nat | i <= |s| ensures !OccursAt(s, p, i) {
      assert s[0..|s|] == s;
    }
  }

  lemma MaskWhole(lit: string, key: string)
    requires lit != ""
    ensures Replace(lit, lit, key) == key && Contains(lit, lit)
  {
    assert lit[|lit|..] == "" && lit[..|lit|] == lit;
    assert Replace("", lit, key) == "";
    assert OccursAt(lit, lit, 0);
  }

  /** Longest first: a literal standing alone gets its own placeholder, even when
      shorter literals lie inside it. */
  lemma {:induction false} OwnPlaceholder(plan: seq<Sub>, e: Sub)
    requires Shaped(plan) && Isolated(plan) && e in plan && PlanDescending(plan)
    requires forall f :: f in plan && f.lit == e.lit ==> f == e
    ensures MaskText(e.lit, plan) == e.key
    decreases |plan|
  {
    var head, rest := plan[0], plan[1..];
    assert head in plan && forall f :: f in rest ==> f in plan;
    if head == e {
      MaskWhole(e.lit, e.key);
      Untouched(e.key, rest);
    } else {
      var j :| 0 <= j < |plan| && plan[j] == e;
      LongerNotInside(e.lit, head.lit);
      ReplaceAbsent(e.lit, head.lit, head.key);
      assert rest[j - 1] == e;
      OwnPlaceholder(rest, e);
    }
  }

  lemma {:induction false} Untouched(s: string, plan: seq<Sub>)
    requires forall f :: f in plan ==> f.lit != "" && !Contains(s, f.lit)
    ensures MaskText(s, plan) == s
    decreases |plan|
  {
    if plan != [] {
      assert plan[0] in plan;
      ReplaceAbsent(s, plan[0].lit, plan[0].key);
      Untouched(s, plan[1..]);
    }
  }

  lemma OnePerLiteral(texts: seq<string>, targets: Targets, e: Issued)
    requires e in Issue(texts, targets)
    ensures e.AsSub() in BasePlan(texts, targets)
    ensures forall f :: f in BasePlan(texts, targets) && f.lit == e.lit ==> f == e.AsSub()
  {
    BasePlanIs(texts, targets);
    forall f | f in BasePlan(texts, targets) && f.lit == e.lit ensures f == e.AsSub() {
      var x :| x in Issue(texts, targets) && x.AsSub() == f;
    }
  }

  /** So `apply` never leaves `<PROJ_1>-core` behind for a longer literal. */
  lemma LongLiteralWins(texts: seq<string>, targets: Targets, e: Issued)
    requires BracketFree(Issue(texts, targets)) && Isolated(BasePlan(texts, targets))
    requires e in Issue(texts, targets)
    ensures MaskText(e.lit, BasePlan(texts, targets)) == e.Key()
  {
    BaseShaped(texts, targets);
    BaseDescends(texts, targets);
    OnePerLiteral(texts, targets, e);
    OwnPlaceholder(BasePlan(texts, targets), e.AsSub());
  }

  lemma BaseDescends(texts: seq<string>, targets: Targets)
    ensures PlanDescending(BasePlan(texts, targets))
  {
    SortedAscends(Pairs(targets.targets), LongerLiteralFirst);
    PlanDescends(targets.AllLiterals(), Assigned(Issue(texts, targets)));
  }

  lemma {:induction false} PlanDescends(pairs: seq<(string, string)>, given: map<string, string>)
    requires Ascending(pairs, LongerLiteralFirst)
    ensures PlanDescending(PlanOf(pairs, given))
  {
    if pairs != [] {
      PlanDescends(pairs[1..], given);
      PlanOfShorter(pairs, given);
    }
  }

  lemma PlanOfShorter(pairs: seq<(string, string)>, given: map<string, string>)
    requires pairs != [] && Ascending(pairs, LongerLiteralFirst)
    ensures forall e :: e in PlanOf(pairs[1..], given) ==> |e.lit| <= |pairs[0].1|
  {
    forall e | e in PlanOf(pairs[1..], given) ensures |e.lit| <= |pairs[0].1| {
      PlanOfFrom(pairs[1..], given, e);
      var j :| 0 <= j < |pairs[1..]| && pairs[1..][j].1 == e.lit;
      assert LongerLiteralFirst(pairs[0], pairs[j + 1]);
    }
  }

  lemma {:induction false} PlanOfFrom(pairs: seq<(string, string)>, given: map<string, string>, e: Sub)
    requires e in PlanOf(pairs, given)
    ensures exists j :: 0 <= j < |pairs| && pairs[j].1 == e.lit
  {
    if pairs[0].1 != e.lit {
      PlanOfFrom(pairs[1..], given, e);
      var j :| 0 <= j < |pairs[1..]| && pairs[1..][j].1 == e.lit;
      assert pairs[j + 1].1 == e.lit;
    }
  }
}
