/** Two ways in which the second stage of src/mesh/pseudonymizer.py can spoil what the
    first stage put in: a span that lies inside a placeholder, and a category whose
    placeholders the second stage issues again. Each with its exact condition. */
module Collisions {
  import opened Sequences
  import opened Text
  import opened Nests
  import opened Reading
  import opened Restoring
  import opened Plans
  import opened Masking
  import opened Misreading
  import opened Schemas
  import opened Ordering
  import opened Whitespace
  import opened Pseudonymizer
  import opened Rehydrator

  // ---- one literal, one span inside its placeholder -------------------------

  /** A list of targets with a single literal. */
  function One(prefix: string, lit: string): Targets {
    Targets([(prefix, [lit])], {})
  }

  lemma OneLiteral(prefix: string, lit: string)
    ensures One(prefix, lit).AllLiterals() == [(prefix, lit)]
  {
    var t := One(prefix, lit);
    assert Pairs(t.targets[1..]) == [];
    assert Pairs(t.targets) == [(prefix, lit)];
    SortedStays(Pairs(t.targets), LongerLiteralFirst);
  }

  lemma OneIssued(prefix: string, lit: string, texts: seq<string>)
    requires Appears(lit, texts)
    ensures Issue(texts, One(prefix, lit)) == [Issued(prefix, 1, lit)]
    ensures Assigned([Issued(prefix, 1, lit)]) == map[lit := Placeholder(prefix, 1)]
    ensures Table([Issued(prefix, 1, lit)]) == Mapping([Placeholder(prefix, 1)], map[Placeholder(prefix, 1) := lit])
  {
    var pairs, e := [(prefix, lit)], Issued(prefix, 1, lit);
    OneLiteral(prefix, lit);
    assert Wanted(pairs[0], texts, {}, []) && Next(pairs[0], []) == e;
    assert pairs[1..] == [] && [] + [e] == [e];
    assert IssueFrom([], texts, {}, [e]) == [e];
    IssuedOneMore([], e);
  }

  lemma OnePlan(prefix: string, lit: string, texts: seq<string>)
    requires Appears(lit, texts)
    ensures BasePlan(texts, One(prefix, lit)) == [Sub(lit, Placeholder(prefix, 1))]
  {
    var given := map[lit := Placeholder(prefix, 1)];
    OneLiteral(prefix, lit);
    OneIssued(prefix, lit, texts);
    assert PlanOf([], given) == [];
    assert [(prefix, lit)][1..] == [];
  }

  lemma AppliedOne(prefix: string, lit: string, text: string)
    requires |text| <= EXCERPT_MAX_CHARS && Contains(text, lit)
    ensures Applied([text], One(prefix, lit)).texts == [Replace(text, lit, Placeholder(prefix, 1))]
  {
    var e := Sub(lit, Placeholder(prefix, 1));
    assert text in [text];
    OnePlan(prefix, lit, [text]);
    assert MaskText(text, [e]) == Replace(text, e.lit, e.key) by { assert [e][1..] == []; }
    assert Excerpt(text) == text;
  }

  lemma AcceptOne(raw: string, joined: string)
    requires Acceptable(Strip(raw), joined, {})
    ensures SortSpans(AcceptFrom([raw], joined, {}, [])) == [Strip(raw)]
  {
    var span := Strip(raw);
    assert [raw][1..] == [] && [] + [span] == [span];
    assert AcceptFrom([raw], joined, {}, []) == AcceptFrom([], joined, {}, [span]);
    assert [span][1..] == [] && Sorted([], SpanLe) == [];
  }

  /** What is put in for a literal that occurs is in the outcome, and so is all it holds. */
  lemma PutInShows(text: string, e: Sub, span: string)
    requires e.lit != "" && Contains(text, e.lit) && Contains(e.key, span)
    ensures Contains(Replace(text, e.lit, e.key), span)
  {
    var a, b := FirstSplit(text, e.lit);
    var tail := Replace(b, e.lit, e.key);
    ReplaceFirst(a, e, b);
    ContainsBehind(a, e.key, span);
    ContainsFront(a + e.key, tail, span);
  }

  /** The model's span lies inside the placeholder of the one literal. */
  ghost predicate InsidePlaceholder(prefix: string, lit: string, text: string, span: string) {
    && Plain(prefix) && prefix != "CTX" && lit != "" && Plain(lit)
    && |text| <= EXCERPT_MAX_CHARS && Contains(text, lit)
    && 2 <= |span| <= SPAN_MAX_CHARS && Plain(span) && Contains(Placeholder(prefix, 1), span)
  }

  lemma InsideAccepted(prefix: string, lit: string, text: string, raw: string)
    requires InsidePlaceholder(prefix, lit, text, Strip(raw))
    ensures AcceptedSpans([text], One(prefix, lit), Spans([raw])) == [Strip(raw)]
    ensures WholePlan([text], One(prefix, lit), Spans([raw]))
         == [Sub(lit, Placeholder(prefix, 1)), Sub(Strip(raw), Placeholder("CTX", 1))]
    ensures Conservative([text], One(prefix, lit), Spans([raw])).mapping
         == Mapping([Placeholder(prefix, 1)], map[Placeholder(prefix, 1) := lit]).Put(Placeholder("CTX", 1), Strip(raw))
  {
    var e, span := Sub(lit, Placeholder(prefix, 1)), Strip(raw);
    assert text in [text];
    AppliedOne(prefix, lit, text);
    PutInShows(text, e, span);
    AcceptOne(raw, Replace(text, lit, e.key));
    OneIssued(prefix, lit, [text]);
    OnePlan(prefix, lit, [text]);
    assert CtxPlan([span]) == [Sub(span, Placeholder("CTX", 1))];
    PutOneOnly(Table([Issued(prefix, 1, lit)]), Sub(span, Placeholder("CTX", 1)));
  }

  lemma PutOneOnly(m: Mapping, e: Sub)
    ensures PutAll(m, [e]) == m.Put(e.key, e.lit)
  {
    assert [e][..0] == [] && PutAll(m, []) == m;
  }

  /** Two keys: the longer is read first, and of equal ones the one issued first. */
  lemma TwoKeys(key: string, lit: string, ctx: string, span: string)
    requires key != ctx
    ensures var m := Mapping([key], map[key := lit]).Put(ctx, span);
      m.Valid() && (Before(m.KeysLongestFirst(), ctx, key) <==> |key| < |ctx|)
  {
    var m := Mapping([key], map[key := lit]).Put(ctx, span);
    assert m.order == [key, ctx];
    if |key| < |ctx| {
      LongerReadFirst(m, ctx, key);
    } else {
      SortedStays([key, ctx], LongerFirst);
      assert Rank([key, ctx], key) == 0;
    }
  }

  lemma TwoStepsInner(text: string, plan: seq<Sub>, order: seq<string>)
    requires |plan| == 2 && Contains(text, plan[0].lit) && Contains(plan[0].key, plan[1].lit)
    ensures InnerFirst(order, plan, text) <==> Before(order, plan[1].key, plan[0].key)
  {
    var rest := plan[1..];
    UsedFirst(text, plan);
    assert plan[0 + 1..] == rest && plan[1 + 1..] == [] && rest[0] == plan[1];
    UsedFirst(plan[0].key, rest);
    if InnerFirst(order, plan, text) {
      assert InTime(order, plan, 0) && Used(plan[0].key, rest, 0);
    }
    if Before(order, plan[1].key, plan[0].key) {
      forall j: nat | Used(text, plan, j) ensures InTime(order, plan, j) {
        assert j == 0 || j == 1;
      }
    }
  }

  /** An accepted span may lie inside a placeholder, for the code looks for it in the masked
      text. Then the text comes back just if the span's own placeholder is the longer one:
      it is then read back first, and mends the placeholder it was put into. */
  lemma SpanInsidePlaceholder(prefix: string, lit: string, text: string, raw: string)
    requires InsidePlaceholder(prefix, lit, text, Strip(raw))
    requires !Contains(text, Placeholder(prefix, 1)) && !Contains(text, Placeholder("CTX", 1))
    ensures var r := Conservative([text], One(prefix, lit), Spans([raw]));
      && |r.texts| == 1 && r.mapping.Valid()
      && (Rehydrated(r.texts[0], r.mapping) == text <==> |Placeholder(prefix, 1)| < |Placeholder("CTX", 1)|)
  {
    var key, ctx, span := Placeholder(prefix, 1), Placeholder("CTX", 1), Strip(raw);
    var plan := [Sub(lit, key), Sub(span, ctx)];
    assert text in [text];
    InsideAccepted(prefix, lit, text, raw);
    OneIssued(prefix, lit, [text]);
    ConservativeRoundTripIff([text], One(prefix, lit), Spans([raw]), 0);
    assert Excerpt(text) == text;
    if key == ctx { PlaceholderInjective(prefix, 1, "CTX", 1); }
    TwoKeys(key, lit, ctx, span);
    var m := Conservative([text], One(prefix, lit), Spans([raw])).mapping;
    assert m.table == map[key := lit, ctx := span];
    TwoStepsInner(text, plan, m.KeysLongestFirst());
  }

  // ---- a category called CTX --------------------------------------------------

  /** The second stage issues the placeholder of `e` again. */
  predicate Collides(e: Issued, spans: seq<string>) {
    e.prefix == "CTX" && 1 <= e.number <= |spans|
  }

  function CtxKey(i: nat): string {
    Placeholder("CTX", i + 1)
  }

  lemma CtxKeysApart(i: nat, j: nat)
    requires CtxKey(i) == CtxKey(j)
    ensures i == j
  {
    PlaceholderInjective("CTX", i + 1, "CTX", j + 1);
  }

  lemma CtxKeyOf(e: Issued, i: nat)
    requires e.Key() == CtxKey(i)
    ensures e.prefix == "CTX" && e.number == i + 1
  {
    PlaceholderInjective(e.prefix, e.number, "CTX", i + 1);
  }

  /** What numbering one more span does to the table. */
  lemma CtxLast(m: Mapping, spans: seq<string>)
    requires spans != []
    ensures var n := |spans| - 1;
      PutAll(m, CtxPlan(spans)).table == PutAll(m, CtxPlan(spans[..n])).table[CtxKey(n) := spans[n]]
  {
    assert CtxPlan(spans)[..|spans| - 1] == CtxPlan(spans[..|spans| - 1]);
  }

  lemma {:induction false} CtxRead(m: Mapping, spans: seq<string>, i: nat)
    requires i < |spans|
    ensures var table := PutAll(m, CtxPlan(spans)).table; CtxKey(i) in table && table[CtxKey(i)] == spans[i]
  {
    var n := |spans| - 1;
    CtxLast(m, spans);
    if i < n {
      CtxRead(m, spans[..n], i);
      if CtxKey(i) == CtxKey(n) { CtxKeysApart(i, n); }
    }
  }

  /** What the second stage does not issue again, the table keeps. */
  lemma {:induction false} CtxKeeps(m: Mapping, spans: seq<string>, e: Issued)
    requires e.Key() in m.table
    ensures var table := PutAll(m, CtxPlan(spans)).table;
      e.Key() in table && (e.prefix != "CTX" || e.number > |spans| ==> table[e.Key()] == m.table[e.Key()])
  {
    if spans != [] {
      var n := |spans| - 1;
      CtxLast(m, spans);
      CtxKeeps(m, spans[..n], e);
      if e.Key() == CtxKey(n) { CtxKeyOf(e, n); }
    }
  }

  lemma MappingIs(texts: seq<string>, targets: Targets, proposals: Proposals)
    ensures Conservative(texts, targets, proposals).mapping
         == PutAll(Table(Issue(texts, targets)), CtxPlan(AcceptedSpans(texts, targets, proposals)))
  {
  }

  /** The span takes over the placeholder in the table. */
  lemma CtxPrefixCollides(texts: seq<string>, targets: Targets, proposals: Proposals, e: Issued)
    requires e in Issue(texts, targets) && Collides(e, AcceptedSpans(texts, targets, proposals))
    ensures var m := Conservative(texts, targets, proposals).mapping;
      e.Key() in m.table && m.table[e.Key()] == AcceptedSpans(texts, targets, proposals)[e.number - 1]
  {
    MappingIs(texts, targets, proposals);
    CtxRead(Table(Issue(texts, targets)), AcceptedSpans(texts, targets, proposals), e.number - 1);
    assert e.Key() == CtxKey(e.number - 1);
  }

  /** A table un-masking works with. */
  ghost predicate Fits(m: Mapping) {
    m.Valid() && forall k :: k in m.table ==> Bracketed(k) && m.table[k] != "" && Plain(m.table[k])
  }

  lemma {:induction false} PutAllFits(m: Mapping, plan: seq<Sub>)
    requires Fits(m) && Shaped(plan)
    ensures Fits(PutAll(m, plan))
  {
    if plan != [] {
      var front, e := plan[..|plan| - 1], plan[|plan| - 1];
      assert e in plan;
      PutAllFits(m, front);
      PutValid(PutAll(m, front), e.key, e.lit);
    }
  }

  lemma IssuedFits(issued: seq<Issued>)
    requires WellIssued(issued) && BracketFree(issued)
    ensures Fits(Table(issued))
  {
    TableIs(issued);
    var m := Table(issued);
    forall k | k in m.table ensures Bracketed(k) && m.table[k] != "" && Plain(m.table[k]) {
      var e :| e in issued && e.Key() == k;
      PlaceholderBracketed(e.prefix, e.number);
    }
  }

  lemma IssuedReads(issued: seq<Issued>, spans: seq<string>, f: Issued)
    requires WellIssued(issued) && f in issued
    ensures var table := PutAll(Table(issued), CtxPlan(spans)).table;
      f.Key() in table && (table[f.Key()] == f.lit || Collides(f, spans))
  {
    TableIs(issued);
    CtxKeeps(Table(issued), spans, f);
    assert Counted(issued, f);
  }

  lemma SpanReads(m: Mapping, spans: seq<string>, x: Sub)
    requires x in CtxPlan(spans)
    ensures var table := PutAll(m, CtxPlan(spans)).table; x.key in table && table[x.key] == x.lit
  {
    var j :| 0 <= j < |spans| && CtxPlan(spans)[j] == x;
    CtxRead(m, spans, j);
    assert x == Sub(spans[j], CtxKey(j));
  }

  /** Everything but the collisions is read as it was meant. */
  lemma PlanReads(texts: seq<string>, targets: Targets, proposals: Proposals, x: Sub)
    requires x in WholePlan(texts, targets, proposals)
    ensures var m := Conservative(texts, targets, proposals).mapping;
      x.key in m.table && (m.table[x.key] == x.lit
        || exists f :: f in Issue(texts, targets) && f.AsSub() == x && Collides(f, AcceptedSpans(texts, targets, proposals)))
  {
    var issued, spans := Issue(texts, targets), AcceptedSpans(texts, targets, proposals);
    MappingIs(texts, targets, proposals);
    if x in BasePlan(texts, targets) {
      BasePlanIs(texts, targets);
      var f :| f in issued && f.AsSub() == x;
      IssuedReads(issued, spans, f);
    } else {
      SpanReads(Table(issued), spans, x);
    }
  }

  lemma MappingKeyed(texts: seq<string>, targets: Targets, proposals: Proposals)
    requires BracketFree(Issue(texts, targets))
    ensures var m := Conservative(texts, targets, proposals).mapping; m.Valid() && Keyed(m.KeysLongestFirst(), m.table)
  {
    var issued := Issue(texts, targets);
    BasePlanIs(texts, targets);
    IssuedFits(issued);
    WholeShaped(texts, targets, proposals);
    assert forall x :: x in CtxPlan(AcceptedSpans(texts, targets, proposals)) ==> x in WholePlan(texts, targets, proposals);
    PutAllFits(Table(issued), CtxPlan(AcceptedSpans(texts, targets, proposals)));
    MappingIs(texts, targets, proposals);
    KeysLongestFirstCovers(Conservative(texts, targets, proposals).mapping);
  }

  lemma {:induction false} PutAllKeys(m: Mapping, plan: seq<Sub>, k: string)
    requires k in PutAll(m, plan).table
    ensures k in m.table || k in Keys(plan)
  {
    if plan != [] {
      var front, e := plan[..|plan| - 1], plan[|plan| - 1];
      assert e in plan && forall f :: f in front ==> f in plan;
      if k != e.key { PutAllKeys(m, front, k); }
    }
  }

  lemma MappingKeys(texts: seq<string>, targets: Targets, proposals: Proposals, k: string)
    requires k in Conservative(texts, targets, proposals).mapping.table
    ensures k in Keys(WholePlan(texts, targets, proposals))
  {
    var issued, ctx := Issue(texts, targets), CtxPlan(AcceptedSpans(texts, targets, proposals));
    MappingIs(texts, targets, proposals);
    PutAllKeys(Table(issued), ctx, k);
    if k in Keys(ctx) {
      var x :| x in ctx && x.key == k;
      assert x in WholePlan(texts, targets, proposals);
    } else {
      BasePlanIs(texts, targets);
      TableIs(issued);
      var e :| e in issued && e.Key() == k;
      assert e.AsSub() in WholePlan(texts, targets, proposals);
    }
  }

  /** A span that takes over a placeholder is the literal itself, or does not hold it. */
  ghost predicate NoneHolds(issued: seq<Issued>, spans: seq<string>) {
    forall f :: f in issued && Collides(f, spans) ==> spans[f.number - 1] == f.lit || !Contains(spans[f.number - 1], f.lit)
  }

  lemma CtxTells(texts: seq<string>, targets: Targets, proposals: Proposals)
    requires BracketFree(Issue(texts, targets)) && NoneHolds(Issue(texts, targets), AcceptedSpans(texts, targets, proposals))
    ensures var m := Conservative(texts, targets, proposals).mapping;
      m.Valid() && Keyed(m.KeysLongestFirst(), m.table) && Tells(m.table, WholePlan(texts, targets, proposals))
  {
    var m, spans := Conservative(texts, targets, proposals).mapping, AcceptedSpans(texts, targets, proposals);
    MappingKeyed(texts, targets, proposals);
    KeysLongestFirstCovers(m);
    forall k | k in m.table ensures Bracketed(k) && m.table[k] != "" && Plain(m.table[k]) {
      assert k in m.KeysLongestFirst();
    }
    forall k | k in m.table ensures k in Keys(WholePlan(texts, targets, proposals)) {
      MappingKeys(texts, targets, proposals, k);
    }
    forall x | x in WholePlan(texts, targets, proposals)
      ensures x.key in m.table && (m.table[x.key] == x.lit || !Contains(m.table[x.key], x.lit))
    {
      PlanReads(texts, targets, proposals, x);
      if m.table[x.key] != x.lit {
        var f :| f in Issue(texts, targets) && f.AsSub() == x && Collides(f, spans);
        CtxPrefixCollides(texts, targets, proposals, f);
      }
    }
  }

  /** No placeholder that a span took over from another text was put into `s`. */
  ghost predicate NoneTakenOver(s: string, issued: seq<Issued>, spans: seq<string>, plan: seq<Sub>) {
    forall f :: f in issued && Collides(f, spans) && spans[f.number - 1] != f.lit ==> !UsedSub(s, plan, f.AsSub())
  }

  lemma UsedRightIff(texts: seq<string>, targets: Targets, proposals: Proposals, s: string)
    ensures var issued, spans := Issue(texts, targets), AcceptedSpans(texts, targets, proposals);
      var plan, m := WholePlan(texts, targets, proposals), Conservative(texts, targets, proposals).mapping;
      UsedRight(s, plan, m.table) <==> NoneTakenOver(s, issued, spans, plan)
  {
    var issued, spans := Issue(texts, targets), AcceptedSpans(texts, targets, proposals);
    var plan, m := WholePlan(texts, targets, proposals), Conservative(texts, targets, proposals).mapping;
    forall f | f in issued && Collides(f, spans)
      ensures f.AsSub() in plan && f.Key() in m.table && m.table[f.Key()] == spans[f.number - 1]
    {
      BasePlanIs(texts, targets);
      CtxPrefixCollides(texts, targets, proposals, f);
    }
    if UsedRight(s, plan, m.table) {
      forall f | f in issued && Collides(f, spans) && spans[f.number - 1] != f.lit ensures !UsedSub(s, plan, f.AsSub()) {
        assert f.AsSub() in plan;
      }
    }
    if NoneTakenOver(s, issued, spans, plan) {
      forall x | x in plan && UsedSub(s, plan, x) ensures x.key in m.table && m.table[x.key] == x.lit {
        PlanReads(texts, targets, proposals, x);
      }
    }
  }

  /** Whatever collides, and for every text: it comes back if and only if it spells no
      issued placeholder and no placeholder was put into it that a span took over from
      another literal. */
  lemma CtxPrefixLoses(texts: seq<string>, targets: Targets, proposals: Proposals, i: nat)
    requires i < |texts| && BracketFree(Issue(texts, targets)) && Isolated(WholePlan(texts, targets, proposals))
    requires NoneHolds(Issue(texts, targets), AcceptedSpans(texts, targets, proposals))
    ensures var r, s := Conservative(texts, targets, proposals), Excerpt(texts[i]);
      && |r.texts| == |texts| && r.mapping.Valid()
      && (Rehydrated(r.texts[i], r.mapping) == s
          <==> && SpellsNone(s, r.mapping)
               && NoneTakenOver(s, Issue(texts, targets), AcceptedSpans(texts, targets, proposals),
                                WholePlan(texts, targets, proposals)))
  {
    var s, m := Excerpt(texts[i]), Conservative(texts, targets, proposals).mapping;
    ConservativeText(texts, targets, proposals, i);
    WholeShaped(texts, targets, proposals);
    CtxTells(texts, targets, proposals);
    KeysLongestFirstCovers(m);
    MisreadIff(s, WholePlan(texts, targets, proposals), m.KeysLongestFirst(), m.table);
    UsedRightIff(texts, targets, proposals, s);
  }

  // ---- without line breaks in literals, no span holds one ---------------------

  lemma OccursInFront(a: string, b: string, lit: string, i: nat)
    requires OccursAt(a + b, lit, i) && i + |lit| <= |a|
    ensures OccursAt(a, lit, i)
  {
    assert (a + b)[i..i + |lit|] == a[i..i + |lit|];
  }

  lemma OccursInBack(a: string, b: string, lit: string, i: nat)
    requires OccursAt(a + b, lit, i) && |a| <= i
    ensures OccursAt(b, lit, i - |a|)
  {
    assert (a + b)[i..i + |lit|] == b[i - |a|..i - |a| + |lit|];
  }

  lemma HeldByOne(a: string, b: string, lit: string)
    requires lit != "" && '\n' !in lit && Contains(a + "\n" + b, lit)
    ensures Contains(a, lit) || Contains(b, lit)
  {
    var s := a + "\n" + b;
    var i: nat :| i <= |s| && OccursAt(s, lit, i);
    Regroup(a, "\n", b);
    if i + |lit| <= |a| {
      OccursInFront(a, "\n" + b, lit, i);
    } else if i > |a| {
      OccursInBack(a + "\n", b, lit, i);
    } else {
      BreakInside(s, lit, i, |a|);
    }
  }

  lemma BreakInside(s: string, lit: string, i: nat, k: nat)
    requires OccursAt(s, lit, i) && i <= k < i + |lit|
    ensures s[k] in lit
  {
    assert s[i..i + |lit|][k - i] == s[k];
  }

  lemma {:induction false} JoinedHolds(bodies: seq<string>, lit: string) returns (j: nat)
    requires lit != "" && '\n' !in lit && Contains(JoinLines(bodies), lit)
    ensures j < |bodies| && Contains(bodies[j], lit)
  {
    if |bodies| == 0 {
      NothingHeld(lit);
    }
    if |bodies| <= 1 {
      j := 0;
    } else {
      HeldByOne(bodies[0], JoinLines(bodies[1..]), lit);
      if Contains(bodies[0], lit) {
        j := 0;
      } else {
        j := JoinedHolds(bodies[1..], lit);
        j := j + 1;
      }
    }
  }

  lemma NothingHeld(lit: string)
    requires lit != ""
    ensures !Contains("", lit)
  {
  }

  lemma HeldFurther(a: string, b: string, lit: string)
    requires Contains(a, b) && Contains(b, lit)
    ensures Contains(a, lit)
  {
    var i: nat :| i <= |a| && OccursAt(a, b, i);
    ContainsSplit(a, b, i);
    ContainsBehind(a[..i], b, lit);
    ContainsFront(a[..i] + b, a[i + |b|..], lit);
  }

  lemma SpansOccur(texts: seq<string>, targets: Targets, proposals: Proposals, span: string)
    requires span in AcceptedSpans(texts, targets, proposals)
    ensures Contains(JoinLines(Applied(texts, targets).texts), span)
  {
    var joined := JoinLines(Applied(texts, targets).texts);
    var valid := AcceptFrom(proposals.spans, joined, targets.technical, []);
    AcceptFromDistinct(proposals.spans, joined, targets.technical, []);
    SortSpansSorts(valid);
    SameMembers(SortSpans(valid), valid);
  }

  /** The first stage has taken every literal out of every text, so a span can hold one
      only across the break between two texts. */
  lemma SpansHoldNone(texts: seq<string>, targets: Targets, proposals: Proposals, e: Issued, span: string)
    requires BracketFree(Issue(texts, targets)) && Isolated(BasePlan(texts, targets))
    requires e in Issue(texts, targets) && '\n' !in e.lit && span in AcceptedSpans(texts, targets, proposals)
    ensures !Contains(span, e.lit)
  {
    var bodies := Applied(texts, targets).texts;
    SpansOccur(texts, targets, proposals, span);
    if Contains(span, e.lit) {
      HeldFurther(JoinLines(bodies), span, e.lit);
      var j := JoinedHolds(bodies, e.lit);
      ApplyRoundTrip(texts, targets, j);
    }
  }

  /** So with literals of one line: a text comes back if and only if it spells no issued
      placeholder and none that collides was put into it. */
  lemma CtxPrefixOneLine(texts: seq<string>, targets: Targets, proposals: Proposals, i: nat)
    requires i < |texts| && BracketFree(Issue(texts, targets)) && Isolated(WholePlan(texts, targets, proposals))
    requires forall f :: f in Issue(texts, targets) && Collides(f, AcceptedSpans(texts, targets, proposals)) ==> '\n' !in f.lit
    ensures var r, s := Conservative(texts, targets, proposals), Excerpt(texts[i]);
      && |r.texts| == |texts| && r.mapping.Valid()
      && (Rehydrated(r.texts[i], r.mapping) == s
          <==> && SpellsNone(s, r.mapping)
               && forall f :: f in Issue(texts, targets) && Collides(f, AcceptedSpans(texts, targets, proposals)) ==>
                    !UsedSub(s, WholePlan(texts, targets, proposals), f.AsSub()))
  {
    var issued, spans := Issue(texts, targets), AcceptedSpans(texts, targets, proposals);
    assert Isolated(BasePlan(texts, targets)) by {
      assert forall e :: e in BasePlan(texts, targets) ==> e in WholePlan(texts, targets, proposals);
    }
    forall f | f in issued && Collides(f, spans) ensures !Contains(spans[f.number - 1], f.lit) && spans[f.number - 1] != f.lit {
      SpansHoldNone(texts, targets, proposals, f, spans[f.number - 1]);
      assert OccursAt(f.lit, f.lit, 0);
    }
    CtxPrefixLoses(texts, targets, proposals, i);
  }
}
