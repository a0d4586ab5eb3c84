/** src/mesh/pseudonymizer.py: two-stage masking of texts. The methods keep the
    dicts and loops of the original; each is tied to a masking plan, and what the
    plan guarantees is proved about it. */
module Pseudonymizer {
  import opened Sequences
  import opened Text
  import opened Nests
  import opened Plans
  import opened Schemas
  import opened Ordering
  import opened Whitespace

  const EXCERPT_MAX_CHARS: nat := 3000
  const SPAN_MAX_CHARS: nat := 80
  const SPAN_MAX: nat := 40

  function Excerpt(t: string): string {
    if |t| > EXCERPT_MAX_CHARS then t[..EXCERPT_MAX_CHARS] else t
  }

  function Placeholder(prefix: string, n: nat): string {
    "<" + prefix + "_" + Decimal(n) + ">"
  }

  predicate Appears(lit: string, texts: seq<string>) {
    exists t :: t in texts && Contains(t, lit)
  }

  // ---- issuing placeholders --------------------------------------------

  datatype Issued = Issued(prefix: string, number: nat, lit: string) {
    function Key(): string { Placeholder(prefix, number) }
    function AsSub(): Sub { Sub(lit, Key()) }
  }

  function CountPrefix(issued: seq<Issued>, prefix: string): nat {
    if issued == [] then 0
    else
      CountPrefix(issued[..|issued| - 1], prefix)
      + if issued[|issued| - 1].prefix == prefix then 1 else 0
  }

  /** literal -> placeholder, for what has been issued so far. */
  function Assigned(issued: seq<Issued>): map<string, string> {
    if issued == [] then map[]
    else Assigned(issued[..|issued| - 1])[issued[|issued| - 1].lit := issued[|issued| - 1].Key()]
  }

  function Table(issued: seq<Issued>): Mapping {
    if issued == [] then EMPTY_MAPPING
    else Table(issued[..|issued| - 1]).Put(issued[|issued| - 1].Key(), issued[|issued| - 1].lit)
  }

  predicate Wanted(pair: (string, string), texts: seq<string>, technical: set<string>, issued: seq<Issued>) {
    pair.1 !in Assigned(issued) && pair.1 !in technical && Appears(pair.1, texts)
  }

  function Next(pair: (string, string), issued: seq<Issued>): Issued {
    Issued(pair.0, CountPrefix(issued, pair.0) + 1, pair.1)
  }

  /** Numbers go out along the pairs, before any text is touched. */
  function IssueFrom(pairs: seq<(string, string)>, texts: seq<string>, technical: set<string>,
                     issued: seq<Issued>): seq<Issued>
    decreases |pairs|
  {
    if pairs == [] then issued
    else IssueFrom(pairs[1..], texts, technical,
                   if Wanted(pairs[0], texts, technical, issued)
                   then issued + [Next(pairs[0], issued)] else issued)
  }

  function Issue(texts: seq<string>, targets: Targets): seq<Issued> {
    IssueFrom(targets.AllLiterals(), texts, targets.technical, [])
  }

  /** The replacements made on each text: one for every pair whose literal was
      given a placeholder, in the order of the pairs. */
  function PlanOf(pairs: seq<(string, string)>, given: map<string, string>): seq<Sub> {
    if pairs == [] then []
    else
      (if pairs[0].1 in given then [Sub(pairs[0].1, given[pairs[0].1])] else [])
      + PlanOf(pairs[1..], given)
  }

  function BasePlan(texts: seq<string>, targets: Targets): seq<Sub> {
    PlanOf(targets.AllLiterals(), Assigned(Issue(texts, targets)))
  }

  datatype PseudonymResult = PseudonymResult(texts: seq<string>, mapping: Mapping,
                                             identifiers: seq<string>, truncated: bool)

  function MaskAll(texts: seq<string>, plan: seq<Sub>): seq<string> {
    seq(|texts|, i requires 0 <= i < |texts| => MaskText(texts[i], plan))
  }

  function Excerpts(texts: seq<string>): seq<string> {
    seq(|texts|, i requires 0 <= i < |texts| => Excerpt(texts[i]))
  }

  /** What `apply` returns. */
  function Applied(texts: seq<string>, targets: Targets): PseudonymResult {
    PseudonymResult(
      MaskAll(Excerpts(texts), BasePlan(texts, targets)),
      Table(Issue(texts, targets)),
      Seconds(targets.AllLiterals()),
      AnyLong(texts, |texts|))
  }

  lemma IssuedOneMore(issued: seq<Issued>, e: Issued)
    ensures Assigned(issued + [e]) == Assigned(issued)[e.lit := e.Key()]
    ensures Table(issued + [e]) == Table(issued).Put(e.Key(), e.lit)
    ensures forall p :: CountPrefix(issued + [e], p)
                     == CountPrefix(issued, p) + if e.prefix == p then 1 else 0
  {
    assert (issued + [e])[..|issued|] == issued;
  }

  lemma IssueStep(pairs: seq<(string, string)>, i: nat, texts: seq<string>, technical: set<string>, issued: seq<Issued>)
    requires i < |pairs|
    ensures IssueFrom(pairs[i..], texts, technical, issued)
         == IssueFrom(pairs[i + 1..], texts, technical,
                      if Wanted(pairs[i], texts, technical, issued) then issued + [Next(pairs[i], issued)] else issued)
  {
    assert pairs[i..][0] == pairs[i] && pairs[i..][1..] == pairs[i + 1..];
  }

  /** The first loop of `apply`: numbers per prefix, skipping literals already
      numbered, technical terms, and literals no text contains. */
  method IssuePlaceholders(pairs: seq<(string, string)>, texts: seq<string>, technical: set<string>)
    returns (given: map<string, string>, table: Mapping)
    ensures given == Assigned(IssueFrom(pairs, texts, technical, []))
    ensures table == Table(IssueFrom(pairs, texts, technical, []))
  {
    var counters: map<string, nat> := map[];
    ghost var issued: seq<Issued> := [];
    given, table := map[], EMPTY_MAPPING;
    for i := 0 to |pairs|
      invariant IssueFrom(pairs[i..], texts, technical, issued) == IssueFrom(pairs, texts, technical, [])
      invariant given == Assigned(issued) && table == Table(issued)
      invariant forall p :: CountPrefix(issued, p) == if p in counters then counters[p] else 0
    {
      var prefix, literal := pairs[i].0, pairs[i].1;
      IssueStep(pairs, i, texts, technical, issued);
      if literal in given || literal in technical || !Appears(literal, texts) {
        assert !Wanted(pairs[i], texts, technical, issued);
        continue;
      }
      var n := (if prefix in counters then counters[prefix] else 0) + 1;
      counters := counters[prefix := n];
      var placeholder := Placeholder(prefix, n);
      given := given[literal := placeholder];
      table := table.Put(placeholder, literal);
      assert Wanted(pairs[i], texts, technical, issued) && Next(pairs[i], issued) == Issued(prefix, n, literal);
      IssuedOneMore(issued, Issued(prefix, n, literal));
      issued := issued + [Issued(prefix, n, literal)];
    }
    assert pairs[|pairs|..] == [];
  }

  /** The inner loop: every pair whose literal has a placeholder is replaced. */
  method MaskBody(text: string, pairs: seq<(string, string)>, given: map<string, string>)
    returns (body: string)
    ensures body == MaskText(text, PlanOf(pairs, given))
  {
    body := text;
    for k := 0 to |pairs|
      invariant MaskText(body, PlanOf(pairs[k..], given)) == MaskText(text, PlanOf(pairs, given))
    {
      var literal := pairs[k].1;
      assert pairs[k..][0] == pairs[k] && pairs[k..][1..] == pairs[k + 1..];
      ghost var rest := PlanOf(pairs[k + 1..], given);
      if literal in given {
        assert ([Sub(literal, given[literal])] + rest)[1..] == rest;
        body := Replace(body, literal, given[literal]);
      } else {
        assert [] + rest == rest;
      }
    }
    assert pairs[|pairs|..] == [];
  }

  predicate AnyLong(texts: seq<string>, n: nat)
    requires n <= |texts|
  {
    exists i :: 0 <= i < n && |texts[i]| > EXCERPT_MAX_CHARS
  }

  lemma OneTextMore(texts: seq<string>, i: nat, plan: seq<Sub>)
    requires i < |texts|
    ensures MaskAll(Excerpts(texts[..i + 1]), plan) == MaskAll(Excerpts(texts[..i]), plan) + [MaskText(Excerpt(texts[i]), plan)]
    ensures AnyLong(texts, i + 1) <==> AnyLong(texts, i) || |texts[i]| > EXCERPT_MAX_CHARS
  {
    assert texts[..i + 1] == texts[..i] + [texts[i]];
  }

  method Apply(texts: seq<string>, targets: Targets) returns (r: PseudonymResult)
    ensures r == Applied(texts, targets)
  {
    var pairs := targets.AllLiterals();
    var given, table := IssuePlaceholders(pairs, texts, targets.technical);
    var truncated := false;
    var out: seq<string> := [];
    ghost var plan := BasePlan(texts, targets);
    for i := 0 to |texts|
      invariant out == MaskAll(Excerpts(texts[..i]), plan)
      invariant truncated <==> AnyLong(texts, i)
    {
      truncated := truncated || |texts[i]| > EXCERPT_MAX_CHARS;
      var body := MaskBody(Excerpt(texts[i]), pairs, given);
      OneTextMore(texts, i, plan);
      out := out + [body];
    }
    assert texts[..|texts|] == texts;
    r := PseudonymResult(out, table, Seconds(pairs), truncated);
  }

  // ---- the second stage: spans proposed by the in-zone model ------------

  /** The model's answer: no answer at all, or a list of strings. */
  datatype Proposals = Unavailable | Spans(spans: seq<string>)

  predicate Acceptable(s: string, joined: string, technical: set<string>) {
    && 2 <= |s| <= SPAN_MAX_CHARS
    && '<' !in s && '>' !in s
    && s !in technical
    && Contains(joined, s)
  }

  /** Stripped, checked, without repetition, and cut off at the fortieth. */
  function AcceptFrom(spans: seq<string>, joined: string, technical: set<string>, valid: seq<string>): seq<string>
    decreases |spans|
  {
    if spans == [] then valid
    else if !Acceptable(Strip(spans[0]), joined, technical) then
      AcceptFrom(spans[1..], joined, technical, valid)
    else
      var more := if Strip(spans[0]) in valid then valid else valid + [Strip(spans[0])];
      if |more| >= SPAN_MAX then more else AcceptFrom(spans[1..], joined, technical, more)
  }

  function JoinLines(bodies: seq<string>): string {
    if bodies == [] then ""
    else if |bodies| == 1 then bodies[0]
    else bodies[0] + "\n" + JoinLines(bodies[1..])
  }

  /** `sorted(valid, key=lambda s: (-len(s), s))`. */
  predicate SpanLe(a: string, b: string) {
    |b| < |a| || (|a| == |b| && StringLe(a, b))
  }

  function SortSpans(xs: seq<string>): seq<string> {
    Sorted(xs, SpanLe)
  }

  /** Numbered from one along the sorted spans. */
  function CtxPlan(sorted: seq<string>): seq<Sub> {
    seq(|sorted|, i requires 0 <= i < |sorted| => Sub(sorted[i], Placeholder("CTX", i + 1)))
  }

  function PutAll(m: Mapping, plan: seq<Sub>): Mapping {
    if plan == [] then m
    else PutAll(m, plan[..|plan| - 1]).Put(plan[|plan| - 1].key, plan[|plan| - 1].lit)
  }

  function AcceptedSpans(texts: seq<string>, targets: Targets, proposals: Proposals): seq<string> {
    if proposals.Unavailable? then []
    else SortSpans(AcceptFrom(proposals.spans, JoinLines(Applied(texts, targets).texts), targets.technical, []))
  }

  /** What `apply_conservative` returns. */
  function Conservative(texts: seq<string>, targets: Targets, proposals: Proposals): PseudonymResult {
    var base := Applied(texts, targets);
    var spans := AcceptedSpans(texts, targets, proposals);
    if spans == [] then base
    else PseudonymResult(MaskAll(base.texts, CtxPlan(spans)), PutAll(base.mapping, CtxPlan(spans)),
                         base.identifiers + spans, base.truncated)
  }

  lemma SortSpansSorts(xs: seq<string>)
    ensures multiset(SortSpans(xs)) == multiset(xs) && |SortSpans(xs)| == |xs|
    ensures Ascending(SortSpans(xs), SpanLe) && Ascending(SortSpans(xs), LongerFirst)
  {
    SpanOrder();
    SortedKeeps(xs, SpanLe);
    SortedSize(xs, SpanLe);
    SortedAscends(xs, SpanLe);
    var r := SortSpans(xs);
    forall i, j | 0 <= i < j < |r| ensures LongerFirst(r[i], r[j]) { assert SpanLe(r[i], r[j]); }
  }

  lemma SpanOrder()
    ensures Total(SpanLe) && Transitive(SpanLe)
  {
    StringLeLinear();
  }

  method AcceptSpans(spans: seq<string>, joined: string, technical: set<string>) returns (valid: seq<string>)
    ensures valid == AcceptFrom(spans, joined, technical, [])
  {
    valid := [];
    for i := 0 to |spans|
      invariant AcceptFrom(spans[i..], joined, technical, valid) == AcceptFrom(spans, joined, technical, [])
    {
      assert spans[i..][0] == spans[i] && spans[i..][1..] == spans[i + 1..];
      var s := Strip(spans[i]);
      if !(2 <= |s| <= SPAN_MAX_CHARS) { continue; }
      if '<' in s || '>' in s { continue; }
      if s in technical { continue; }
      if !Contains(joined, s) { continue; }
      if s !in valid { valid := valid + [s]; }
      if |valid| >= SPAN_MAX { return; }
    }
    assert spans[|spans|..] == [];
  }

  /** Replaces along the spans, longest first, in one text. */
  method MaskSpans(text: string, order: seq<string>, given: map<string, string>, ghost plan: seq<Sub>)
    returns (body: string)
    requires |order| == |plan|
    requires forall i :: 0 <= i < |order| ==>
      order[i] in given && plan[i] == Sub(order[i], given[order[i]])
    ensures body == MaskText(text, plan)
  {
    body := text;
    for k := 0 to |order|
      invariant MaskText(body, plan[k..]) == MaskText(text, plan)
    {
      assert plan[k..][0] == plan[k] && plan[k..][1..] == plan[k + 1..];
      body := Replace(body, order[k], given[order[k]]);
    }
    assert plan[|order|..] == [];
  }

  method MaskSpansAll(texts: seq<string>, order: seq<string>, given: map<string, string>, ghost plan: seq<Sub>)
    returns (out: seq<string>)
    requires |order| == |plan|
    requires forall i :: 0 <= i < |order| ==>
      order[i] in given && plan[i] == Sub(order[i], given[order[i]])
    ensures out == MaskAll(texts, plan)
  {
    out := [];
    for i := 0 to |texts|
      invariant out == MaskAll(texts[..i], plan)
    {
      var body := MaskSpans(texts[i], order, given, plan);
      out := out + [body];
      assert texts[..i + 1] == texts[..i] + [texts[i]];
    }
    assert texts[..|texts|] == texts;
  }

  lemma PutOne(m: Mapping, plan: seq<Sub>, i: nat)
    requires i < |plan|
    ensures PutAll(m, plan[..i + 1]) == PutAll(m, plan[..i]).Put(plan[i].key, plan[i].lit)
  {
    assert plan[..i + 1][..i] == plan[..i];
  }

  /** The first `n` spans are given their placeholders. */
  ghost predicate Numbered(sorted: seq<string>, given: map<string, string>, n: nat) {
    n <= |sorted| && forall j :: 0 <= j < n ==> sorted[j] in given && given[sorted[j]] == Placeholder("CTX", j + 1)
  }

  lemma OneSpanMore(sorted: seq<string>, given: map<string, string>, base: Mapping, i: nat)
    requires Distinct(sorted) && i < |sorted| && Numbered(sorted, given, i)
    ensures Numbered(sorted, given[sorted[i] := Placeholder("CTX", i + 1)], i + 1)
    ensures PutAll(base, CtxPlan(sorted)[..i + 1]) == PutAll(base, CtxPlan(sorted)[..i]).Put(Placeholder("CTX", i + 1), sorted[i])
  {
    PutOne(base, CtxPlan(sorted), i);
  }

  /** Numbers the sorted spans and enters them in the table of the first stage. */
  method NumberSpans(sorted: seq<string>, base: Mapping)
    returns (table: Mapping, given: map<string, string>)
    requires Distinct(sorted)
    ensures table == PutAll(base, CtxPlan(sorted))
    ensures Numbered(sorted, given, |sorted|)
  {
    table, given := base, map[];
    ghost var plan := CtxPlan(sorted);
    for i := 0 to |sorted|
      invariant table == PutAll(base, plan[..i])
      invariant Numbered(sorted, given, i)
    {
      var placeholder := Placeholder("CTX", i + 1);
      OneSpanMore(sorted, given, base, i);
      given := given[sorted[i] := placeholder];
      table := table.Put(placeholder, sorted[i]);
    }
    assert plan[..|sorted|] == plan;
  }

  method ApplyConservative(texts: seq<string>, targets: Targets, proposals: Proposals)
    returns (r: PseudonymResult)
    ensures r == Conservative(texts, targets, proposals)
  {
    var base := Apply(texts, targets);
    if proposals.Unavailable? { return base; }
    var valid := AcceptSpans(proposals.spans, JoinLines(base.texts), targets.technical);
    if valid == [] { return base; }
    var sorted := SortSpans(valid);
    AcceptFromDistinct(proposals.spans, JoinLines(base.texts), targets.technical, []);
    SortedDistinct(valid, SpanLe);
    SortSpansSorts(valid);

    var table, given := NumberSpans(sorted, base.mapping);
    var order := Sorted(sorted, LongerFirst);
    SortedStays(sorted, LongerFirst);
    var out := MaskSpansAll(base.texts, order, given, CtxPlan(sorted));
    r := PseudonymResult(out, table, base.identifiers + sorted, base.truncated);
  }

  /** Accepted spans are distinct, free of brackets, and at least two characters. */
  lemma {:induction false} AcceptFromDistinct(spans: seq<string>, joined: string, technical: set<string>, valid: seq<string>)
    requires Distinct(valid) && forall s :: s in valid ==> Acceptable(s, joined, technical)
    ensures Distinct(AcceptFrom(spans, joined, technical, valid))
    ensures forall s :: s in AcceptFrom(spans, joined, technical, valid) ==> Acceptable(s, joined, technical)
    decreases |spans|
  {
    if spans != [] {
      var s := Strip(spans[0]);
      var more := if s in valid || !Acceptable(s, joined, technical) then valid else valid + [s];
      AcceptFromDistinct(spans[1..], joined, technical, more);
    }
  }
}
