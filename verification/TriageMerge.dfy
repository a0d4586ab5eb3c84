/** src/mesh/triage.py, `triage`: the rule verdicts, the model's picks on top of them,
    the ordering and the cap. */
module TriageMerge {
  import opened Schemas
  import opened JsonValues
  import opened Ordering
  import opened Triage

  datatype Verdict = Verdict(id: string, name: string, available: bool, relevant: bool, score: nat)

  function RuleVerdict(question: string, c: Candidate, threshold: int, lang: Lang): Verdict {
    var score := Score(question, c, lang);
    Verdict(c.id, c.name, c.available, c.available && score >= threshold, score)
  }

  /** `verdicts[v.id] = v`: a later candidate of the same id replaces an earlier one. */
  function Entered(vs: seq<Verdict>, v: Verdict): seq<Verdict> {
    if vs == [] then [v]
    else if vs[0].id == v.id then [v] + vs[1..]
    else [vs[0]] + Entered(vs[1..], v)
  }

  /** `rule_pass` */
  function RulePass(question: string, cands: seq<Candidate>, threshold: int, lang: Lang): seq<Verdict> {
    if cands == [] then []
    else Entered(RulePass(question, cands[..|cands| - 1], threshold, lang),
                 RuleVerdict(question, cands[|cands| - 1], threshold, lang))
  }

  // ---- picks -------------------------------------------------------------

  /** The number an item picks, if it is one of an existing candidate. */
  function PickOf(item: Json, n: nat): Option<nat> {
    if !item.Obj? then None
    else match Lookup(item.fields, "i")
      case Some(Int(i)) => if 0 <= i < n then Some(i) else None
      case _ => None
  }

  function PicksOf(items: seq<Json>, n: nat): seq<nat> {
    if items == [] then []
    else
      var front, last := PicksOf(items[..|items| - 1], n), PickOf(items[|items| - 1], n);
      if last.None? || last.value in front then front else front + [last.value]
  }

  /** What the model says is cut down to numbers of candidates, each once. */
  method ParsePicks(raw: Json, n: nat) returns (picks: seq<nat>)
    ensures picks == Picks(raw, n)
  {
    picks := [];
    if !raw.Obj? { return; }
    var given := Lookup(raw.fields, "picks");
    if given.None? || !given.value.Arr? { return; }
    var items := given.value.items;
    for k := 0 to |items|
      invariant picks == PicksOf(items[..k], n)
    {
      assert items[..k + 1][..k] == items[..k];
      var pick := PickOf(items[k], n);
      if pick.None? || pick.value in picks { continue; }
      picks := picks + [pick.value];
    }
    assert items[..|items|] == items;
  }

  function Picks(raw: Json, n: nat): seq<nat> {
    if !raw.Obj? then []
    else match Lookup(raw.fields, "picks")
      case Some(Arr(items)) => PicksOf(items, n)
      case _ => []
  }

  ghost predicate ValidPicks(picks: seq<nat>, n: nat) {
    && (forall i :: 0 <= i < |picks| ==> picks[i] < n)
    && (forall i, j :: 0 <= i < j < |picks| ==> picks[i] != picks[j])
  }

  lemma {:induction false} PicksValid(items: seq<Json>, n: nat)
    ensures ValidPicks(PicksOf(items, n), n)
  {
    if items != [] { PicksValid(items[..|items| - 1], n); }
  }

  /** An item of the reply names this number. */
  ghost predicate Names(item: Json, i: nat) {
    item.Obj? && Lookup(item.fields, "i") == Some(Int(i))
  }

  /** Number `i` is named by item `k` of a reply to `n` candidates, and by none before it. */
  ghost predicate NamedAt(items: seq<Json>, n: nat, i: nat, k: nat) {
    i < n && k < |items| && Names(items[k], i) && forall j :: 0 <= j < k ==> !Names(items[j], i)
  }

  ghost predicate NamedBefore(items: seq<Json>, n: nat, i: nat, j: nat) {
    exists a: nat, b: nat :: a < b && NamedAt(items, n, i, a) && NamedAt(items, n, j, b)
  }

  lemma PickIs(item: Json, n: nat, i: nat)
    ensures PickOf(item, n) == Some(i) <==> i < n && Names(item, i)
  {
  }

  ghost predicate NamedIn(items: seq<Json>, n: nat, i: nat) {
    exists k: nat :: NamedAt(items, n, i, k)
  }

  lemma NamedOneMore(items: seq<Json>, n: nat, i: nat)
    requires items != []
    ensures var front := items[..|items| - 1];
      && (NamedIn(items, n, i) <==> NamedIn(front, n, i) || (i < n && Names(items[|items| - 1], i)))
      && (forall k: nat :: NamedAt(front, n, i, k) ==> NamedAt(items, n, i, k))
      && (!NamedIn(front, n, i) && i < n && Names(items[|items| - 1], i) ==> NamedAt(items, n, i, |items| - 1))
  {
    var last := |items| - 1;
    var front := items[..last];
    if i < n && Names(items[last], i) && !NamedIn(front, n, i) {
      NotNamedYet(front, n, i);
      assert NamedAt(items, n, i, last);
    }
    if NamedIn(items, n, i) {
      var k: nat :| NamedAt(items, n, i, k);
      if k < last { assert NamedAt(front, n, i, k); }
    }
    if NamedIn(front, n, i) {
      var k: nat :| NamedAt(front, n, i, k);
      assert NamedAt(items, n, i, k);
    }
  }

  lemma NotNamedYet(items: seq<Json>, n: nat, i: nat)
    requires !NamedIn(items, n, i) && i < n
    ensures forall k :: 0 <= k < |items| ==> !Names(items[k], i)
  {
    for k := 0 to |items|
      invariant forall j :: 0 <= j < k ==> !Names(items[j], i)
    {
      assert !NamedAt(items, n, i, k);
    }
  }

  /** The picks are the numbers of candidates that the reply names, in the order in which it
      first names them. */
  lemma {:induction false} PicksAre(items: seq<Json>, n: nat)
    ensures forall i: nat :: i in PicksOf(items, n) <==> NamedIn(items, n, i)
    ensures forall a, b :: 0 <= a < b < |PicksOf(items, n)| ==> NamedBefore(items, n, PicksOf(items, n)[a], PicksOf(items, n)[b])
  {
    if items != [] {
      var last := |items| - 1;
      var were, picks := PicksOf(items[..last], n), PicksOf(items, n);
      PicksAre(items[..last], n);
      forall i: nat ensures i in picks <==> NamedIn(items, n, i) {
        PickIs(items[last], n, i);
        NamedOneMore(items, n, i);
      }
      forall a, b | 0 <= a < b < |picks| ensures NamedBefore(items, n, picks[a], picks[b]) {
        PickIs(items[last], n, picks[b]);
        NamedOneMore(items, n, picks[a]);
        NamedOneMore(items, n, picks[b]);
        if b < |were| {
          NamedStays(items, n, picks[a], picks[b]);
        } else {
          assert picks[a] in were;
          NamedLast(items, n, picks[a], picks[b]);
        }
      }
    }
  }

  lemma NamedStays(items: seq<Json>, n: nat, i: nat, j: nat)
    requires items != [] && NamedBefore(items[..|items| - 1], n, i, j)
    ensures NamedBefore(items, n, i, j)
  {
    NamedOneMore(items, n, i);
    NamedOneMore(items, n, j);
    var front := items[..|items| - 1];
    var a: nat, b: nat :| a < b && NamedAt(front, n, i, a) && NamedAt(front, n, j, b);
    assert NamedAt(items, n, i, a) && NamedAt(items, n, j, b);
  }

  lemma NamedLast(items: seq<Json>, n: nat, i: nat, j: nat)
    requires items != [] && NamedIn(items[..|items| - 1], n, i)
    requires NamedAt(items, n, j, |items| - 1)
    ensures NamedBefore(items, n, i, j)
  {
    NamedOneMore(items, n, i);
    var a: nat :| NamedAt(items[..|items| - 1], n, i, a);
    assert NamedAt(items, n, i, a);
  }

  function Picked(v: Verdict, c: Candidate): Verdict {
    v.(relevant := c.available, score := v.score + WEIGHT_MODEL_PICK)
  }

  /** The verdict under the picked candidate's id. */
  function PickInto(vs: seq<Verdict>, c: Candidate): seq<Verdict> {
    if vs == [] then []
    else if vs[0].id == c.id then [Picked(vs[0], c)] + vs[1..]
    else [vs[0]] + PickInto(vs[1..], c)
  }

  function ApplyPicks(verdicts: seq<Verdict>, cands: seq<Candidate>, picks: seq<nat>): seq<Verdict>
    requires forall i :: 0 <= i < |picks| ==> picks[i] < |cands|
  {
    if picks == [] then verdicts
    else PickInto(ApplyPicks(verdicts, cands, picks[..|picks| - 1]), cands[picks[|picks| - 1]])
  }

  // ---- order and cap -----------------------------------------------------

  predicate VerdictLe(a: Verdict, b: Verdict) {
    if a.score != b.score then a.score > b.score else StringLe(a.name, b.name)
  }

  function Capped(vs: seq<Verdict>, max: int, kept: nat): seq<Verdict> {
    if vs == [] then []
    else if !vs[0].relevant then [vs[0]] + Capped(vs[1..], max, kept)
    else if kept >= max then [vs[0].(relevant := false)] + Capped(vs[1..], max, kept)
    else [vs[0]] + Capped(vs[1..], max, kept + 1)
  }

  /** `None` for a model that failed or was not asked. */
  function BeforeCap(question: string, cands: seq<Candidate>, raw: Option<Json>, threshold: int, lang: Lang): seq<Verdict> {
    var rule := RulePass(question, cands, threshold, lang);
    match raw
    case None => rule
    case Some(r) => PicksOk(r, |cands|); ApplyPicks(rule, cands, Picks(r, |cands|))
  }

  /** The verdicts in their final order, with the relevance the cap leaves them. */
  function Outcome(question: string, cands: seq<Candidate>, raw: Option<Json>, threshold: int, max: int, lang: Lang): seq<Verdict> {
    Capped(Sorted(BeforeCap(question, cands, raw, threshold, lang), VerdictLe), max, 0)
  }

  lemma PicksOk(raw: Json, n: nat)
    ensures ValidPicks(Picks(raw, n), n)
  {
    if raw.Obj? && Lookup(raw.fields, "picks").Some? && Lookup(raw.fields, "picks").value.Arr? {
      PicksValid(Lookup(raw.fields, "picks").value.items, n);
    }
  }

  method TriageAll(question: string, cands: seq<Candidate>, raw: Option<Json>, threshold: int, max: int, lang: Lang)
    returns (final: seq<Verdict>)
    ensures final == Outcome(question, cands, raw, threshold, max, lang)
  {
    var verdicts := RuleAll(question, cands, threshold, lang);
    if raw.Some? {
      var picks := ParsePicks(raw.value, |cands|);
      PicksOk(raw.value, |cands|);
      verdicts := UpdatePicked(verdicts, cands, picks);
    }
    final := Cap(Sorted(verdicts, VerdictLe), max);
  }

  method RuleAll(question: string, cands: seq<Candidate>, threshold: int, lang: Lang) returns (verdicts: seq<Verdict>)
    ensures verdicts == RulePass(question, cands, threshold, lang)
  {
    verdicts := [];
    for i := 0 to |cands|
      invariant verdicts == RulePass(question, cands[..i], threshold, lang)
    {
      assert cands[..i + 1][..i] == cands[..i];
      verdicts := Entered(verdicts, RuleVerdict(question, cands[i], threshold, lang));
    }
    assert cands[..|cands|] == cands;
  }

  /** Beyond the cap the lowest scores lose their relevance; nobody leaves the list. */
  method Cap(ordered: seq<Verdict>, max: int) returns (final: seq<Verdict>)
    ensures final == Capped(ordered, max, 0)
  {
    var kept: nat := 0;
    final := [];
    for i := 0 to |ordered|
      invariant final + Capped(ordered[i..], max, kept) == Capped(ordered, max, 0)
    {
      assert ordered[i..][0] == ordered[i] && ordered[i..][1..] == ordered[i + 1..];
      var verdict := ordered[i];
      if verdict.relevant {
        if kept >= max {
          verdict := verdict.(relevant := false);
        } else {
          kept := kept + 1;
        }
      }
      final := final + [verdict];
    }
  }

  method UpdatePicked(rule: seq<Verdict>, cands: seq<Candidate>, picks: seq<nat>) returns (verdicts: seq<Verdict>)
    requires ValidPicks(picks, |cands|)
    ensures verdicts == ApplyPicks(rule, cands, picks)
  {
    verdicts := rule;
    for k := 0 to |picks|
      invariant verdicts == ApplyPicks(rule, cands, picks[..k])
    {
      assert picks[..k + 1][..k] == picks[..k];
      verdicts := PickInto(verdicts, cands[picks[k]]);
    }
    assert picks[..|picks|] == picks;
  }

  // ---- candidates of different ids -----------------------------------------

  function CandidateIds(cands: seq<Candidate>): seq<string> {
    seq(|cands|, i requires 0 <= i < |cands| => cands[i].id)
  }

  function VerdictIds(vs: seq<Verdict>): seq<string> {
    seq(|vs|, i requires 0 <= i < |vs| => vs[i].id)
  }

  /** One verdict per candidate, in their order. */
  ghost predicate Matches(vs: seq<Verdict>, cands: seq<Candidate>) {
    |vs| == |cands| && forall i :: 0 <= i < |vs| ==> vs[i].id == cands[i].id
  }

  /** A later candidate's verdict stands where the first of that id stood. */
  lemma {:induction false} EnteredReplaces(vs: seq<Verdict>, v: Verdict, i: nat)
    requires i < |vs| && vs[i].id == v.id && forall j :: 0 <= j < i ==> vs[j].id != v.id
    ensures Entered(vs, v) == vs[i := v]
  {
    if i > 0 {
      assert forall j :: 0 <= j < i - 1 ==> vs[1..][j] == vs[j + 1];
      EnteredReplaces(vs[1..], v, i - 1);
    }
  }

  lemma {:induction false} EnteredNew(vs: seq<Verdict>, v: Verdict)
    requires forall i :: 0 <= i < |vs| ==> vs[i].id != v.id
    ensures Entered(vs, v) == vs + [v]
  {
    if vs != [] {
      EnteredNew(vs[1..], v);
      assert vs == [vs[0]] + vs[1..];
    }
  }

  lemma FrontIds(cands: seq<Candidate>)
    requires cands != [] && Distinct(CandidateIds(cands))
    ensures Distinct(CandidateIds(cands[..|cands| - 1]))
    ensures forall i :: 0 <= i < |cands| - 1 ==> cands[i].id != cands[|cands| - 1].id
  {
    var ids, n := CandidateIds(cands), |cands| - 1;
    assert CandidateIds(cands[..n]) == ids[..n];
    forall i | 0 <= i < n ensures cands[i].id != cands[n].id { assert ids[i] != ids[n]; }
  }

  function Mapped<T, U>(f: T -> U, xs: seq<T>): seq<U> {
    seq(|xs|, i requires 0 <= i < |xs| => f(xs[i]))
  }

  lemma MappedMore<T, U>(f: T -> U, xs: seq<T>)
    requires xs != []
    ensures Mapped(f, xs) == Mapped(f, xs[..|xs| - 1]) + [f(xs[|xs| - 1])]
  {
  }

  function Ruled(question: string, threshold: int, lang: Lang): Candidate -> Verdict {
    (c: Candidate) => RuleVerdict(question, c, threshold, lang)
  }

  lemma RuledIds(question: string, cands: seq<Candidate>, threshold: int, lang: Lang)
    ensures Matches(Mapped(Ruled(question, threshold, lang), cands), cands)
  {
  }

  lemma {:induction false} RulePassIs(question: string, cands: seq<Candidate>, threshold: int, lang: Lang)
    requires Distinct(CandidateIds(cands))
    ensures RulePass(question, cands, threshold, lang) == Mapped(Ruled(question, threshold, lang), cands)
  {
    if cands != [] {
      var front, last := cands[..|cands| - 1], cands[|cands| - 1];
      var f := Ruled(question, threshold, lang);
      FrontIds(cands);
      RulePassIs(question, front, threshold, lang);
      RuledIds(question, front, threshold, lang);
      EnteredNew(Mapped(f, front), f(last));
      MappedMore(f, cands);
    }
  }

  lemma {:induction false} PickIntoAt(vs: seq<Verdict>, c: Candidate, k: nat)
    requires k < |vs| && vs[k].id == c.id && forall i :: 0 <= i < k ==> vs[i].id != c.id
    ensures PickInto(vs, c) == vs[k := Picked(vs[k], c)]
  {
    if k > 0 {
      PickIntoAt(vs[1..], c, k - 1);
      assert vs == [vs[0]] + vs[1..];
    }
  }

  lemma {:induction false} ApplyPicksAt(verdicts: seq<Verdict>, cands: seq<Candidate>, picks: seq<nat>)
    requires ValidPicks(picks, |cands|) && Matches(verdicts, cands) && Distinct(CandidateIds(cands))
    ensures Matches(ApplyPicks(verdicts, cands, picks), cands)
    ensures forall i :: 0 <= i < |cands| ==>
      ApplyPicks(verdicts, cands, picks)[i] == if i in picks then Picked(verdicts[i], cands[i]) else verdicts[i]
  {
    if picks != [] {
      var front, k := picks[..|picks| - 1], picks[|picks| - 1];
      assert picks == front + [k];
      ApplyPicksAt(verdicts, cands, front);
      var before := ApplyPicks(verdicts, cands, front);
      forall i | 0 <= i < k ensures before[i].id != cands[k].id {
        assert CandidateIds(cands)[i] != CandidateIds(cands)[k];
      }
      PickIntoAt(before, cands[k], k);
    }
  }

  // ---- what comes out ----------------------------------------------------

  function Relevant(vs: seq<Verdict>): nat {
    if vs == [] then 0 else One(vs[0].relevant) + Relevant(vs[1..])
  }

  /** Before the cap the model only widens: whoever the rules found stays, with no lower
      score; and nobody unavailable is in. */
  lemma ModelOnlyWidens(question: string, cands: seq<Candidate>, raw: Option<Json>, threshold: int, lang: Lang)
    requires Distinct(CandidateIds(cands))
    ensures Matches(BeforeCap(question, cands, raw, threshold, lang), cands)
    ensures forall i :: 0 <= i < |cands| ==>
      Widened(RuleVerdict(question, cands[i], threshold, lang), BeforeCap(question, cands, raw, threshold, lang)[i], cands[i])
  {
    RulePassIs(question, cands, threshold, lang);
    RuledIds(question, cands, threshold, lang);
    if raw.Some? {
      PicksOk(raw.value, |cands|);
      ApplyPicksAt(RulePass(question, cands, threshold, lang), cands, Picks(raw.value, |cands|));
    }
  }

  predicate Widened(rule: Verdict, v: Verdict, c: Candidate) {
    (rule.relevant ==> v.relevant) && v.score >= rule.score && (v.relevant ==> c.available)
  }

  lemma {:induction false} CappedSame(vs: seq<Verdict>, max: int, kept: nat)
    ensures |Capped(vs, max, kept)| == |vs|
    ensures forall i :: 0 <= i < |vs| ==>
      && Capped(vs, max, kept)[i] == vs[i].(relevant := Capped(vs, max, kept)[i].relevant)
      && (Capped(vs, max, kept)[i].relevant ==> vs[i].relevant)
  {
    if vs != [] { CappedSame(vs[1..], max, if vs[0].relevant && kept < max then kept + 1 else kept); }
  }

  lemma {:induction false} CappedCount(vs: seq<Verdict>, max: int, kept: nat)
    ensures Relevant(Capped(vs, max, kept)) == Min(if max > kept then max - kept else 0, Relevant(vs))
  {
    if vs != [] {
      var next := if vs[0].relevant && kept < max then kept + 1 else kept;
      CappedCount(vs[1..], max, next);
      var rest := Capped(vs[1..], max, next);
      assert Capped(vs, max, kept) == [Capped(vs, max, kept)[0]] + rest;
      assert Capped(vs, max, kept)[1..] == rest;
    }
  }

  /** Once one has been demoted nobody later is kept. */
  lemma {:induction false} CappedPrefix(vs: seq<Verdict>, max: int, kept: nat, i: nat, j: nat)
    requires i < |vs| && j < |vs| && |Capped(vs, max, kept)| == |vs|
    requires vs[i].relevant && !Capped(vs, max, kept)[i].relevant && Capped(vs, max, kept)[j].relevant
    ensures j < i
  {
    var next := if vs[0].relevant && kept < max then kept + 1 else kept;
    CappedSame(vs[1..], max, next);
    if i == 0 {
      NoneKept(vs[1..], max, kept);
    } else if j > 0 {
      CappedPrefix(vs[1..], max, next, i - 1, j - 1);
    }
  }

  lemma {:induction false} NoneKept(vs: seq<Verdict>, max: int, kept: nat)
    requires kept >= max
    ensures forall v :: v in Capped(vs, max, kept) ==> !v.relevant
  {
    if vs != [] { NoneKept(vs[1..], max, kept); }
  }

  lemma {:induction false} PlaceCount(x: Verdict, ys: seq<Verdict>)
    ensures Relevant(Place(x, ys, VerdictLe)) == One(x.relevant) + Relevant(ys)
  {
    if ys == [] || VerdictLe(x, ys[0]) {
      assert ([x] + ys)[1..] == ys;
    } else {
      PlaceCount(x, ys[1..]);
      var rest := Place(x, ys[1..], VerdictLe);
      assert ([ys[0]] + rest)[1..] == rest;
    }
  }

  lemma {:induction false} SortedCount(xs: seq<Verdict>)
    ensures Relevant(Sorted(xs, VerdictLe)) == Relevant(xs)
  {
    if xs != [] {
      SortedCount(xs[1..]);
      PlaceCount(xs[0], Sorted(xs[1..], VerdictLe));
    }
  }

  lemma VerdictOrder()
    ensures Total(VerdictLe) && Transitive(VerdictLe)
  {
    StringLeLinear();
  }

  /** The outcome lists every verdict once, by score; as many are relevant as were, up to
      the cap; and nobody who lost relevance to the cap scores above anybody who kept it. */
  lemma CapIsFair(before: seq<Verdict>, max: int, ordered: seq<Verdict>, final: seq<Verdict>)
    requires ordered == Sorted(before, VerdictLe) && final == Capped(ordered, max, 0)
    ensures multiset(ordered) == multiset(before) && |final| == |ordered| == |before|
    ensures Relevant(final) == Min(if max > 0 then max else 0, Relevant(before))
    ensures forall i :: 0 <= i < |final| ==> final[i] == ordered[i].(relevant := final[i].relevant)
    ensures forall i :: 0 <= i < |final| && final[i].relevant ==> ordered[i].relevant
    ensures forall i, j :: 0 <= i < |final| && 0 <= j < |final| && Demoted(ordered[i], final[i]) && final[j].relevant ==>
      final[j].score >= final[i].score
  {
    SortedKeeps(before, VerdictLe);
    assert |multiset(ordered)| == |multiset(before)|;
    SortedCount(before);
    CappedCount(ordered, max, 0);
    CappedSame(ordered, max, 0);
    VerdictOrder();
    SortedAscends(before, VerdictLe);
    forall i, j | 0 <= i < |final| && 0 <= j < |final| && Demoted(ordered[i], final[i]) && final[j].relevant
      ensures final[j].score >= final[i].score
    {
      CappedPrefix(ordered, max, 0, i, j);
      assert VerdictLe(ordered[j], ordered[i]);
    }
  }

  predicate Demoted(before: Verdict, after: Verdict) {
    before.relevant && !after.relevant
  }

  lemma {:induction false} IdsPlaced(x: Verdict, ys: seq<Verdict>)
    ensures multiset(VerdictIds(Place(x, ys, VerdictLe))) == multiset{x.id} + multiset(VerdictIds(ys))
  {
    if ys == [] || VerdictLe(x, ys[0]) {
      assert VerdictIds(Place(x, ys, VerdictLe)) == [x.id] + VerdictIds(ys);
    } else {
      IdsPlaced(x, ys[1..]);
      assert VerdictIds(ys) == [ys[0].id] + VerdictIds(ys[1..]);
      assert VerdictIds(Place(x, ys, VerdictLe)) == [ys[0].id] + VerdictIds(Place(x, ys[1..], VerdictLe));
    }
  }

  lemma {:induction false} IdsSorted(xs: seq<Verdict>)
    ensures multiset(VerdictIds(Sorted(xs, VerdictLe))) == multiset(VerdictIds(xs))
  {
    if xs != [] {
      IdsSorted(xs[1..]);
      IdsPlaced(xs[0], Sorted(xs[1..], VerdictLe));
      assert VerdictIds(xs) == [xs[0].id] + VerdictIds(xs[1..]);
    }
  }

  /** Where a verdict stands in the end: as it was, unless the cap took its relevance; and
      then the cap is full of verdicts that score no lower. */
  ghost predicate KeptOrCapped(v: Verdict, final: seq<Verdict>, max: int, i: nat) {
    && i < |final| && final[i] == v.(relevant := final[i].relevant) && (final[i].relevant ==> v.relevant)
    && (Demoted(v, final[i]) ==>
          && Relevant(final) == (if max > 0 then max else 0)
          && forall j :: 0 <= j < |final| && final[j].relevant ==> final[j].score >= v.score)
  }

  lemma {:induction false} DemotedIsFull(vs: seq<Verdict>, max: int, kept: nat, i: nat)
    requires i < |vs| && |Capped(vs, max, kept)| == |vs| && Demoted(vs[i], Capped(vs, max, kept)[i])
    ensures Relevant(vs) > if max > kept then max - kept else 0
  {
    var next := if vs[0].relevant && kept < max then kept + 1 else kept;
    CappedSame(vs[1..], max, next);
    if i > 0 { DemotedIsFull(vs[1..], max, next, i - 1); }
  }

  lemma FinalPlace(before: seq<Verdict>, max: int, v: Verdict) returns (i: nat)
    requires v in before
    ensures KeptOrCapped(v, Capped(Sorted(before, VerdictLe), max, 0), max, i)
  {
    var ordered := Sorted(before, VerdictLe);
    var final := Capped(ordered, max, 0);
    CapIsFair(before, max, ordered, final);
    SameMembers(ordered, before);
    i :| 0 <= i < |ordered| && ordered[i] == v;
    if Demoted(v, final[i]) {
      DemotedIsFull(ordered, max, 0, i);
      SortedCount(before);
    }
  }

  lemma FinalIds(before: seq<Verdict>, max: int)
    ensures multiset(VerdictIds(Capped(Sorted(before, VerdictLe), max, 0))) == multiset(VerdictIds(before))
  {
    var ordered := Sorted(before, VerdictLe);
    CappedSame(ordered, max, 0);
    IdsSorted(before);
    assert VerdictIds(Capped(ordered, max, 0)) == VerdictIds(ordered);
  }

  lemma FinalFrom(before: seq<Verdict>, max: int, i: nat) returns (k: nat)
    requires i < |Capped(Sorted(before, VerdictLe), max, 0)|
    ensures k < |before| && var v := Capped(Sorted(before, VerdictLe), max, 0)[i];
      v.id == before[k].id && (v.relevant ==> before[k].relevant)
  {
    var ordered := Sorted(before, VerdictLe);
    CappedSame(ordered, max, 0);
    SortedKeeps(before, VerdictLe);
    SameMembers(ordered, before);
    assert ordered[i] in before;
    k :| k < |before| && before[k] == ordered[i];
  }

  /** Some candidate of that id is available. */
  ghost predicate IsAvailable(id: string, cands: seq<Candidate>) {
    exists k :: 0 <= k < |cands| && cands[k].id == id && cands[k].available
  }

  /** The whole of it, for candidates of different ids: the outcome lists each of them
      once; as many are relevant as were before the cap, up to the cap; each stands as it
      stood before the cap, or lost its relevance to others that score no lower; and
      nobody unavailable is relevant. */
  lemma TriageFair(question: string, cands: seq<Candidate>, raw: Option<Json>, threshold: int, max: int, lang: Lang)
    requires Distinct(CandidateIds(cands))
    ensures var before, final := BeforeCap(question, cands, raw, threshold, lang), Outcome(question, cands, raw, threshold, max, lang);
      && multiset(VerdictIds(final)) == multiset(CandidateIds(cands))
      && Relevant(final) == Min(if max > 0 then max else 0, Relevant(before))
      && Matches(before, cands)
      && (forall k :: 0 <= k < |cands| ==>
            && Widened(RuleVerdict(question, cands[k], threshold, lang), before[k], cands[k])
            && exists i: nat :: KeptOrCapped(before[k], final, max, i))
      && (forall i :: 0 <= i < |final| && final[i].relevant ==> IsAvailable(final[i].id, cands))
  {
    var before, final := BeforeCap(question, cands, raw, threshold, lang), Outcome(question, cands, raw, threshold, max, lang);
    ModelOnlyWidens(question, cands, raw, threshold, lang);
    CapIsFair(before, max, Sorted(before, VerdictLe), final);
    FinalIds(before, max);
    assert VerdictIds(before) == CandidateIds(cands);
    forall k | 0 <= k < |cands| ensures exists i: nat :: KeptOrCapped(before[k], final, max, i) {
      var i := FinalPlace(before, max, before[k]);
    }
    forall i | 0 <= i < |final| && final[i].relevant ensures IsAvailable(final[i].id, cands) {
      var k := FinalFrom(before, max, i);
      assert Widened(RuleVerdict(question, cands[k], threshold, lang), before[k], cands[k]);
    }
  }

  // ---- the verdicts, one by one -----------------------------------------------

  /** The model's reply names number `i`. */
  ghost predicate PickedBy(raw: Option<Json>, n: nat, i: nat) {
    && raw.Some? && raw.value.Obj? && Lookup(raw.value.fields, "picks").Some? && Lookup(raw.value.fields, "picks").value.Arr?
    && NamedIn(Lookup(raw.value.fields, "picks").value.items, n, i)
  }

  lemma PickedIff(raw: Option<Json>, n: nat, i: nat)
    ensures PickedBy(raw, n, i) <==> raw.Some? && i in Picks(raw.value, n)
  {
    if raw.Some? && raw.value.Obj? && Lookup(raw.value.fields, "picks").Some? && Lookup(raw.value.fields, "picks").value.Arr? {
      PicksAre(Lookup(raw.value.fields, "picks").value.items, n);
    }
  }

  /** Before the cap, for different ids: whoever the model picks gains eight hundred thousandths
      and is in if available; everybody else is in if available with a score of the threshold. */
  lemma BeforeCapIs(question: string, cands: seq<Candidate>, raw: Option<Json>, threshold: int, lang: Lang, i: nat)
    requires Distinct(CandidateIds(cands)) && i < |cands|
    ensures |BeforeCap(question, cands, raw, threshold, lang)| == |cands|
    ensures var v, c := BeforeCap(question, cands, raw, threshold, lang)[i], cands[i];
      && v.id == c.id && v.name == c.name && v.available == c.available
      && if PickedBy(raw, |cands|, i) then v.relevant == c.available && v.score == Score(question, c, lang) + 800
         else v.relevant == (c.available && Score(question, c, lang) >= threshold) && v.score == Score(question, c, lang)
  {
    RulePassIs(question, cands, threshold, lang);
    RuledIds(question, cands, threshold, lang);
    PickedIff(raw, |cands|, i);
    if raw.Some? {
      PicksOk(raw.value, |cands|);
      ApplyPicksAt(RulePass(question, cands, threshold, lang), cands, Picks(raw.value, |cands|));
    }
  }

  ghost function RelevantBefore(vs: seq<Verdict>, i: nat): set<nat>
    requires i <= |vs|
  {
    set j: nat | j < i && vs[j].relevant
  }

  lemma {:induction false} CapFrom(vs: seq<Verdict>, max: int, n: nat, i: nat)
    requires n <= i < |vs|
    ensures |Capped(vs[n..], max, |RelevantBefore(vs, n)|)| == |vs| - n
    ensures Capped(vs[n..], max, |RelevantBefore(vs, n)|)[i - n].relevant <==> vs[i].relevant && |RelevantBefore(vs, i)| < max
    decreases i - n
  {
    var kept := |RelevantBefore(vs, n)|;
    CappedSame(vs[n..], max, kept);
    assert vs[n..][0] == vs[n] && vs[n..][1..] == vs[n + 1..];
    if n < i {
      RelevantOneMore(vs, n);
      if vs[n].relevant && kept >= max {
        CapFull(vs, max, n, i);
      } else {
        CapFrom(vs, max, n + 1, i);
      }
    }
  }

  lemma RelevantOneMore(vs: seq<Verdict>, n: nat)
    requires n < |vs|
    ensures |RelevantBefore(vs, n + 1)| == |RelevantBefore(vs, n)| + One(vs[n].relevant)
  {
    assert RelevantBefore(vs, n + 1) == RelevantBefore(vs, n) + if vs[n].relevant then {n} else {};
  }

  /** Once the cap is full nobody is kept. */
  lemma CapFull(vs: seq<Verdict>, max: int, n: nat, i: nat)
    requires n <= i < |vs| && |RelevantBefore(vs, n)| >= max
    ensures |Capped(vs[n..], max, |RelevantBefore(vs, n)|)| == |vs| - n
    ensures !Capped(vs[n..], max, |RelevantBefore(vs, n)|)[i - n].relevant
    ensures |RelevantBefore(vs, i)| >= max
  {
    var kept := |RelevantBefore(vs, n)|;
    CappedSame(vs[n..], max, kept);
    NoneKept(vs[n..], max, kept);
    SmallerSet(RelevantBefore(vs, n), RelevantBefore(vs, i));
    assert Capped(vs[n..], max, kept)[i - n] in Capped(vs[n..], max, kept);
  }

  /** The outcome stands in order of scores, names among equals, and of the relevant ones just
      the first, up to the cap, stay so. */
  lemma CapKeepsFirst(before: seq<Verdict>, max: int, ordered: seq<Verdict>, final: seq<Verdict>)
    requires ordered == Sorted(before, VerdictLe) && final == Capped(ordered, max, 0)
    ensures |final| == |ordered|
    ensures forall i, j :: 0 <= i < j < |ordered| ==>
      ordered[i].score > ordered[j].score
      || (ordered[i].score == ordered[j].score && StringLe(ordered[i].name, ordered[j].name))
    ensures forall i :: 0 <= i < |final| ==>
      (final[i].relevant <==> ordered[i].relevant && |RelevantBefore(ordered, i)| < max)
  {
    VerdictOrder();
    SortedAscends(before, VerdictLe);
    CappedSame(ordered, max, 0);
    forall i, j | 0 <= i < j < |ordered|
      ensures ordered[i].score > ordered[j].score
        || (ordered[i].score == ordered[j].score && StringLe(ordered[i].name, ordered[j].name))
    {
      assert VerdictLe(ordered[i], ordered[j]);
    }
    forall i | 0 <= i < |final| ensures final[i].relevant <==> ordered[i].relevant && |RelevantBefore(ordered, i)| < max {
      CapFrom(ordered, max, 0, i);
      assert ordered[0..] == ordered && RelevantBefore(ordered, 0) == {};
    }
  }
}
