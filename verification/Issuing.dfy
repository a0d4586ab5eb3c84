/** src/mesh/pseudonymizer.py: which of the listed names are given a placeholder, and
    which of the proposed spans are accepted, said of the lists and the texts alone. */
module Issuing {
  import opened Text
  import opened Nests
  import opened Plans
  import opened Masking
  import opened Schemas
  import opened Ordering
  import opened Whitespace
  import opened Pseudonymizer
  import opened Rehydrator

  // ---- listed literals ---------------------------------------------------

  /** The category number `k` is the first in the file to list the literal. */
  ghost predicate FirstLists(targets: Targets, k: nat, lit: string) {
    && k < |targets.targets| && lit in targets.targets[k].1
    && forall j :: 0 <= j < k ==> lit !in targets.targets[j].1
  }

  ghost predicate Listed(targets: Targets, lit: string) {
    exists k :: 0 <= k < |targets.targets| && lit in targets.targets[k].1
  }

  ghost predicate Occurs(texts: seq<string>, lit: string) {
    exists i :: 0 <= i < |texts| && Contains(texts[i], lit)
  }

  ghost predicate Holds(issued: seq<Issued>, lit: string) {
    exists e :: e in issued && e.lit == lit
  }

  /** The category of the first pair with this literal. */
  ghost function CategoryOf(pairs: seq<(string, string)>, lit: string): Option<string> {
    if pairs == [] then None
    else if pairs[0].1 == lit then Some(pairs[0].0) else CategoryOf(pairs[1..], lit)
  }

  lemma {:induction false} CategoryPlaced(pair: (string, string), pairs: seq<(string, string)>, lit: string)
    ensures CategoryOf(Place(pair, pairs, LongerLiteralFirst), lit)
         == if pair.1 == lit then Some(pair.0) else CategoryOf(pairs, lit)
  {
    var r := Place(pair, pairs, LongerLiteralFirst);
    if pairs != [] && !LongerLiteralFirst(pair, pairs[0]) {
      CategoryPlaced(pair, pairs[1..], lit);
      assert r[0] == pairs[0] && r[1..] == Place(pair, pairs[1..], LongerLiteralFirst);
    } else {
      assert r[0] == pair && r[1..] == pairs;
    }
  }

  /** Sorting by length leaves the category of a literal the one named first. */
  lemma {:induction false} CategorySorted(pairs: seq<(string, string)>, lit: string)
    ensures CategoryOf(Sorted(pairs, LongerLiteralFirst), lit) == CategoryOf(pairs, lit)
  {
    if pairs != [] {
      CategorySorted(pairs[1..], lit);
      CategoryPlaced(pairs[0], Sorted(pairs[1..], LongerLiteralFirst), lit);
    }
  }

  lemma {:induction false} CategoryConcat(a: seq<(string, string)>, b: seq<(string, string)>, lit: string)
    ensures CategoryOf(a + b, lit) == if CategoryOf(a, lit).Some? then CategoryOf(a, lit) else CategoryOf(b, lit)
  {
    if a == [] {
      assert a + b == b;
    } else {
      assert (a + b)[1..] == a[1..] + b;
      CategoryConcat(a[1..], b, lit);
    }
  }

  lemma {:induction false} CategoryOfOne(pairs: seq<(string, string)>, prefix: string, lit: string)
    requires forall j :: 0 <= j < |pairs| ==> pairs[j].0 == prefix
    ensures CategoryOf(pairs, lit)
         == if exists j :: 0 <= j < |pairs| && pairs[j].1 == lit then Some(prefix) else None
  {
    if pairs != [] {
      CategoryOfOne(pairs[1..], prefix, lit);
      assert forall j :: 0 < j < |pairs| ==> pairs[j] == pairs[1..][j - 1];
    }
  }

  lemma {:induction false} CategoryIs(targets: seq<(string, seq<string>)>, technical: set<string>, lit: string) returns (k: nat)
    ensures CategoryOf(Pairs(targets), lit).Some? <==> Listed(Targets(targets, technical), lit)
    ensures CategoryOf(Pairs(targets), lit).Some? ==>
      FirstLists(Targets(targets, technical), k, lit) && CategoryOf(Pairs(targets), lit).value == targets[k].0
  {
    k := 0;
    if targets != [] {
      var row := seq(|targets[0].1|, i requires 0 <= i < |targets[0].1| => (targets[0].0, targets[0].1[i]));
      CategoryConcat(row, Pairs(targets[1..]), lit);
      CategoryOfOne(row, targets[0].0, lit);
      assert CategoryOf(row, lit).Some? <==> lit in targets[0].1 by {
        assert forall j :: 0 <= j < |row| ==> row[j].1 == targets[0].1[j];
      }
      if lit in targets[0].1 {
        assert Listed(Targets(targets, technical), lit);
      } else {
        var rest := targets[1..];
        var n := CategoryIs(rest, technical, lit);
        assert forall j :: 0 < j < |targets| ==> targets[j] == rest[j - 1];
        if Listed(Targets(rest, technical), lit) {
          assert targets[n + 1] == rest[n];
          k := n + 1;
        }
      }
    }
  }

  // ---- who is given a placeholder ---------------------------------------

  lemma HoldsOneMore(issued: seq<Issued>, e: Issued, lit: string)
    ensures Holds(issued + [e], lit) <==> Holds(issued, lit) || e.lit == lit
  {
    assert e in issued + [e];
    if Holds(issued, lit) {
      var f :| f in issued && f.lit == lit;
      assert f in issued + [e];
    }
  }

  /** One turn of the loop, as far as one literal is concerned. */
  lemma IssueTurn(pair: (string, string), texts: seq<string>, technical: set<string>, issued: seq<Issued>)
    ensures Wanted(pair, texts, technical, issued)
       <==> !Holds(issued, pair.1) && pair.1 !in technical && Occurs(texts, pair.1)
  {
    AssignedIs(issued);
    if Appears(pair.1, texts) {
      var t :| t in texts && Contains(t, pair.1);
      var i :| 0 <= i < |texts| && texts[i] == t;
    }
  }

  lemma {:induction false} IssueFromIff(pairs: seq<(string, string)>, texts: seq<string>, technical: set<string>,
                                        issued: seq<Issued>, lit: string)
    ensures Holds(IssueFrom(pairs, texts, technical, issued), lit)
       <==> Holds(issued, lit) || (CategoryOf(pairs, lit).Some? && lit !in technical && Occurs(texts, lit))
    decreases |pairs|
  {
    if pairs != [] {
      IssueTurn(pairs[0], texts, technical, issued);
      HoldsOneMore(issued, Next(pairs[0], issued), lit);
      IssueFromIff(pairs[1..], texts, technical,
        if Wanted(pairs[0], texts, technical, issued) then issued + [Next(pairs[0], issued)] else issued, lit);
    }
  }

  /** A literal is given its placeholder under the category of its first pair. */
  lemma {:induction false} IssueFromCategory(pairs: seq<(string, string)>, texts: seq<string>, technical: set<string>,
                                             issued: seq<Issued>, e: Issued)
    requires e in IssueFrom(pairs, texts, technical, issued) && !Holds(issued, e.lit)
    ensures CategoryOf(pairs, e.lit) == Some(e.prefix)
    decreases |pairs|
  {
    assert e in issued ==> Holds(issued, e.lit);
    if pairs != [] {
      var more := if Wanted(pairs[0], texts, technical, issued) then issued + [Next(pairs[0], issued)] else issued;
      IssueTurn(pairs[0], texts, technical, issued);
      HoldsOneMore(issued, Next(pairs[0], issued), e.lit);
      if pairs[0].1 != e.lit {
        IssueFromCategory(pairs[1..], texts, technical, more, e);
      } else if more == issued {
        assert Holds(IssueFrom(pairs, texts, technical, issued), e.lit);
        IssueFromIff(pairs, texts, technical, issued, e.lit);
      } else {
        IssuedStays(pairs[1..], texts, technical, more, Next(pairs[0], issued), e);
      }
    }
  }

  /** Nothing is issued twice: what stands for a literal goes on standing for it alone. */
  lemma {:induction false} IssuedStays(pairs: seq<(string, string)>, texts: seq<string>, technical: set<string>,
                                       issued: seq<Issued>, d: Issued, e: Issued)
    requires d in issued && forall f :: f in issued && f.lit == d.lit ==> f == d
    requires e in IssueFrom(pairs, texts, technical, issued) && e.lit == d.lit
    ensures e == d
    decreases |pairs|
  {
    if pairs != [] {
      IssueTurn(pairs[0], texts, technical, issued);
      var more := if Wanted(pairs[0], texts, technical, issued) then issued + [Next(pairs[0], issued)] else issued;
      IssuedStays(pairs[1..], texts, technical, more, d, e);
    }
  }

  /** Exactly the listed names that are no technical term and occur in one of the texts
      are given a placeholder, each under the first category that lists it. */
  lemma IssuedIff(texts: seq<string>, targets: Targets, lit: string)
    ensures (exists e :: e in Issue(texts, targets) && e.lit == lit)
       <==> && (exists k :: 0 <= k < |targets.targets| && lit in targets.targets[k].1)
            && lit !in targets.technical
            && (exists i :: 0 <= i < |texts| && Contains(texts[i], lit))
    ensures forall e :: e in Issue(texts, targets) && e.lit == lit ==>
      exists k: nat :: FirstLists(targets, k, lit) && e.prefix == targets.targets[k].0
  {
    IssueFromIff(targets.AllLiterals(), texts, targets.technical, [], lit);
    CategorySorted(Pairs(targets.targets), lit);
    var k := CategoryIs(targets.targets, targets.technical, lit);
    forall e | e in Issue(texts, targets) && e.lit == lit
      ensures FirstLists(targets, k, lit) && e.prefix == targets.targets[k].0
    {
      IssueFromCategory(targets.AllLiterals(), texts, targets.technical, [], e);
    }
  }

  // ---- numbers -------------------------------------------------------------

  /** The numbers of a category run from one without a gap. */
  ghost predicate Gapless(issued: seq<Issued>) {
    forall p, n :: 1 <= n <= CountPrefix(issued, p) ==> Numbers(issued, p, n)
  }

  ghost predicate Numbers(issued: seq<Issued>, p: string, n: nat) {
    exists f :: f in issued && f.prefix == p && f.number == n
  }

  lemma GaplessOneMore(issued: seq<Issued>, e: Issued)
    requires Gapless(issued) && e.number == CountPrefix(issued, e.prefix) + 1
    ensures Gapless(issued + [e])
  {
    IssuedOneMore(issued, e);
    forall p, n | 1 <= n <= CountPrefix(issued + [e], p) ensures Numbers(issued + [e], p, n) {
      if n <= CountPrefix(issued, p) {
        assert Numbers(issued, p, n);
        var f :| f in issued && f.prefix == p && f.number == n;
        assert f in issued + [e];
      } else {
        assert e in issued + [e];
      }
    }
  }

  ghost predicate Longer(issued: seq<Issued>, pairs: seq<(string, string)>) {
    && (forall i, j :: 0 <= i < j < |issued| ==> |issued[j].lit| <= |issued[i].lit|)
    && (forall i, j :: 0 <= i < |issued| && 0 <= j < |pairs| ==> |pairs[j].1| <= |issued[i].lit|)
  }

  lemma {:induction false} IssueFromDescends(pairs: seq<(string, string)>, texts: seq<string>, technical: set<string>,
                                             issued: seq<Issued>)
    requires Ascending(pairs, LongerLiteralFirst) && Longer(issued, pairs) && Gapless(issued)
    ensures Longer(IssueFrom(pairs, texts, technical, issued), []) && Gapless(IssueFrom(pairs, texts, technical, issued))
    decreases |pairs|
  {
    if pairs != [] {
      var more := if Wanted(pairs[0], texts, technical, issued) then issued + [Next(pairs[0], issued)] else issued;
      GaplessOneMore(issued, Next(pairs[0], issued));
      LongerTurn(pairs, issued, Next(pairs[0], issued));
      IssueFromDescends(pairs[1..], texts, technical, more);
    }
  }

  lemma LongerTurn(pairs: seq<(string, string)>, issued: seq<Issued>, e: Issued)
    requires pairs != [] && e.lit == pairs[0].1
    requires Ascending(pairs, LongerLiteralFirst) && Longer(issued, pairs)
    ensures Ascending(pairs[1..], LongerLiteralFirst)
    ensures Longer(issued, pairs[1..]) && Longer(issued + [e], pairs[1..])
  {
    forall j | 0 < j < |pairs| ensures |pairs[j].1| <= |e.lit| {
      assert LongerLiteralFirst(pairs[0], pairs[j]);
    }
  }

  /** A placeholder shows its category and its number; within a category the numbers run
      from one without a gap, and a longer name has the smaller number. */
  lemma NumberedLongestFirst(texts: seq<string>, targets: Targets, e: Issued)
    requires e in Issue(texts, targets)
    ensures e.Key() == "<" + e.prefix + "_" + Decimal(e.number) + ">" && e.number >= 1
    ensures forall f :: f in Issue(texts, targets) && f.prefix == e.prefix && |f.lit| > |e.lit| ==> f.number < e.number
    ensures forall n :: 1 <= n <= e.number ==> Numbers(Issue(texts, targets), e.prefix, n)
  {
    var issued := Issue(texts, targets);
    BasePlanIs(texts, targets);
    SortedAscends(Pairs(targets.targets), LongerLiteralFirst);
    assert Gapless([]);
    IssueFromDescends(targets.AllLiterals(), texts, targets.technical, []);
    assert Counted(issued, e);
    forall f | f in issued && f.prefix == e.prefix && |f.lit| > |e.lit| ensures f.number < e.number {
      var i :| 0 <= i < |issued| && issued[i] == e;
      var j :| 0 <= j < |issued| && issued[j] == f;
      assert j < i ==> Apart(issued[j], issued[i]);
    }
  }

  // ---- what crosses ------------------------------------------------------------

  /** Every text is cut at three thousand characters, and the result says so. */
  ghost predicate CutOf(whole: string, part: string) {
    part <= whole && |part| == if |whole| <= 3000 then |whole| else 3000
  }

  lemma ExcerptCuts(t: string)
    ensures CutOf(t, Excerpt(t))
  {
  }

  /** A listed name that occurs in some text is in no text that `apply` lets out. */
  lemma NoListedNameLeft(texts: seq<string>, targets: Targets, lit: string)
    requires BracketFree(Issue(texts, targets)) && Isolated(BasePlan(texts, targets))
    requires exists k :: 0 <= k < |targets.targets| && lit in targets.targets[k].1
    requires lit !in targets.technical
    requires exists i :: 0 <= i < |texts| && Contains(texts[i], lit)
    ensures |Applied(texts, targets).texts| == |texts|
    ensures forall t :: t in Applied(texts, targets).texts ==> !Contains(t, lit)
  {
    IssuedIff(texts, targets, lit);
    var r := Applied(texts, targets);
    forall i | 0 <= i < |texts| ensures !Contains(r.texts[i], lit) {
      ApplyRoundTrip(texts, targets, i);
    }
  }

  /** Nor in any text that both stages let out, whatever the model proposes. */
  lemma NoListedNameLeftByBoth(texts: seq<string>, targets: Targets, proposals: Proposals, lit: string)
    requires BracketFree(Issue(texts, targets))
    requires CtxFree(Issue(texts, targets), |AcceptedSpans(texts, targets, proposals)|)
    requires Isolated(WholePlan(texts, targets, proposals))
    requires exists k :: 0 <= k < |targets.targets| && lit in targets.targets[k].1
    requires lit !in targets.technical
    requires exists i :: 0 <= i < |texts| && Contains(texts[i], lit)
    ensures |Conservative(texts, targets, proposals).texts| == |texts|
    ensures forall t :: t in Conservative(texts, targets, proposals).texts ==> !Contains(t, lit)
  {
    IssuedIff(texts, targets, lit);
    BasePlanIs(texts, targets);
    var r, plan := Conservative(texts, targets, proposals), WholePlan(texts, targets, proposals);
    var e :| e in Issue(texts, targets) && e.lit == lit;
    assert e.AsSub() in plan;
    forall i | 0 <= i < |texts| ensures !Contains(r.texts[i], lit) {
      ConservativeIsolated(texts, targets, proposals, i);
    }
  }

  /** What comes back from the first stage is the front of the text, three thousand
      characters of it, and the result says whether any text was cut. */
  lemma FrontComesBack(texts: seq<string>, targets: Targets, i: nat)
    requires i < |texts|
    requires BracketFree(Issue(texts, targets)) && Isolated(BasePlan(texts, targets))
    requires forall k :: k in Applied(texts, targets).mapping.table ==> !Contains(texts[i], k)
    ensures Applied(texts, targets).mapping.Valid() && |Applied(texts, targets).texts| == |texts|
    ensures CutOf(texts[i], Rehydrated(Applied(texts, targets).texts[i], Applied(texts, targets).mapping))
    ensures Applied(texts, targets).truncated <==> exists j :: 0 <= j < |texts| && |texts[j]| > 3000
  {
    var m := Applied(texts, targets).mapping;
    ApplyRoundTrip(texts, targets, i);
    ExcerptCuts(texts[i]);
    forall k | k in m.table ensures !Contains(Excerpt(texts[i]), k) {
      if Contains(Excerpt(texts[i]), k) {
        var j: nat :| j <= |Excerpt(texts[i])| && OccursAt(Excerpt(texts[i]), k, j);
        assert OccursAt(texts[i], k, j);
      }
    }
  }

  // ---- which proposals are accepted --------------------------------------------

  /** The stripped proposal may be masked. */
  ghost predicate MayMask(proposal: string, s: string, bodies: seq<string>, technical: set<string>) {
    && Stripped(proposal, s) && 2 <= |s| <= 80
    && (forall c :: c in s ==> c != '<' && c != '>')
    && s !in technical && Contains(JoinLines(bodies), s)
  }

  ghost predicate Proposed(spans: seq<string>, n: nat, s: string, bodies: seq<string>, technical: set<string>)
    requires n <= |spans|
  {
    exists k :: 0 <= k < n && MayMask(spans[k], s, bodies, technical)
  }

  lemma MayMaskIff(proposal: string, s: string, bodies: seq<string>, technical: set<string>)
    ensures MayMask(proposal, s, bodies, technical)
       <==> s == Strip(proposal) && Acceptable(s, JoinLines(bodies), technical)
  {
    StripIs(proposal);
    if Stripped(proposal, s) { OneStripped(proposal, s); }
  }

  /** The accepted spans are those of the first `n` proposals. */
  ghost predicate TakenFrom(spans: seq<string>, n: nat, valid: seq<string>, bodies: seq<string>, technical: set<string>)
    requires n <= |spans|
  {
    forall s :: s in valid <==> Proposed(spans, n, s, bodies, technical)
  }

  lemma TakenOneMore(spans: seq<string>, n: nat, valid: seq<string>, bodies: seq<string>, technical: set<string>)
    requires n < |spans| && TakenFrom(spans, n, valid, bodies, technical)
    ensures var s := Strip(spans[n]);
      TakenFrom(spans, n + 1,
        if Acceptable(s, JoinLines(bodies), technical) && s !in valid then valid + [s] else valid, bodies, technical)
  {
    var t := Strip(spans[n]);
    var more := if Acceptable(t, JoinLines(bodies), technical) && t !in valid then valid + [t] else valid;
    forall s ensures s in more <==> Proposed(spans, n + 1, s, bodies, technical) {
      MayMaskIff(spans[n], s, bodies, technical);
      assert s in valid <==> Proposed(spans, n, s, bodies, technical);
    }
  }

  lemma {:induction false} AcceptFromIs(spans: seq<string>, n: nat, bodies: seq<string>, technical: set<string>, valid: seq<string>)
    returns (m: nat)
    requires n <= |spans| && TakenFrom(spans, n, valid, bodies, technical) && |valid| < 40
    ensures m <= |spans|
    ensures var r := AcceptFrom(spans[n..], JoinLines(bodies), technical, valid);
      TakenFrom(spans, m, r, bodies, technical) && |r| <= 40 && (m < |spans| ==> |r| == 40)
    decreases |spans| - n
  {
    m := n;
    if n < |spans| {
      assert spans[n..][0] == spans[n] && spans[n..][1..] == spans[n + 1..];
      TakenOneMore(spans, n, valid, bodies, technical);
      var s := Strip(spans[n]);
      var more := if Acceptable(s, JoinLines(bodies), technical) && s !in valid then valid + [s] else valid;
      if |more| < 40 {
        m := AcceptFromIs(spans, n + 1, bodies, technical, more);
      } else {
        m := n + 1;
      }
    }
  }

  /** Without an answer nothing is accepted. Otherwise the accepted spans are the stripped
      proposals that may be masked, all of them, or those up to the fortieth. */
  lemma AcceptedAre(texts: seq<string>, targets: Targets, proposals: Proposals) returns (m: nat)
    ensures proposals.Unavailable? ==> AcceptedSpans(texts, targets, proposals) == []
    ensures proposals.Spans? ==> m <= |proposals.spans|
    ensures proposals.Spans? ==> var r := AcceptedSpans(texts, targets, proposals);
      && (forall s :: s in r <==>
           (exists k :: 0 <= k < m && MayMask(proposals.spans[k], s, Applied(texts, targets).texts, targets.technical)))
      && Distinct(r) && |r| <= 40 && (m < |proposals.spans| ==> |r| == 40)
    ensures var r := AcceptedSpans(texts, targets, proposals);
      forall i, j :: 0 <= i < j < |r| ==> |r[j]| < |r[i]| || (|r[j]| == |r[i]| && StringLe(r[i], r[j]))
  {
    m := 0;
    if proposals.Spans? {
      var bodies := Applied(texts, targets).texts;
      var valid := AcceptFrom(proposals.spans, JoinLines(bodies), targets.technical, []);
      assert proposals.spans[0..] == proposals.spans;
      m := AcceptFromIs(proposals.spans, 0, bodies, targets.technical, []);
      AcceptFromDistinct(proposals.spans, JoinLines(bodies), targets.technical, []);
      SortedDistinct(valid, SpanLe);
      SortSpansSorts(valid);
      SameMembers(SortSpans(valid), valid);
      assert forall s :: s in valid <==> Proposed(proposals.spans, m, s, bodies, targets.technical);
      var r := SortSpans(valid);
      forall i, j | 0 <= i < j < |r| ensures |r[j]| < |r[i]| || (|r[j]| == |r[i]| && StringLe(r[i], r[j])) {
        assert SpanLe(r[i], r[j]);
      }
    }
  }

  /** A span of one line stands in the joined text just when it stands in one of the texts. */
  lemma {:induction false} JoinedHolds(bodies: seq<string>, s: string)
    requires s != "" && '\n' !in s
    ensures Contains(JoinLines(bodies), s) <==> exists i :: 0 <= i < |bodies| && Contains(bodies[i], s)
  {
    if |bodies| > 1 {
      JoinedHolds(bodies[1..], s);
      assert forall i :: 0 < i < |bodies| ==> bodies[i] == bodies[1..][i - 1];
      LinesApart(bodies[0], JoinLines(bodies[1..]), s);
    } else if bodies == [] {
      assert !OccursAt("", s, 0);
    }
  }

  lemma LinesApart(a: string, b: string, s: string)
    requires s != "" && '\n' !in s
    ensures Contains(a + "\n" + b, s) <==> Contains(a, s) || Contains(b, s)
  {
    var t, n := a + "\n" + b, |a|;
    assert t[..n] == a && t[n + 1..] == b && t[n] == '\n';
    forall i: nat ensures OccursAt(t, s, i) <==> OccursAt(a, s, i) || (i > n && OccursAt(b, s, i - n - 1)) {
      OccursBeside(t, s, i, n);
    }
    if Contains(b, s) {
      var i: nat :| i <= |b| && OccursAt(b, s, i);
      assert i + n + 1 > n && i + n + 1 - n - 1 == i;
      assert OccursAt(t, s, i + n + 1);
    }
    if Contains(a, s) {
      var i: nat :| i <= |a| && OccursAt(a, s, i);
      assert OccursAt(t, s, i);
    }
  }

  /** An occurrence without a newline lies before or after the newline at `n`. */
  lemma OccursBeside(t: string, s: string, i: nat, n: nat)
    requires s != "" && '\n' !in s && n < |t| && t[n] == '\n'
    ensures OccursAt(t, s, i) <==> OccursAt(t[..n], s, i) || (i > n && OccursAt(t[n + 1..], s, i - n - 1))
  {
    if i + |s| <= n {
      assert t[i..i + |s|] == t[..n][i..i + |s|];
    } else if i > n {
      if i + |s| <= |t| { assert t[i..i + |s|] == t[n + 1..][i - n - 1..i - n - 1 + |s|]; }
    } else {
      OccurrenceCovers(t, s, i, n);
    }
  }

  lemma OccurrenceCovers(t: string, s: string, i: nat, k: nat)
    requires i <= k < i + |s| && k < |t|
    ensures OccursAt(t, s, i) ==> t[k] in s
  {
    if OccursAt(t, s, i) {
      assert t[i..i + |s|][k - i] == t[k];
    }
  }
}
