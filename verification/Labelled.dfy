/** src/mesh/gatekeeper.py, the internal branch: the table un-masking works with also holds
    the labels of documents, which carry no brackets. */
module Labelled {
  import opened Text
  import opened Nests
  import opened Ordering
  import opened Reading
  import opened Plans
  import opened Masking
  import opened Schemas
  import opened Pseudonymizer
  import opened Rehydrator
  import opened MappingMerge

  // ---- rows in which a label lies nowhere -------------------------------------

  /** No placeholder of the row, at any depth, holds `l` in its key. */
  ghost predicate HoldsNone(ns: Row, l: string) {
    ns == []
    || ((ns[0].Sym? ==> !Contains(ns[0].e.key, l) && HoldsNone(ns[0].body, l)) && HoldsNone(ns[1..], l))
  }

  lemma {:induction false} HoldsConcat(a: Row, b: Row, l: string)
    ensures HoldsNone(a + b, l) <==> HoldsNone(a, l) && HoldsNone(b, l)
  {
    if a == [] {
      assert a + b == b;
    } else {
      assert (a + b)[1..] == a[1..] + b;
      HoldsConcat(a[1..], b, l);
    }
  }

  lemma {:induction false} RawsHold(s: string, l: string)
    ensures HoldsNone(Raws(s), l)
  {
    if s != "" {
      assert Raws(s)[1..] == Raws(s[1..]);
      RawsHold(s[1..], l);
    }
  }

  lemma HoldsOne(n: Node, l: string)
    ensures HoldsNone([n], l) <==> (n.Sym? ==> !Contains(n.e.key, l) && HoldsNone(n.body, l))
  {
    assert [n][1..] == [];
  }

  lemma {:induction false} MaskHolds(ns: Row, e: Sub, l: string)
    requires HoldsNone(ns, l) && e.lit != "" && !Contains(e.key, l)
    ensures HoldsNone(MaskRow(ns, e), l)
  {
    if ns != [] {
      if RawPrefix(ns, e.lit) {
        assert ns == ns[..|e.lit|] + ns[|e.lit|..];
        HoldsConcat(ns[..|e.lit|], ns[|e.lit|..], l);
        MaskHolds(ns[|e.lit|..], e, l);
        RawsHold(e.key, l);
        HoldsOne(Sym(e, Raws(e.key)), l);
        HoldsConcat([Sym(e, Raws(e.key))], MaskRow(ns[|e.lit|..], e), l);
      } else {
        MaskHolds(ns[1..], e, l);
        if ns[0].Sym? { MaskHolds(ns[0].body, e, l); }
        HoldsOne(MaskNode(ns[0], e), l);
        HoldsConcat([MaskNode(ns[0], e)], MaskRow(ns[1..], e), l);
      }
    }
  }

  lemma {:induction false} PlanHolds(ns: Row, plan: seq<Sub>, l: string)
    requires HoldsNone(ns, l) && Shaped(plan) && forall e :: e in plan ==> !Contains(e.key, l)
    ensures HoldsNone(MaskRows(ns, plan), l)
    decreases |plan|
  {
    if plan != [] {
      assert plan[0] in plan;
      MaskHolds(ns, plan[0], l);
      PlanHolds(MaskRow(ns, plan[0]), plan[1..], l);
    }
  }

  lemma {:induction false} ReadHolds(ns: Row, k: string, v: string, l: string)
    requires HoldsNone(ns, l) && k != ""
    ensures HoldsNone(ReadRow(ns, k, v), l)
  {
    if ns != [] {
      if RawPrefix(ns, k) {
        assert ns == ns[..|k|] + ns[|k|..];
        HoldsConcat(ns[..|k|], ns[|k|..], l);
        ReadHolds(ns[|k|..], k, v, l);
        RawsHold(v, l);
        HoldsConcat(Raws(v), ReadRow(ns[|k|..], k, v), l);
      } else {
        ReadHolds(ns[1..], k, v, l);
        NodeHolds(ns[0], k, v, l);
        HoldsConcat(ReadNode(ns[0], k, v), ReadRow(ns[1..], k, v), l);
      }
    }
  }

  lemma {:induction false} NodeHolds(n: Node, k: string, v: string, l: string)
    requires (n.Sym? ==> !Contains(n.e.key, l) && HoldsNone(n.body, l)) && k != ""
    ensures HoldsNone(ReadNode(n, k, v), l)
    decreases n, 0
  {
    match n
    case Raw(_) => HoldsOne(n, l);
    case Sym(e, body) =>
      RawsHold(v, l);
      ReadHolds(body, k, v, l);
      HoldsOne(Sym(e, ReadRow(body, k, v)), l);
  }

  /** What is neither in the text nor in a placeholder does not show. */
  lemma {:induction false} NotShown(ns: Row, l: string)
    requires Formed(ns) && l != "" && Plain(l) && !Contains(Expand(ns), l) && HoldsNone(ns, l)
    ensures !Contains(Render(ns), l)
  {
    if ns == [] {
      assert Render(ns) == "" && Expand(ns) == "";
    } else {
      ContainsBehind(ExpandNode(ns[0]), Expand(ns[1..]), l);
      NotShown(ns[1..], l);
      match ns[0]
      case Raw(c) =>
        assert Render(ns) == [c] + Render(ns[1..]);
        ContainsTail(c, Render(ns[1..]), l);
        if StartsWith(Render(ns), l) {
          StartIsRaw(ns, l);
          RunIsSpelled(ns, l);
        }
      case Sym(e, body) =>
        NotShown(body, l);
        BodyRenders(body, e.key);
        ContainsApart(Render(body), Render(ns[1..]), l);
    }
  }

  // ---- labels have no turn ------------------------------------------------------

  /** The placeholders among the keys. */
  function Placeholders(order: seq<string>): seq<string> {
    if order == [] then []
    else (if Bracketed(order[0]) then [order[0]] else []) + Placeholders(order[1..])
  }

  lemma {:induction false} PlaceholdersAre(order: seq<string>)
    ensures forall k :: k in Placeholders(order) <==> k in order && Bracketed(k)
    ensures Distinct(order) ==> Distinct(Placeholders(order))
  {
    if order != [] {
      PlaceholdersAre(order[1..]);
      assert order == [order[0]] + order[1..];
      if Distinct(order) {
        forall j | 0 < j < |order| ensures order[j] != order[0] { }
        assert order[0] !in order[1..];
      }
    }
  }

  lemma RankInFront(x: string, rest: seq<string>, k: string)
    ensures Rank([x] + rest, k) == if x == k then 0 else 1 + Rank(rest, k)
  {
    assert ([x] + rest)[1..] == rest;
  }

  lemma {:induction false} SameBefore(order: seq<string>, k: string, l: string)
    requires k in order && l in order && Bracketed(k) && Bracketed(l)
    ensures Before(order, k, l) <==> Before(Placeholders(order), k, l)
  {
    var x, rest := order[0], order[1..];
    assert order == [x] + rest;
    RankInFront(x, rest, k);
    RankInFront(x, rest, l);
    if Bracketed(x) {
      assert Placeholders(order) == [x] + Placeholders(rest);
      RankInFront(x, Placeholders(rest), k);
      RankInFront(x, Placeholders(rest), l);
    } else {
      assert Placeholders(order) == Placeholders(rest);
    }
    if x != k && x != l { SameBefore(rest, k, l); }
  }

  lemma SameInnerFirst(order: seq<string>, plan: seq<Sub>, s: string)
    requires Shaped(plan) && forall e :: e in plan ==> e.key in order
    ensures InnerFirst(order, plan, s) <==> InnerFirst(Placeholders(order), plan, s)
  {
    forall j: nat | j < |plan| ensures InTime(order, plan, j) <==> InTime(Placeholders(order), plan, j) {
      var key, rest := plan[j].key, plan[j + 1..];
      assert plan[j] in plan;
      forall i: nat | Used(key, rest, i)
        ensures Rank(order, rest[i].key) < Rank(order, key)
            <==> Rank(Placeholders(order), rest[i].key) < Rank(Placeholders(order), key)
      {
        assert rest[i] in plan;
        SameBefore(order, rest[i].key, key);
      }
    }
  }

  /** A key that is a placeholder, or else a label that lies in no placeholder; and that the
      text does not hold. */
  ghost predicate Idle(s: string, ns: Row, k: string) {
    !Contains(s, k) && (Bracketed(k) || (k != "" && Plain(k) && HoldsNone(ns, k)))
  }

  lemma {:induction false} LabelsIdle(ns: Row, order: seq<string>, table: map<string, string>)
    requires Formed(ns) && ReadsAs(ns, table) && forall k :: k in order ==> k in table && Idle(Expand(ns), ns, k)
    ensures forall k :: k in Placeholders(order) ==> k in table
    ensures UnmaskText(Render(ns), order, table) == UnmaskText(Render(ns), Placeholders(order), table)
    decreases |order|
  {
    PlaceholdersAre(order);
    if order != [] {
      var k := order[0];
      var v, next, rest := table[k], ReadRow(ns, k, table[k]), order[1..];
      assert k in order && forall x :: x in rest ==> x in order;
      if Bracketed(k) {
        NotSpelledNoRun(ns, k);
        ReadsMeans(ns, table, k);
        ReadExpands(ns, k, v);
        ReadRenders(ns, k, v);
        ReadKeepsReads(ns, table, k, v);
        forall x | x in rest ensures Idle(Expand(next), next, x) {
          if !Bracketed(x) { ReadHolds(ns, k, v, x); }
        }
        LabelsIdle(next, rest, table);
        assert Placeholders(order)[1..] == Placeholders(rest);
      } else {
        NotShown(ns, k);
        ReplaceAbsent(Render(ns), k, v);
        LabelsIdle(ns, rest, table);
        assert Placeholders(order) == Placeholders(rest);
      }
    }
  }

  /** A bracket-free label that the text does not hold and that lies in no placeholder. */
  ghost predicate FreeLabel(k: string, s: string, plan: seq<Sub>) {
    k != "" && Plain(k) && !Contains(s, k) && forall e :: e in plan ==> !Contains(e.key, k)
  }

  /** Under a table that also holds such labels, whatever they stand for, a text that spells
      no key comes back just as without them: if and only if every placeholder is read after
      those put inside it. */
  lemma LabelledIff(s: string, plan: seq<Sub>, order: seq<string>, table: map<string, string>)
    requires Shaped(plan) && Distinct(order) && Reads(table, plan)
    requires (forall k :: k in order ==> k in table) && (forall e :: e in plan ==> e.key in order)
    requires forall k :: k in order ==> if Bracketed(k) then !Contains(s, k) else FreeLabel(k, s, plan)
    ensures UnmaskText(MaskText(s, plan), order, table) == s <==> InnerFirst(order, plan, s)
  {
    var row, keys := MaskRows(Raws(s), plan), Placeholders(order);
    KeyAlone(s, plan, table);
    PlaceholdersAre(order);
    forall k | k in order ensures Idle(s, row, k) {
      if !Bracketed(k) {
        RawsHold(s, k);
        PlanHolds(Raws(s), plan, k);
      }
    }
    LabelsIdle(row, order, table);
    UnmaskIsAfter(Render(row), keys, table);
    ReadBackIff(row, keys, table);
    MaskedGood(s, plan, keys, |keys|);
    forall i: nat | Used(s, plan, i) ensures Rank(keys, plan[i].key) < |keys| { assert plan[i] in plan; }
    SameInnerFirst(order, plan, s);
  }

  // ---- both stages ----------------------------------------------------------------

  /** The mapping of the two stages, merged with labels whose keys are such. */
  ghost predicate MergedWith(merged: Mapping, labels: Mapping, m: Mapping, s: string, plan: seq<Sub>) {
    && labels.Valid() && m.Valid() && IsUnion(merged, [labels, m])
    && forall k :: k in labels.table ==> FreeLabel(k, s, plan)
  }

  lemma MergedKeys(merged: Mapping, labels: Mapping, m: Mapping)
    requires IsUnion(merged, [labels, m])
    ensures forall k :: k in merged.table <==> k in labels.table || k in m.table
    ensures forall k :: k in m.table ==> k in merged.table && merged.table[k] == m.table[k]
  {
    var ms := [labels, m];
    assert labels in ms && m in ms;
    forall k | k in labels.table ensures k in merged.table { assert Says(ms, k, labels.table[k]); }
    forall k | k in m.table ensures k in merged.table && merged.table[k] == m.table[k] { assert Says(ms, k, m.table[k]); }
    forall k | k in merged.table ensures k in labels.table || k in m.table { assert Says(ms, k, merged.table[k]); }
  }

  lemma MergedFits(merged: Mapping, labels: Mapping, m: Mapping, s: string, plan: seq<Sub>)
    requires MergedWith(merged, labels, m, s, plan) && Tabled(m, plan) && Shaped(plan) && SpellsNone(s, m)
    ensures merged.Valid()
    ensures Rehydrated(MaskText(s, plan), merged) == s <==> InnerFirst(merged.KeysLongestFirst(), plan, s)
  {
    var order := merged.KeysLongestFirst();
    MergedKeys(merged, labels, m);
    KeysLongestFirstCovers(merged);
    forall k | k in order ensures if Bracketed(k) then !Contains(s, k) else FreeLabel(k, s, plan) {
      if k !in labels.table {
        assert k in Keys(plan);
        var e :| e in plan && e.key == k;
      } else {
        LabelNotBracketed(k, s, plan);
      }
    }
    LabelledIff(s, plan, order, merged.table);
  }

  lemma LabelNotBracketed(k: string, s: string, plan: seq<Sub>)
    requires FreeLabel(k, s, plan)
    ensures !Bracketed(k)
  {
    PlainFirst(k);
  }

  /** Both stages, un-masked with the merged mapping: a text that holds no label and spells
      no placeholder comes back if and only if every placeholder is read after those put
      inside it; labels must not lie in placeholders. */
  lemma LabelledRoundTripIff(texts: seq<string>, targets: Targets, proposals: Proposals, i: nat,
                             labels: Mapping, merged: Mapping)
    requires i < |texts| && BracketFree(Issue(texts, targets))
    requires CtxFree(Issue(texts, targets), |AcceptedSpans(texts, targets, proposals)|)
    requires MergedWith(merged, labels, Conservative(texts, targets, proposals).mapping,
                        Excerpt(texts[i]), WholePlan(texts, targets, proposals))
    requires SpellsNone(Excerpt(texts[i]), Conservative(texts, targets, proposals).mapping)
    ensures var r, s := Conservative(texts, targets, proposals), Excerpt(texts[i]);
      && |r.texts| == |texts| && merged.Valid()
      && (Rehydrated(r.texts[i], merged) == s
          <==> InnerFirst(merged.KeysLongestFirst(), WholePlan(texts, targets, proposals), s))
  {
    var r, plan := Conservative(texts, targets, proposals), WholePlan(texts, targets, proposals);
    WholeFits(texts, targets, proposals, i);
    MergedFits(merged, labels, r.mapping, Excerpt(texts[i]), plan);
  }

  /** So it does whenever each literal and each span that lies inside an earlier placeholder
      has its own placeholder read first. */
  lemma LabelledRoundTrip(texts: seq<string>, targets: Targets, proposals: Proposals, i: nat,
                          labels: Mapping, merged: Mapping)
    requires i < |texts| && BracketFree(Issue(texts, targets))
    requires CtxFree(Issue(texts, targets), |AcceptedSpans(texts, targets, proposals)|)
    requires MergedWith(merged, labels, Conservative(texts, targets, proposals).mapping,
                        Excerpt(texts[i]), WholePlan(texts, targets, proposals))
    requires SpellsNone(Excerpt(texts[i]), Conservative(texts, targets, proposals).mapping)
    requires EarlierRead(merged.KeysLongestFirst(), WholePlan(texts, targets, proposals))
    ensures var r := Conservative(texts, targets, proposals);
      |r.texts| == |texts| && merged.Valid() && Rehydrated(r.texts[i], merged) == Excerpt(texts[i])
  {
    WholeFits(texts, targets, proposals, i);
    LabelledRoundTripIff(texts, targets, proposals, i, labels, merged);
    EarlierReadInner(merged.KeysLongestFirst(), WholePlan(texts, targets, proposals), Excerpt(texts[i]));
  }
}
