/** Masking and un-masking along a plan: exactly when the text comes back, and exactly
    which literals are left in the masked text. */
module Masking {
  import opened Sequences
  import opened Text
  import opened Nests
  import opened Reading
  import opened Restoring
  import opened Plans

  // ---- what un-masking makes of it -----------------------------------------

  lemma {:induction false} TextAfterConcat(s: string, k: string, order: seq<string>, table: map<string, string>, n: nat)
    requires n <= |order| && k in table && forall x :: x in order ==> x in table
    ensures TextAfter(s, [k] + order, table, n + 1) == TextAfter(Replace(s, k, table[k]), order, table, n)
  {
    if n == 0 {
      assert TextAfter(s, [k] + order, table, 0) == s;
    } else {
      TextAfterConcat(s, k, order, table, n - 1);
      assert ([k] + order)[n] == order[n - 1];
    }
  }

  /** Un-masking goes through the keys in their order. */
  lemma {:induction false} UnmaskIsAfter(s: string, order: seq<string>, table: map<string, string>)
    requires forall k :: k in order ==> k in table
    ensures UnmaskText(s, order, table) == TextAfter(s, order, table, |order|)
    decreases |order|
  {
    if order != [] {
      UnmaskIsAfter(Replace(s, order[0], table[order[0]]), order[1..], table);
      TextAfterConcat(s, order[0], order[1..], table, |order| - 1);
      assert order == [order[0]] + order[1..];
    }
  }

  lemma CoversKeyed(order: seq<string>, table: map<string, string>, plan: seq<Sub>)
    requires Shaped(plan) && Covers(order, table, plan)
    ensures Keyed(order, table)
    ensures forall e :: e in plan ==> Rank(order, e.key) < |order|
  {
    forall k | k in order ensures Bracketed(k) && table[k] != "" && Plain(table[k]) {
      assert k in Keys(plan);
      var e :| e in plan && e.key == k;
    }
  }

  /** Rows that stand for the same text piece by piece are the same. */
  lemma {:induction false} SameParts(a: Row, b: Row, c: Row, d: Row)
    requires Formed(a + b) && a + b == c + d && Expand(a) == Expand(c)
    ensures a == c && b == d
  {
    FormedConcat(a, b);
    FormedConcat(c, d);
    if a == [] {
      NothingLeft(c);
      assert a + b == b && c + d == d;
    } else if c == [] {
      NothingLeft(a);
    } else {
      assert (a + b)[0] == a[0] && (c + d)[0] == c[0];
      assert (a + b)[1..] == a[1..] + b && (c + d)[1..] == c[1..] + d;
      SameFront(ExpandNode(a[0]), Expand(a[1..]), Expand(c[1..]));
      SameParts(a[1..], b, c[1..], d);
      assert a == [a[0]] + a[1..] && c == [c[0]] + c[1..];
    }
  }

  /** Rows are masked apart where the texts are. */
  lemma {:induction false} MaskRowSplit(a: Row, b: Row, e: Sub)
    requires e.lit != "" && (b == [] || forall c :: c in e.lit ==> b[0] != Raw(c))
    ensures MaskRow(a + b, e) == MaskRow(a, e) + MaskRow(b, e)
  {
    if a == [] {
      assert a + b == b;
    } else {
      assert (a + b)[1..] == a[1..] + b;
      RunApart(a, b, e.lit);
      if RawPrefix(a, e.lit) {
        assert (a + b)[|e.lit|..] == a[|e.lit|..] + b;
        MaskRowSplit(a[|e.lit|..], b, e);
        Regroup([Sym(e, Raws(e.key))], MaskRow(a[|e.lit|..], e), MaskRow(b, e));
      } else {
        MaskRowSplit(a[1..], b, e);
        Regroup([MaskNode(a[0], e)], MaskRow(a[1..], e), MaskRow(b, e));
      }
    }
  }

  lemma ReachesOver(a: Row, b: Row, lit: string)
    requires RawPrefix(a + b, lit) && |lit| > |a|
    ensures b != [] && exists c :: c in lit && b[0] == Raw(c)
  {
    assert (a + b)[|a|] == b[0] && lit[|a|] in lit;
  }

  lemma RunApart(a: Row, b: Row, lit: string)
    requires lit != "" && a != [] && (b == [] || forall c :: c in lit ==> b[0] != Raw(c))
    ensures RawPrefix(a + b, lit) <==> RawPrefix(a, lit)
  {
    if RawPrefix(a + b, lit) {
      if |lit| > |a| { ReachesOver(a, b, lit); }
      forall i | 0 <= i < |lit| ensures a[i] == Raw(lit[i]) { assert (a + b)[i] == a[i]; }
    }
  }

  /** A row that starts with the bracket `c` goes on starting with it. */
  lemma BracketFirst(b: Row, e: Sub, c: char)
    requires ShapedSub(e) && (c == '<' || c == '>') && b != [] && b[0] == Raw(c)
    ensures MaskRow(b, e) != [] && MaskRow(b, e)[0] == Raw(c)
  {
    if RawPrefix(b, e.lit) { PlainFirst(e.lit); }
  }

  lemma {:induction false} MaskRowsSplit(a: Row, b: Row, plan: seq<Sub>, c: char)
    requires Shaped(plan) && (c == '<' || c == '>') && b != [] && b[0] == Raw(c)
    ensures MaskRows(a + b, plan) == MaskRows(a, plan) + MaskRows(b, plan)
    ensures MaskRows(b, plan) != [] && MaskRows(b, plan)[0] == Raw(c)
    decreases |plan|
  {
    if plan != [] {
      assert plan[0] in plan;
      MaskRowSplit(a, b, plan[0]);
      BracketFirst(b, plan[0], c);
      MaskRowsSplit(MaskRow(a, plan[0]), MaskRow(b, plan[0]), plan[1..], c);
    }
  }

  lemma {:induction false} CloseStays(b: Row, plan: seq<Sub>)
    requires Shaped(plan)
    ensures MaskRows([Raw('>')] + b, plan) == [Raw('>')] + MaskRows(b, plan)
    decreases |plan|
  {
    if plan != [] {
      assert plan[0] in plan;
      var ns := [Raw('>')] + b;
      assert ns[1..] == b;
      if RawPrefix(ns, plan[0].lit) { PlainFirst(plan[0].lit); }
      assert MaskRow(ns, plan[0]) == [Raw('>')] + MaskRow(b, plan[0]);
      CloseStays(MaskRow(b, plan[0]), plan[1..]);
    }
  }

  /** A spelled placeholder is masked by itself, wherever it stands. */
  lemma SpelledSplit(a: string, k: string, b: string, plan: seq<Sub>)
    requires Shaped(plan) && Bracketed(k)
    ensures MaskRows(Raws(a + k + b), plan)
         == MaskRows(Raws(a), plan) + MaskRows(Raws(k), plan) + MaskRows(Raws(b), plan)
  {
    var front := k[..|k| - 1];
    var x, y, z := Raws(a), Raws(front), Raws(b);
    assert Raws(a + k + b) == x + (y + ([Raw('>')] + z));
    assert Raws(k) == y + [Raw('>')];
    assert [Raw('>')] + [] == [Raw('>')];
    CloseStays(z, plan);
    CloseStays([], plan);
    NothingMasked(plan);
    MaskRowsSplit(x + y, [Raw('>')] + z, plan, '>');
    MaskRowsSplit(y, [Raw('>')], plan, '>');
    MaskRowsSplit(x, y, plan, '<');
    Regroup(x, y, [Raw('>')] + z);
    var p, q, r := MaskRows(x, plan), MaskRows(y, plan), MaskRows(z, plan);
    assert (p + q) + ([Raw('>')] + r) == p + (q + [Raw('>')]) + r;
  }

  lemma {:induction false} NothingMasked(plan: seq<Sub>)
    requires Shaped(plan)
    ensures MaskRows([], plan) == []
    decreases |plan|
  {
    if plan != [] {
      assert plan[0] in plan;
      assert MaskRow([], plan[0]) == [];
      NothingMasked(plan[1..]);
    }
  }

  lemma KeyAlone(k: string, plan: seq<Sub>, table: map<string, string>)
    requires Shaped(plan) && Reads(table, plan)
    ensures var r := MaskRows(Raws(k), plan);
      Formed(r) && ReadsAs(r, table) && Expand(r) == k && Render(r) == MaskText(k, plan)
  {
    RawsRender(k);
    RawsRead(k, table);
    MaskRowsKeep(Raws(k), plan);
    MaskRowsRead(Raws(k), plan, table);
  }

  /** Some key spelled in `s` will be read as that key. */
  lemma SpelledWhole(s: string, plan: seq<Sub>, order: seq<string>, table: map<string, string>, k: string)
    requires Shaped(plan) && Covers(order, table, plan) && k in table && Contains(s, k)
    requires NoneWhole(MaskRows(Raws(s), plan), order)
    ensures !Good(MaskRows(Raws(k), plan), order, 0, Rank(order, k))
  {
    CoversKeyed(order, table, plan);
    var i: nat :| i <= |s| && OccursAt(s, k, i);
    ContainsSplit(s, k, i);
    SpelledSplit(s[..i], k, s[i + |k|..], plan);
    KeyAlone(k, plan, table);
    NoneWholeAt(MaskRows(Raws(s[..i]), plan), MaskRows(Raws(k), plan), MaskRows(Raws(s[i + |k|..]), plan), order, Rank(order, k));
  }

  lemma WholeSpelled(s: string, plan: seq<Sub>, order: seq<string>, table: map<string, string>)
    requires Shaped(plan) && Covers(order, table, plan)
    requires !NoneWhole(MaskRows(Raws(s), plan), order)
    ensures exists k :: k in table && Contains(s, k) && Good(MaskRows(Raws(k), plan), order, 0, Rank(order, k))
  {
    CoversKeyed(order, table, plan);
    var m := MaskRows(Raws(s), plan);
    KeyAlone(s, plan, table);
    var a, n, b, p := SomeWhole(m, order);
    var k := order[p];
    assert k in order;
    RankAt(order, p);
    FormedConcat(a + n, b);
    FormedConcat(a, n);
    ExpandConcat(a + n, b);
    ExpandConcat(a, n);
    var x, y := Expand(a), Expand(b);
    assert s == x + k + y;
    ContainsIntro(x, k, y);
    SpelledSplit(x, k, y, plan);
    KeyAlone(x, plan, table);
    KeyAlone(k, plan, table);
    var mx, mk, my := MaskRows(Raws(x), plan), MaskRows(Raws(k), plan), MaskRows(Raws(y), plan);
    Regroup(a, n, b);
    Regroup(mx, mk, my);
    SameParts(a, n + b, mx, mk + my);
    FormedConcat(a, n + b);
    SameParts(n, b, mk, my);
  }

  lemma UsedInside(a: string, k: string, b: string, plan: seq<Sub>, i: nat)
    requires Shaped(plan) && Bracketed(k) && (Used(a, plan, i) || Used(k, plan, i) || Used(b, plan, i))
    ensures Used(a + k + b, plan, i)
  {
    var front, lit := plan[..i], plan[i].lit;
    assert forall e :: e in front ==> e in plan;
    MaskTextSplit(a, k, b, front);
    var x, y, z := MaskText(a, front), MaskText(k, front), MaskText(b, front);
    if Contains(x, lit) { ContainsFront(x, y, lit); }
    ContainsBehind(x, y, lit);
    if Contains(x + y, lit) { ContainsFront(x + y, z, lit); }
    ContainsBehind(x + y, z, lit);
  }

  /** For a key spelled in a text that is otherwise read back, being whole in its turn is
      not being shielded. */
  lemma ShieldedIff(s: string, plan: seq<Sub>, order: seq<string>, k: string)
    requires Shaped(plan) && Bracketed(k) && Contains(s, k) && InnerFirst(order, plan, s)
    ensures Good(MaskRows(Raws(k), plan), order, 0, Rank(order, k)) <==> !Shielded(order, plan, k)
  {
    var i: nat :| i <= |s| && OccursAt(s, k, i);
    ContainsSplit(s, k, i);
    forall j: nat | Used(k, plan, j) ensures Used(s, plan, j) {
      UsedInside(s[..i], k, s[i + |k|..], plan, j);
    }
    assert InnerFirst(order, plan, k);
    MaskedGood(k, plan, order, Rank(order, k));
  }

  // ---- the theorems --------------------------------------------------------

  /** Un-masking gives the text back if and only if every placeholder is read after those
      put inside it, and every placeholder the text happens to spell is cut up by some
      replacement that is not undone before that placeholder's turn. */
  lemma RoundTripIff(s: string, plan: seq<Sub>, order: seq<string>, table: map<string, string>)
    requires Shaped(plan) && Covers(order, table, plan)
    ensures UnmaskText(MaskText(s, plan), order, table) == s
       <==> InnerFirst(order, plan, s)
            && forall k :: k in table && Contains(s, k) ==> Shielded(order, plan, k)
  {
    var m := MaskRows(Raws(s), plan);
    CoversKeyed(order, table, plan);
    KeyAlone(s, plan, table);
    UnmaskIsAfter(MaskText(s, plan), order, table);
    ReadBackExactly(m, order, table);
    MaskedGood(s, plan, order, |order|);
    assert Room(s, plan, order, |order|) by {
      forall i: nat | Used(s, plan, i) ensures Rank(order, plan[i].key) < |order| { assert plan[i] in plan; }
    }
    if InnerFirst(order, plan, s) {
      if NoneWhole(m, order) {
        forall k | k in table && Contains(s, k) ensures Shielded(order, plan, k) {
          assert k in order;
          SpelledWhole(s, plan, order, table, k);
          ShieldedIff(s, plan, order, k);
        }
      } else {
        WholeSpelled(s, plan, order, table);
        var k :| k in table && Contains(s, k) && Good(MaskRows(Raws(k), plan), order, 0, Rank(order, k));
        assert k in order;
        ShieldedIff(s, plan, order, k);
      }
    }
  }

  // ---- what survives masking -----------------------------------------------

  /** A bracket-free run at the front of a text with placeholders put in was there before. */
  lemma {:induction false} PlainFront(t: string, e: Sub, p: string)
    requires ShapedSub(e) && '<' !in p && StartsWith(Replace(t, e.lit, e.key), p)
    ensures StartsWith(t, p)
    decreases |t|
  {
    if p != "" {
      StartsWithAt(Replace(t, e.lit, e.key), p);
      assert p[0] in p && t != "";
      assert t == [t[0]] + t[1..];
      if StartsWith(t, e.lit) {
        ReplaceHit(t, e.lit, e.key);
      } else {
        ReplaceStep(t[0], t[1..], e.lit, e.key);
        var rest := Replace(t[1..], e.lit, e.key);
        assert rest[..|p| - 1] == p[1..];
        PlainFront(t[1..], e, p[1..]);
        assert p == [p[0]] + p[1..];
      }
    }
  }

  /** One replacement brings in no bracket-free text but what its placeholder holds. */
  lemma {:induction false} BroughtIn(t: string, e: Sub, lit: string)
    requires ShapedSub(e) && lit != "" && Plain(lit) && Contains(Replace(t, e.lit, e.key), lit)
    ensures (Contains(t, lit) && lit != e.lit) || (Contains(t, e.lit) && Contains(e.key, lit))
    decreases |t|
  {
    assert t != "";
    if StartsWith(t, e.lit) {
      var rest := t[|e.lit|..];
      ReplaceHit(t, e.lit, e.key);
      ContainsApart(e.key, Replace(rest, e.lit, e.key), lit);
      assert t == t[..|e.lit|] + rest;
      ContainsIntro("", e.lit, rest);
      assert "" + e.lit + rest == t;
      ContainsBehind(t[..|e.lit|], rest, lit);
      if Contains(Replace(rest, e.lit, e.key), lit) { BroughtIn(rest, e, lit); }
    } else {
      var rest := t[1..];
      assert t == [t[0]] + rest;
      ReplaceStep(t[0], rest, e.lit, e.key);
      ContainsTail(t[0], Replace(rest, e.lit, e.key), lit);
      ContainsTail(t[0], rest, lit);
      ContainsTail(t[0], rest, e.lit);
      if Contains(Replace(rest, e.lit, e.key), lit) {
        BroughtIn(rest, e, lit);
      } else {
        PlainFront(t, e, lit);
      }
    }
  }

  /** So it was in the text, or some placeholder that was put in holds it. */
  lemma {:induction false} KeptOrInserted(t: string, plan: seq<Sub>, lit: string)
    requires Shaped(plan) && lit != "" && Plain(lit) && Contains(MaskText(t, plan), lit)
    ensures Contains(t, lit) || exists m: nat :: Used(t, plan, m) && Contains(plan[m].key, lit)
    decreases |plan|
  {
    if plan != [] {
      var n := |plan| - 1;
      var front, e := plan[..n], plan[n];
      assert plan == front + [e] && e in plan;
      MaskTextConcat(t, front, [e]);
      MaskTextCons(MaskText(t, front), e, []);
      BroughtIn(MaskText(t, front), e, lit);
      if Contains(MaskText(t, front), e.lit) && Contains(e.key, lit) {
        assert Used(t, plan, n);
      } else {
        KeptOrInserted(t, front, lit);
        if !Contains(t, lit) {
          var m: nat :| Used(t, front, m) && Contains(front[m].key, lit);
          assert front[..m] == plan[..m];
          assert Used(t, plan, m);
        }
      }
    }
  }

  /** A condition on the plan alone: whenever a literal lies inside an earlier
      placeholder, its own placeholder is read back before that one. */
  ghost predicate EarlierRead(order: seq<string>, plan: seq<Sub>) {
    forall m, i :: 0 <= m < i < |plan| && Contains(plan[m].key, plan[i].lit) ==> Before(order, plan[i].key, plan[m].key)
  }

  lemma {:induction false} EarlierReadRoom(order: seq<string>, plan: seq<Sub>, j: nat, i: nat)
    requires Shaped(plan) && EarlierRead(order, plan) && j < |plan| && Used(plan[j].key, plan[j + 1..], i)
    ensures Before(order, plan[j + 1..][i].key, plan[j].key)
    decreases i
  {
    var rest, key := plan[j + 1..], plan[j].key;
    assert rest[i] == plan[j + 1 + i] && rest[i] in plan;
    KeptOrInserted(key, rest[..i], rest[i].lit);
    if !Contains(key, rest[i].lit) {
      var m: nat :| Used(key, rest[..i], m) && Contains(rest[..i][m].key, rest[i].lit);
      assert rest[..i][..m] == rest[..m] && rest[..i][m] == rest[m] == plan[j + 1 + m];
      assert Used(key, rest, m);
      EarlierReadRoom(order, plan, j, m);
      assert Before(order, plan[j + 1 + i].key, plan[j + 1 + m].key);
    }
  }

  lemma EarlierReadInner(order: seq<string>, plan: seq<Sub>, s: string)
    requires Shaped(plan) && EarlierRead(order, plan)
    ensures InnerFirst(order, plan, s)
  {
    forall j: nat | Used(s, plan, j) ensures InTime(order, plan, j) {
      var key, rest := plan[j].key, plan[j + 1..];
      forall i: nat | Used(key, rest, i) ensures Rank(order, rest[i].key) < Rank(order, key) {
        EarlierReadRoom(order, plan, j, i);
      }
    }
  }

  /** It is enough for every text that spells no key. */
  lemma RoundTrip(s: string, plan: seq<Sub>, order: seq<string>, table: map<string, string>)
    requires Shaped(plan) && Covers(order, table, plan) && EarlierRead(order, plan)
    requires forall k :: k in table ==> !Contains(s, k)
    ensures UnmaskText(MaskText(s, plan), order, table) == s
  {
    EarlierReadInner(order, plan, s);
    RoundTripIff(s, plan, order, table);
  }

  /** Where a replaced text holds `lit`: in a placeholder just put in, or in a part with no
      occurrence of the replaced literal. */
  ghost predicate PartOf(part: string, t: string, e: Sub, rest: seq<Sub>, lit: string) {
    && !Contains(part, e.lit)
    && (Contains(part, lit) ==> Contains(t, lit))
    && forall j: nat :: Used(part, rest, j) ==> Used(Replace(t, e.lit, e.key), rest, j)
  }

  lemma {:induction false} WhichPart(t: string, e: Sub, rest: seq<Sub>, lit: string) returns (part: string)
    requires ShapedSub(e) && Shaped(rest) && lit != "" && Plain(lit)
    requires Contains(MaskText(Replace(t, e.lit, e.key), rest), lit)
    ensures || (Contains(t, e.lit) && Contains(MaskText(e.key, rest), lit))
            || (PartOf(part, t, e, rest, lit) && Contains(MaskText(part, rest), lit))
    decreases |t|
  {
    part := t;
    if Contains(t, e.lit) {
      var a, b := FirstSplit(t, e.lit);
      PartsOf(a, b, t, e, rest, lit);
      if Contains(MaskText(a, rest), lit) {
        part := a;
      } else if !Contains(MaskText(e.key, rest), lit) {
        part := WhichPart(b, e, rest, lit);
      }
    } else {
      ReplaceAbsent(t, e.lit, e.key);
    }
  }

  lemma PartsOf(a: string, b: string, t: string, e: Sub, rest: seq<Sub>, lit: string)
    requires ShapedSub(e) && Shaped(rest) && lit != "" && Plain(lit)
    requires t == a + e.lit + b && !Contains(a, e.lit) && NoStartIn(a, e.lit + b, e.lit)
    ensures Contains(MaskText(Replace(t, e.lit, e.key), rest), lit)
       <==> || Contains(MaskText(a, rest), lit) || Contains(MaskText(e.key, rest), lit)
            || Contains(MaskText(Replace(b, e.lit, e.key), rest), lit)
    ensures PartOf(a, t, e, rest, lit)
    ensures forall part :: PartOf(part, b, e, rest, lit) ==> PartOf(part, t, e, rest, lit)
  {
    var tail := Replace(b, e.lit, e.key);
    ReplaceFirst(a, e, b);
    MaskTextSplit(a, e.key, tail, rest);
    HoldsApart(MaskText(a, rest), MaskText(e.key, rest), MaskText(tail, rest), lit, e, rest);
    Regroup(a, e.lit, b);
    if Contains(a, lit) { ContainsFront(a, e.lit + b, lit); }
    ContainsBehind(a + e.lit, b, lit);
    forall j: nat ensures Used(a, rest, j) || Used(tail, rest, j) ==> Used(Replace(t, e.lit, e.key), rest, j) {
      if Used(a, rest, j) || Used(tail, rest, j) { UsedInside(a, e.key, tail, rest, j); }
    }
  }

  /** The leftmost occurrence. */
  lemma {:induction false} FirstSplit(t: string, lit: string) returns (a: string, b: string)
    requires lit != "" && Contains(t, lit)
    ensures t == a + lit + b && !Contains(a, lit) && NoStartIn(a, lit + b, lit) && |b| < |t|
    decreases |t|
  {
    if StartsWith(t, lit) {
      a, b := "", t[|lit|..];
      assert !Contains("", lit);
    } else {
      assert t == [t[0]] + t[1..];
      ContainsTail(t[0], t[1..], lit);
      var x;
      x, b := FirstSplit(t[1..], lit);
      a := [t[0]] + x;
      assert t == a + (lit + b);
      NotBefore(t[0], x, lit + b, lit);
    }
  }

  lemma NotBefore(c: char, x: string, rest: string, lit: string)
    requires !Contains(x, lit) && NoStartIn(x, rest, lit) && !StartsWith([c] + x + rest, lit)
    ensures !Contains([c] + x, lit) && NoStartIn([c] + x, rest, lit)
  {
    var a := [c] + x;
    ContainsTail(c, x, lit);
    StartsLonger(a, rest, lit);
    forall i | 0 <= i < |a| ensures !StartsWith(a[i..] + rest, lit) {
      if i > 0 { assert a[i..] == x[i - 1..]; } else { assert a[0..] == a; }
    }
  }

  lemma ReplaceFirst(a: string, e: Sub, b: string)
    requires e.lit != "" && NoStartIn(a, e.lit + b, e.lit)
    ensures Replace(a + e.lit + b, e.lit, e.key) == a + e.key + Replace(b, e.lit, e.key)
  {
    Regroup(a, e.lit, b);
    ReplaceSkips(a, e.lit + b, e.lit, e.key);
    assert (e.lit + b)[..|e.lit|] == e.lit && (e.lit + b)[|e.lit|..] == b;
    ReplaceHit(e.lit + b, e.lit, e.key);
    Regroup(a, e.key, Replace(b, e.lit, e.key));
  }

  /** What the parts hold is what the whole holds, for brackets stand between them. */
  lemma HoldsApart(a: string, k: string, b: string, lit: string, e: Sub, rest: seq<Sub>)
    requires lit != "" && Plain(lit) && ShapedSub(e) && Shaped(rest) && k == MaskText(e.key, rest)
    ensures Contains(a + k + b, lit) <==> Contains(a, lit) || Contains(k, lit) || Contains(b, lit)
  {
    BracketsStayAll(e.key, rest);
    assert (a + k)[|a + k| - 1] == '>';
    ContainsApart(a + k, b, lit);
    if Contains(a, lit) { ContainsFront(a, k, lit); }
    ContainsBehind(a, k, lit);
    if Contains(a + k, lit) { ContainsAfterOpen(a, k, lit); }
  }

  lemma {:induction false} BracketsStayAll(k: string, plan: seq<Sub>)
    requires Shaped(plan) && k != "" && k[0] == '<' && k[|k| - 1] == '>'
    ensures var r := MaskText(k, plan); r != "" && r[0] == '<' && r[|r| - 1] == '>'
    decreases |plan|
  {
    if plan != [] {
      assert plan[0] in plan;
      BracketsStay(k, plan[0]);
      BracketsStayAll(Replace(k, plan[0].lit, plan[0].key), plan[1..]);
    }
  }

  lemma ContainsAfterOpen(a: string, k: string, lit: string)
    requires lit != "" && Plain(lit) && k != "" && k[0] == '<' && Contains(a + k, lit)
    ensures Contains(a, lit) || Contains(k, lit)
  {
    var s := a + k;
    var i: nat :| i <= |s| && OccursAt(s, lit, i);
    if i < |a| {
      assert s[i..] == a[i..] + k && s[i..][..|lit|] == s[i..i + |lit|];
      StartsApart(a, k, lit);
      assert a[i..i + |lit|] == s[i..i + |lit|];
      assert OccursAt(a, lit, i);
    } else {
      assert k[i - |a|..i - |a| + |lit|] == s[i..i + |lit|];
      assert OccursAt(k, lit, i - |a|);
    }
  }

  lemma {:induction false} SurvivesInside(t: string, plan: seq<Sub>, lit: string)
    requires Shaped(plan) && lit != "" && Plain(lit) && Contains(MaskText(t, plan), lit)
    requires !Contains(t, lit) || exists e :: e in plan && e.lit == lit
    ensures exists j: nat :: Used(t, plan, j) && Contains(MaskText(plan[j].key, plan[j + 1..]), lit)
    decreases |plan|
  {
    if plan != [] {
      var e, rest := plan[0], plan[1..];
      assert e in plan && plan == [e] + rest;
      assert forall f :: f in rest ==> f in plan;
      UsedFirst(t, plan);
      var part := WhichPart(t, e, rest, lit);
      if Contains(t, e.lit) && Contains(MaskText(e.key, rest), lit) {
        assert Used(t, plan, 0) && plan[0 + 1..] == rest;
      } else {
        SurvivesInside(part, rest, lit);
        var j: nat :| Used(part, rest, j) && Contains(MaskText(rest[j].key, rest[j + 1..]), lit);
        UsedNext(t, plan, j);
        assert rest[j] == plan[j + 1] && rest[j + 1..] == plan[j + 1 + 1..];
        assert Used(t, plan, j + 1);
      }
    }
  }

  lemma LeftInPlaceholder(s: string, plan: seq<Sub>, lit: string, j: nat)
    requires Shaped(plan) && lit != "" && Plain(lit)
    requires Used(s, plan, j) && Contains(MaskText(plan[j].key, plan[j + 1..]), lit)
    ensures Contains(MaskText(s, plan), lit)
  {
    var f, rest, t := plan[j], plan[j + 1..], MaskText(s, plan[..j]);
    assert f in plan && plan == plan[..j] + ([f] + rest);
    MaskTextConcat(s, plan[..j], [f] + rest);
    MaskTextCons(t, f, rest);
    var a, b := FirstSplit(t, f.lit);
    PartsOf(a, b, t, f, rest, lit);
  }

  /** After masking, a literal of the plan is left in the text if and only if it is left
      in what has become of a placeholder that was put in. */
  lemma SurvivesIff(s: string, plan: seq<Sub>, e: Sub)
    requires Shaped(plan) && e in plan
    ensures Contains(MaskText(s, plan), e.lit)
       <==> exists j: nat :: Used(s, plan, j) && Contains(MaskText(plan[j].key, plan[j + 1..]), e.lit)
  {
    if Contains(MaskText(s, plan), e.lit) { SurvivesInside(s, plan, e.lit); }
    if j: nat :| Used(s, plan, j) && Contains(MaskText(plan[j].key, plan[j + 1..]), e.lit) {
      LeftInPlaceholder(s, plan, e.lit, j);
    }
  }

  lemma HeldBySome(key: string, rest: seq<Sub>, plan: seq<Sub>, lit: string)
    requires Shaped(plan) && lit != "" && Plain(lit) && key in Keys(plan) && forall e :: e in rest ==> e in plan
    requires Contains(MaskText(key, rest), lit)
    ensures exists f :: f in plan && Contains(f.key, lit)
  {
    KeptOrInserted(key, rest, lit);
    if !Contains(key, lit) {
      var m: nat :| Used(key, rest, m) && Contains(rest[m].key, lit);
      assert rest[m] in plan;
    }
  }

  /** So none is left that lies in no placeholder of the plan: not in what was kept, not
      inside a placeholder, not across the edge of one. */
  lemma NothingSurvives(s: string, plan: seq<Sub>, e: Sub)
    requires Shaped(plan) && e in plan && forall f :: f in plan ==> !Contains(f.key, e.lit)
    ensures !Contains(MaskText(s, plan), e.lit)
  {
    SurvivesIff(s, plan, e);
    if j: nat :| Used(s, plan, j) && Contains(MaskText(plan[j].key, plan[j + 1..]), e.lit) {
      HeldBySome(plan[j].key, plan[j + 1..], plan, e.lit);
    }
  }

  lemma ShieldHeld(order: seq<string>, plan: seq<Sub>, k: string)
    requires Shaped(plan) && k in Keys(plan) && Shielded(order, plan, k)
    ensures !Isolated(plan)
  {
    var i: nat :| Used(k, plan, i) && !Before(order, plan[i].key, k);
    assert plan[i] in plan;
    HeldBySome(k, plan[..i], plan, plan[i].lit);
  }

  /** When no placeholder holds a literal, what decides is whether a key is spelled. */
  lemma IsolatedRoundTripIff(s: string, plan: seq<Sub>, order: seq<string>, table: map<string, string>)
    requires Shaped(plan) && Isolated(plan) && Covers(order, table, plan)
    ensures UnmaskText(MaskText(s, plan), order, table) == s
       <==> forall k :: k in table ==> !Contains(s, k)
  {
    if k :| k in table && Contains(s, k) {
      if Shielded(order, plan, k) { ShieldHeld(order, plan, k); }
      RoundTripIff(s, plan, order, table);
    } else {
      RoundTrip(s, plan, order, table);
    }
  }

  // ---- placeholders the table does not know --------------------------------

  /** Keys that leave `k` alone: other placeholders, and bracket-free labels that are not
      part of it. */
  ghost predicate LeavesAlone(k: string, x: string) {
    if Plain(x) then !Contains(k, x) else Bracketed(x) && x != k
  }

  /** A placeholder the table does not know is left where it stands, whatever the text
      around it and whatever the values of the table. */
  lemma {:induction false} UnknownSymbolStays(a: string, k: string, b: string, order: seq<string>, table: map<string, string>)
    requires Bracketed(k) && forall x :: x in order ==> x in table && LeavesAlone(k, x)
    ensures Contains(UnmaskText(a + k + b, order, table), k)
    decreases |order|
  {
    if order == [] {
      ContainsIntro(a, k, b);
    } else {
      var x, v := order[0], table[order[0]];
      assert x in order;
      PassesBy(a, k, b, x, v);
      UnknownSymbolStays(Replace(a, x, v), k, Replace(b, x, v), order[1..], table);
    }
  }

  lemma PassesBy(a: string, k: string, b: string, x: string, v: string)
    requires Bracketed(k) && LeavesAlone(k, x)
    ensures Replace(a + k + b, x, v) == Replace(a, x, v) + k + Replace(b, x, v)
  {
    if x == "" { assert OccursAt(k, x, 0); }
    if !Plain(x) { PlainKey(x); if Contains(k, x) { BracketedInside(k, x); } }
    StartsApart(a, k, x);
    ReplaceSplit(a, k, x, v);
    assert (a + k)[|a + k| - 1] == '>';
    EndsApart(a + k, b, x);
    ReplaceSplit(a + k, b, x, v);
    ReplaceAbsent(k, x, v);
  }
}
