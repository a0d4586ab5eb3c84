/** Reading placeholders back, key by key: which of them come back depends on the order
    of the keys and on nothing else. */
module Reading {
  import opened Text
  import opened Nests
  import opened Ordering

  /** Where a key stands in the order; behind the end if it does not. */
  function Rank(order: seq<string>, k: string): (r: nat)
    ensures r <= |order| && (r < |order| <==> k in order) && (r < |order| ==> order[r] == k)
  {
    if order == [] then 0 else if order[0] == k then 0 else 1 + Rank(order[1..], k)
  }

  predicate Before(order: seq<string>, k: string, l: string) {
    Rank(order, k) < Rank(order, l)
  }

  lemma {:induction false} RankAt(order: seq<string>, p: nat)
    requires Distinct(order) && p < |order|
    ensures Rank(order, order[p]) == p
  {
    var r := Rank(order, order[p]);
    assert order[p] in order && order[r] == order[p];
  }

  /** Every placeholder is still to be read, from `lo` on and before `hi`, and after every
      placeholder inside it. */
  ghost predicate GoodNode(n: Node, order: seq<string>, lo: nat, hi: nat) {
    n.Sym? ==> lo <= Rank(order, n.e.key) < hi && Good(n.body, order, lo, Rank(order, n.e.key))
  }

  ghost predicate Good(ns: Row, order: seq<string>, lo: nat, hi: nat) {
    ns == [] || (GoodNode(ns[0], order, lo, hi) && Good(ns[1..], order, lo, hi))
  }

  lemma {:induction false} GoodConcat(a: Row, b: Row, order: seq<string>, lo: nat, hi: nat)
    ensures Good(a + b, order, lo, hi) <==> Good(a, order, lo, hi) && Good(b, order, lo, hi)
  {
    if a == [] {
      assert a + b == b;
    } else {
      assert (a + b)[1..] == a[1..] + b;
      GoodConcat(a[1..], b, order, lo, hi);
    }
  }

  lemma {:induction false} RawsGood(s: string, order: seq<string>, lo: nat, hi: nat)
    ensures Good(Raws(s), order, lo, hi)
  {
    if s != "" {
      assert Raws(s)[1..] == Raws(s[1..]);
      RawsGood(s[1..], order, lo, hi);
    }
  }

  lemma SingleGood(n: Node, order: seq<string>, lo: nat, hi: nat)
    ensures Good([n], order, lo, hi) <==> GoodNode(n, order, lo, hi)
  {
    assert [n][1..] == [];
  }

  /** Nothing is left to read just if the row is raw. */
  lemma {:induction false} NoneLeft(ns: Row, order: seq<string>, p: nat)
    requires Good(ns, order, p, p)
    ensures ns == Raws(Expand(ns))
  {
    if ns != [] {
      NoneLeft(ns[1..], order, p);
      assert ns == [ns[0]] + ns[1..];
    }
  }

  /** Reading the next key keeps a good row good and a bad one bad. */
  lemma {:induction false} GoodStep(ns: Row, order: seq<string>, p: nat, hi: nat, v: string)
    requires p < hi <= |order| && Distinct(order) && Bracketed(order[p])
    requires Formed(ns) && NoRun(ns, order[p])
    ensures Good(ns, order, p, hi) <==> Good(ReadRow(ns, order[p], v), order, p + 1, hi)
  {
    if ns != [] {
      var k := order[p];
      var head, tail := ReadNode(ns[0], k, v), ReadRow(ns[1..], k, v);
      assert ReadRow(ns, k, v) == head + tail;
      GoodStep(ns[1..], order, p, hi, v);
      GoodNodeStep(ns[0], order, p, hi, v);
      GoodConcat(head, tail, order, p + 1, hi);
    }
  }

  lemma {:induction false} GoodNodeStep(n: Node, order: seq<string>, p: nat, hi: nat, v: string)
    requires p < hi <= |order| && Distinct(order) && Bracketed(order[p]) && FormedNode(n)
    ensures GoodNode(n, order, p, hi) <==> Good(ReadNode(n, order[p], v), order, p + 1, hi)
    decreases n, 0
  {
    var k := order[p];
    RankAt(order, p);
    match n
    case Raw(_) => SingleGood(n, order, p + 1, hi);
    case Sym(e, body) =>
      var r := Rank(order, e.key);
      if body == Raws(k) {
        RawsRender(k);
        RawsGood(k, order, p, r);
        RawsGood(v, order, p + 1, hi);
      } else {
        SingleGood(Sym(e, ReadRow(body, k, v)), order, p + 1, hi);
        if r == p {
          StaysCut(n, order, p);
        } else if p < r < hi {
          BodyNoRun(body, e.key, k);
          GoodStep(body, order, p, r, v);
        }
      }
  }

  /** A placeholder that is not whole when its key comes up is never read. */
  lemma StaysCut(n: Node, order: seq<string>, p: nat)
    requires n.Sym? && FormedNode(n) && p < |order| && Rank(order, n.e.key) == p && n.body != Raws(order[p])
    ensures !Good(n.body, order, p, p)
  {
    if Good(n.body, order, p, p) { NoneLeft(n.body, order, p); }
  }

  // ---- the whole reading -------------------------------------------------

  /** The text after the first `n` keys. */
  function TextAfter(s: string, order: seq<string>, table: map<string, string>, n: nat): string
    requires n <= |order| && forall k :: k in order ==> k in table
  {
    if n == 0 then s else Replace(TextAfter(s, order, table, n - 1), order[n - 1], table[order[n - 1]])
  }

  /** The row after the first `n` keys. */
  function RowAfter(ns: Row, order: seq<string>, table: map<string, string>, n: nat): Row
    requires n <= |order| && forall k :: k in order ==> k in table && k != ""
  {
    if n == 0 then ns else ReadRow(RowAfter(ns, order, table, n - 1), order[n - 1], table[order[n - 1]])
  }

  ghost predicate AllBracketed(order: seq<string>) {
    forall k :: k in order ==> Bracketed(k)
  }

  /** Every placeholder of the row is read as what it stands for. */
  ghost predicate ReadsAs(ns: Row, table: map<string, string>) {
    ns == [] || (ReadsNode(ns[0], table) && ReadsAs(ns[1..], table))
  }

  ghost predicate ReadsNode(n: Node, table: map<string, string>) {
    n.Sym? ==> n.e.key in table && table[n.e.key] == n.e.lit && ReadsAs(n.body, table)
  }

  lemma {:induction false} ReadsConcat(a: Row, b: Row, table: map<string, string>)
    ensures ReadsAs(a + b, table) <==> ReadsAs(a, table) && ReadsAs(b, table)
  {
    if a == [] {
      assert a + b == b;
    } else {
      assert (a + b)[1..] == a[1..] + b;
      ReadsConcat(a[1..], b, table);
    }
  }

  lemma SingleReads(n: Node, table: map<string, string>)
    ensures ReadsAs([n], table) <==> ReadsNode(n, table)
  {
    assert [n][1..] == [];
  }

  lemma {:induction false} RawsRead(s: string, table: map<string, string>)
    ensures ReadsAs(Raws(s), table)
  {
    if s != "" {
      assert Raws(s)[1..] == Raws(s[1..]);
      RawsRead(s[1..], table);
    }
  }

  lemma {:induction false} ReadsMeans(ns: Row, table: map<string, string>, k: string)
    requires ReadsAs(ns, table) && k in table
    ensures Means(ns, k, table[k])
  {
    if ns != [] {
      ReadsMeans(ns[1..], table, k);
      if ns[0].Sym? { ReadsMeans(ns[0].body, table, k); }
    }
  }

  lemma {:induction false} ReadKeepsReads(ns: Row, table: map<string, string>, k: string, v: string)
    requires ReadsAs(ns, table) && k != ""
    ensures ReadsAs(ReadRow(ns, k, v), table)
  {
    if ns != [] {
      if RawPrefix(ns, k) {
        ReadsConcat(ns[..|k|], ns[|k|..], table);
        assert ns == ns[..|k|] + ns[|k|..];
        ReadKeepsReads(ns[|k|..], table, k, v);
        RawsRead(v, table);
        ReadsConcat(Raws(v), ReadRow(ns[|k|..], k, v), table);
      } else {
        ReadKeepsReads(ns[1..], table, k, v);
        ReadNodeKeeps(ns[0], table, k, v);
        ReadsConcat(ReadNode(ns[0], k, v), ReadRow(ns[1..], k, v), table);
      }
    }
  }

  lemma {:induction false} ReadNodeKeeps(n: Node, table: map<string, string>, k: string, v: string)
    requires ReadsNode(n, table) && k != ""
    ensures ReadsAs(ReadNode(n, k, v), table)
    decreases n, 0
  {
    match n
    case Raw(_) => SingleReads(n, table);
    case Sym(e, body) =>
      if body == Raws(k) {
        RawsRead(v, table);
      } else {
        ReadKeepsReads(body, table, k, v);
        SingleReads(Sym(e, ReadRow(body, k, v)), table);
      }
  }

  ghost predicate SpelledNowhere(s: string, order: seq<string>) {
    forall k :: k in order ==> !Contains(s, k)
  }

  /** While the text stands for spells no key, reading keeps what the row stands for. */
  lemma {:induction false} RowAfterIs(ns: Row, order: seq<string>, table: map<string, string>, n: nat)
    requires n <= |order| && (forall k :: k in order ==> k in table) && AllBracketed(order)
    requires Formed(ns) && ReadsAs(ns, table) && SpelledNowhere(Expand(ns), order)
    ensures var after := RowAfter(ns, order, table, n);
      && Formed(after) && ReadsAs(after, table) && Expand(after) == Expand(ns)
      && Render(after) == TextAfter(Render(ns), order, table, n)
  {
    if n > 0 {
      var before, k := RowAfter(ns, order, table, n - 1), order[n - 1];
      RowAfterIs(ns, order, table, n - 1);
      assert k in order;
      NotSpelledNoRun(before, k);
      ReadsMeans(before, table, k);
      ReadExpands(before, k, table[k]);
      ReadRenders(before, k, table[k]);
      ReadKeepsReads(before, table, k, table[k]);
    }
  }

  lemma {:induction false} GoodAfter(ns: Row, order: seq<string>, table: map<string, string>, n: nat, hi: nat)
    requires n <= hi <= |order| && (forall k :: k in order ==> k in table) && AllBracketed(order) && Distinct(order)
    requires Formed(ns) && ReadsAs(ns, table) && SpelledNowhere(Expand(ns), order)
    ensures Good(ns, order, 0, hi) <==> Good(RowAfter(ns, order, table, n), order, n, hi)
  {
    if n > 0 {
      var before, k := RowAfter(ns, order, table, n - 1), order[n - 1];
      GoodAfter(ns, order, table, n - 1, hi);
      RowAfterIs(ns, order, table, n - 1);
      assert k in order;
      NotSpelledNoRun(before, k);
      GoodStep(before, order, n - 1, hi, table[k]);
    }
  }

  lemma RawsCons(c: char, s: string)
    ensures Raws([c] + s) == [Raw(c)] + Raws(s)
  {
  }

  /** A placeholder that is left shows. */
  lemma {:induction false} LeftShows(ns: Row)
    requires Formed(ns)
    ensures Render(ns) == Expand(ns) <==> ns == Raws(Expand(ns))
  {
    if ns != [] {
      LeftShows(ns[1..]);
      if ns[0].Raw? { LeftShowsRaw(ns[0].c, ns[1..]); } else { LeftShowsSym(ns); }
      assert ns == [ns[0]] + ns[1..];
    }
  }

  lemma LeftShowsRaw(c: char, t: Row)
    requires Render(t) == Expand(t) <==> t == Raws(Expand(t))
    ensures var ns := [Raw(c)] + t; Render(ns) == Expand(ns) <==> ns == Raws(Expand(ns))
  {
    PutFront(Raw(c), t);
    SameFront([c], Render(t), Expand(t));
    RawsCons(c, Expand(t));
    var ns := [Raw(c)] + t;
    assert ns[1..] == t && ([Raw(c)] + Raws(Expand(t)))[1..] == Raws(Expand(t));
  }

  lemma LeftShowsSym(ns: Row)
    requires Formed(ns) && ns != [] && ns[0].Sym?
    ensures Render(ns) != Expand(ns) && ns != Raws(Expand(ns))
  {
    var e := ns[0].e;
    BodyRenders(ns[0].body, e.key);
    PlainFirst(e.lit);
    FrontsDiffer(Render(ns[0].body), Render(ns[1..]), e.lit, Expand(ns[1..]));
  }

  /** A row that stands for a text spelling no key is read back as that text if and only
      if every placeholder in it is read after all that stand inside it. */
  lemma ReadBackIff(ns: Row, order: seq<string>, table: map<string, string>)
    requires (forall k :: k in order ==> k in table) && AllBracketed(order) && Distinct(order)
    requires Formed(ns) && ReadsAs(ns, table) && SpelledNowhere(Expand(ns), order)
    ensures TextAfter(Render(ns), order, table, |order|) == Expand(ns) <==> Good(ns, order, 0, |order|)
  {
    var n := |order|;
    var after := RowAfter(ns, order, table, n);
    RowAfterIs(ns, order, table, n);
    GoodAfter(ns, order, table, n, n);
    LeftShows(after);
    if Good(after, order, n, n) { NoneLeft(after, order, n); }
    if after == Raws(Expand(after)) { RawsGood(Expand(after), order, n, n); }
  }
}
