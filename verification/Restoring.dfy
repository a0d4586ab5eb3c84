/** Reading back a row whose own text may spell keys: every place at which the outcome can
    go wrong, and why nothing that happens further right can make up for it. */
module Restoring {
  import opened Sequences
  import opened Text
  import opened Nests
  import opened Reading
  import opened Ordering

  /** What the reading works with: distinct placeholders, each with a plain value. */
  ghost predicate Keyed(order: seq<string>, table: map<string, string>) {
    && Distinct(order) && AllBracketed(order)
    && forall k :: k in order ==> k in table && table[k] != "" && Plain(table[k])
  }

  // ---- parts that reading keeps apart ------------------------------------

  /** No `<` of the row's own. */
  ghost predicate Quiet(ns: Row) {
    ns == [] || (ns[0] != Raw('<') && Quiet(ns[1..]))
  }

  lemma {:induction false} QuietConcat(a: Row, b: Row)
    ensures Quiet(a + b) <==> Quiet(a) && Quiet(b)
  {
    if a == [] {
      assert a + b == b;
    } else {
      assert (a + b)[1..] == a[1..] + b;
      QuietConcat(a[1..], b);
    }
  }

  lemma {:induction false} PlainQuiet(s: string)
    requires '<' !in s
    ensures Quiet(Raws(s))
  {
    if s != "" {
      assert s[0] in s;
      assert Raws(s)[1..] == Raws(s[1..]);
      PlainQuiet(s[1..]);
    }
  }

  lemma {:induction false} UnopenedQuiet(ns: Row)
    requires '<' !in Expand(ns)
    ensures Quiet(ns)
  {
    if ns != [] {
      assert forall c :: c in ExpandNode(ns[0]) ==> c in Expand(ns);
      assert forall c :: c in Expand(ns[1..]) ==> c in Expand(ns);
      UnopenedQuiet(ns[1..]);
      assert ns[0] != Raw('<') by { assert '<' in ExpandNode(Raw('<')); }
    }
  }

  lemma NoRunAtQuiet(ns: Row, k: string)
    requires Bracketed(k) && ns != [] && ns[0] != Raw('<')
    ensures !RawPrefix(ns, k)
  {
  }

  lemma {:induction false} ReadQuiet(a: Row, b: Row, k: string, v: string)
    requires Bracketed(k) && Quiet(a)
    ensures ReadRow(a + b, k, v) == ReadRow(a, k, v) + ReadRow(b, k, v)
  {
    if a == [] {
      assert a + b == b;
    } else {
      assert (a + b)[1..] == a[1..] + b;
      NoRunAtQuiet(a, k);
      NoRunAtQuiet(a + b, k);
      ReadQuiet(a[1..], b, k, v);
      Regroup(ReadNode(a[0], k, v), ReadRow(a[1..], k, v), ReadRow(b, k, v));
    }
  }

  lemma {:induction false} StaysQuiet(a: Row, k: string, v: string)
    requires Bracketed(k) && Plain(v) && Quiet(a)
    ensures Quiet(ReadRow(a, k, v))
  {
    if a != [] {
      NoRunAtQuiet(a, k);
      StaysQuiet(a[1..], k, v);
      PlainQuiet(v);
      SingleQuiet(a[0], k, v);
      QuietConcat(ReadNode(a[0], k, v), ReadRow(a[1..], k, v));
    }
  }

  lemma SingleQuiet(n: Node, k: string, v: string)
    requires k != "" && n != Raw('<') && Quiet(Raws(v))
    ensures Quiet(ReadNode(n, k, v))
  {
    if n.Raw? || n.body != Raws(k) {
      var m := ReadNode(n, k, v)[0];
      assert [m][1..] == [];
    }
  }

  lemma {:induction false} AfterQuiet(a: Row, b: Row, order: seq<string>, table: map<string, string>, n: nat)
    requires n <= |order| && Keyed(order, table) && Quiet(a)
    ensures RowAfter(a + b, order, table, n) == RowAfter(a, order, table, n) + RowAfter(b, order, table, n)
    ensures Quiet(RowAfter(a, order, table, n))
  {
    if n > 0 {
      assert order[n - 1] in order;
      AfterQuiet(a, b, order, table, n - 1);
      ReadQuiet(RowAfter(a, order, table, n - 1), RowAfter(b, order, table, n - 1), order[n - 1], table[order[n - 1]]);
      StaysQuiet(RowAfter(a, order, table, n - 1), order[n - 1], table[order[n - 1]]);
    }
  }

  lemma {:induction false} ReadPlain(s: string, k: string, v: string)
    requires Bracketed(k) && '<' !in s
    ensures ReadRow(Raws(s), k, v) == Raws(s)
  {
    if s != "" {
      assert s[0] in s;
      assert Raws(s)[1..] == Raws(s[1..]);
      NoRunAtQuiet(Raws(s), k);
      ReadPlain(s[1..], k, v);
    }
  }

  lemma {:induction false} PlainAfter(s: string, order: seq<string>, table: map<string, string>, n: nat)
    requires n <= |order| && Keyed(order, table) && '<' !in s
    ensures RowAfter(Raws(s), order, table, n) == Raws(s)
  {
    if n > 0 {
      assert order[n - 1] in order;
      PlainAfter(s, order, table, n - 1);
      ReadPlain(s, order[n - 1], table[order[n - 1]]);
    }
  }

  // ---- what reading keeps in any case ------------------------------------

  lemma {:induction false} ReadFormed(ns: Row, k: string, v: string)
    requires Formed(ns) && Bracketed(k) && Means(ns, k, v)
    ensures Formed(ReadRow(ns, k, v))
  {
    if ns != [] {
      if RawPrefix(ns, k) {
        RawPrefixSplit(ns, k);
        MeansConcat(ns[..|k|], ns[|k|..], k, v);
        assert ns == ns[..|k|] + ns[|k|..];
        ReadFormed(ns[|k|..], k, v);
        RawsRender(v);
        FormedConcat(Raws(v), ReadRow(ns[|k|..], k, v));
      } else {
        ReadFormed(ns[1..], k, v);
        ReadNodeExpands(ns[0], k, v);
        FormedConcat(ReadNode(ns[0], k, v), ReadRow(ns[1..], k, v));
      }
    }
  }

  lemma {:induction false} MeansConcat(a: Row, b: Row, k: string, v: string)
    ensures Means(a + b, k, v) <==> Means(a, k, v) && Means(b, k, v)
  {
    if a == [] {
      assert a + b == b;
    } else {
      assert (a + b)[1..] == a[1..] + b;
      MeansConcat(a[1..], b, k, v);
    }
  }

  /** The row follows the text, whatever is spelled in it. */
  lemma {:induction false} AfterRenders(ns: Row, order: seq<string>, table: map<string, string>, n: nat)
    requires n <= |order| && Keyed(order, table) && Formed(ns) && ReadsAs(ns, table)
    ensures Formed(RowAfter(ns, order, table, n)) && ReadsAs(RowAfter(ns, order, table, n), table)
    ensures Render(RowAfter(ns, order, table, n)) == TextAfter(Render(ns), order, table, n)
  {
    if n > 0 {
      var before, k := RowAfter(ns, order, table, n - 1), order[n - 1];
      AfterRenders(ns, order, table, n - 1);
      assert k in order;
      ReadsMeans(before, table, k);
      ReadFormed(before, k, table[k]);
      ReadRenders(before, k, table[k]);
      ReadKeepsReads(before, table, k, table[k]);
    }
  }

  // ---- one placeholder alone ---------------------------------------------

  /** Still that placeholder, or its literal. */
  ghost predicate Alone(r: Row, e: Sub) {
    r == Raws(e.lit) || (|r| == 1 && r[0].Sym? && r[0].e == e)
  }

  /** It stays one placeholder until it is read as its literal. */
  lemma {:induction false} AloneAfter(s: Node, order: seq<string>, table: map<string, string>, n: nat)
    requires n <= |order| && Keyed(order, table) && s.Sym? && FormedNode(s) && ReadsNode(s, table)
    ensures Alone(RowAfter([s], order, table, n), s.e)
  {
    if n > 0 {
      assert order[n - 1] in order;
      var before := RowAfter([s], order, table, n - 1);
      AloneAfter(s, order, table, n - 1);
      assert Formed(before) && ReadsAs(before, table) by {
        Single(s);
        SingleReads(s, table);
        AfterRenders([s], order, table, n - 1);
      }
      AloneStep(before, s.e, table, order[n - 1]);
    }
  }

  lemma AloneStep(r: Row, e: Sub, table: map<string, string>, k: string)
    requires Alone(r, e) && Formed(r) && ReadsAs(r, table) && k in table && Bracketed(k) && Plain(e.lit)
    ensures Alone(ReadRow(r, k, table[k]), e)
  {
    if r == Raws(e.lit) {
      ReadPlain(e.lit, k, table[k]);
    } else {
      assert r == [r[0]];
      Single(r[0]);
      SingleReads(r[0], table);
      assert ReadRow(r, k, table[k]) == ReadNode(r[0], k, table[k]) by { assert r[1..] == []; }
      if r[0].body == Raws(k) { RawsRender(k); }
    }
  }

  /** It is read just if it is good; and if not, that shows at once. */
  lemma AloneIff(s: Node, order: seq<string>, table: map<string, string>)
    requires Keyed(order, table) && s.Sym? && FormedNode(s) && ReadsNode(s, table)
    ensures var r := RowAfter([s], order, table, |order|);
      if GoodNode(s, order, 0, |order|) then r == Raws(s.e.lit) else Render(r) != "" && Render(r)[0] == '<'
  {
    var n, r := |order|, RowAfter([s], order, table, |order|);
    AloneAfter(s, order, table, n);
    Single(s);
    SingleReads(s, table);
    SingleGood(s, order, 0, n);
    forall k | k in order ensures !Contains(s.e.lit, k) {
      if Contains(s.e.lit, k) { OpenInside(s.e.lit, k); }
    }
    RowAfterIs([s], order, table, n);
    ReadBackIff([s], order, table);
    if r == Raws(s.e.lit) {
      RawsRender(s.e.lit);
    } else {
      BodyRenders(r[0].body, r[0].e.key);
      assert r == [r[0]];
      Single(r[0]);
      PlainFirst(s.e.lit);
    }
  }

  // ---- a whole row -------------------------------------------------------

  /** The row never starts with the key whose turn it is. */
  ghost predicate NeverHit(ns: Row, order: seq<string>, table: map<string, string>)
    requires Keyed(order, table)
  {
    forall p :: 0 <= p < |order| ==> !HitAt(ns, order, table, p)
  }

  ghost predicate HitAt(ns: Row, order: seq<string>, table: map<string, string>, p: nat)
    requires Keyed(order, table) && p < |order|
  {
    RawPrefix(RowAfter(ns, order, table, p), order[p])
  }

  /** Every placeholder is read, and no `<` of the row's own is taken for one. */
  ghost predicate Fine(ns: Row, order: seq<string>, table: map<string, string>)
    requires Keyed(order, table)
  {
    ns == []
    || (&& (ns[0].Sym? ==> GoodNode(ns[0], order, 0, |order|))
        && (ns[0] == Raw('<') ==> NeverHit(ns, order, table))
        && Fine(ns[1..], order, table))
  }

  /** Until it is hit, an own `<` stays and the rest is read by itself. */
  lemma {:induction false} OpenAfter(t: Row, order: seq<string>, table: map<string, string>, n: nat)
    requires n <= |order| && Keyed(order, table)
    requires forall p :: 0 <= p < n ==> !HitAt([Raw('<')] + t, order, table, p)
    ensures RowAfter([Raw('<')] + t, order, table, n) == [Raw('<')] + RowAfter(t, order, table, n)
  {
    if n > 0 {
      OpenAfter(t, order, table, n - 1);
      assert !HitAt([Raw('<')] + t, order, table, n - 1);
      assert order[n - 1] in order;
      PassRaw([Raw('<')] + RowAfter(t, order, table, n - 1), order[n - 1], table[order[n - 1]]);
    }
  }

  lemma PassRaw(ns: Row, k: string, v: string)
    requires k != "" && ns != [] && ns[0].Raw? && !RawPrefix(ns, k)
    ensures ReadRow(ns, k, v) == [ns[0]] + ReadRow(ns[1..], k, v)
  {
  }

  /** Once it is hit, the text starts with another character for good. */
  lemma {:induction false} HitStays(ns: Row, order: seq<string>, table: map<string, string>, p: nat, n: nat)
    requires Keyed(order, table) && p < n <= |order| && HitAt(ns, order, table, p)
    ensures var r := RowAfter(ns, order, table, n); r != [] && r[0].Raw? && r[0] != Raw('<')
  {
    var before, k := RowAfter(ns, order, table, n - 1), order[n - 1];
    assert k in order;
    if n == p + 1 {
      PlainFirst(table[k]);
      assert Raws(table[k])[0] == Raw(table[k][0]);
    } else {
      HitStays(ns, order, table, p, n - 1);
      NoRunAtQuiet(before, k);
      PassRaw(before, k, table[k]);
    }
  }

  ghost predicate Restored(ns: Row, order: seq<string>, table: map<string, string>)
    requires Keyed(order, table)
  {
    Render(RowAfter(ns, order, table, |order|)) == Expand(ns)
  }

  /** The row is read back as the text it stands for just if nothing goes wrong. */
  lemma {:induction false} RestoredIff(ns: Row, order: seq<string>, table: map<string, string>)
    requires Keyed(order, table) && Formed(ns) && ReadsAs(ns, table)
    ensures Restored(ns, order, table) <==> Fine(ns, order, table)
  {
    var n := |order|;
    if ns == [] {
      PlainAfter("", order, table, n);
      assert Raws("") == [];
    } else {
      var t := ns[1..];
      assert ns == [ns[0]] + t;
      RestoredIff(t, order, table);
      if ns[0].Sym? {
        SymHeadIff(ns[0], t, order, table);
      } else if ns[0] == Raw('<') {
        OpenHeadIff(t, order, table);
      } else {
        RawHeadIff(ns[0].c, t, order, table);
      }
    }
  }

  lemma SymHeadIff(s: Node, t: Row, order: seq<string>, table: map<string, string>)
    requires Keyed(order, table) && s.Sym? && FormedNode(s) && ReadsNode(s, table)
    ensures Restored([s] + t, order, table) <==> GoodNode(s, order, 0, |order|) && Restored(t, order, table)
  {
    var n := |order|;
    var r, rest := RowAfter([s], order, table, n), RowAfter(t, order, table, n);
    assert [s][1..] == [];
    AfterQuiet([s], t, order, table, n);
    AloneIff(s, order, table);
    RenderConcat(r, rest);
    PutFront(s, t);
    if GoodNode(s, order, 0, n) {
      RawsRender(s.e.lit);
      SameFront(s.e.lit, Render(rest), Expand(t));
    } else {
      PlainFirst(s.e.lit);
      assert Render(r + rest)[0] == '<' && Expand([s] + t)[0] == s.e.lit[0];
    }
  }

  lemma RawHeadIff(c: char, t: Row, order: seq<string>, table: map<string, string>)
    requires Keyed(order, table) && c != '<'
    ensures Restored([Raw(c)] + t, order, table) <==> Restored(t, order, table)
  {
    var n := |order|;
    var rest := RowAfter(t, order, table, n);
    assert [Raw(c)] == Raws([c]);
    PlainAfter([c], order, table, n);
    PlainQuiet([c]);
    AfterQuiet([Raw(c)], t, order, table, n);
    PutFront(Raw(c), rest);
    PutFront(Raw(c), t);
    SameFront([c], Render(rest), Expand(t));
  }

  lemma OpenHeadIff(t: Row, order: seq<string>, table: map<string, string>)
    requires Keyed(order, table)
    ensures Restored([Raw('<')] + t, order, table)
       <==> NeverHit([Raw('<')] + t, order, table) && Restored(t, order, table)
  {
    var n, ns := |order|, [Raw('<')] + t;
    var rest := RowAfter(t, order, table, n);
    PutFront(Raw('<'), t);
    if p :| 0 <= p < n && HitAt(ns, order, table, p) {
      HitStays(ns, order, table, p, n);
      var r := RowAfter(ns, order, table, n);
      assert Render(r) == [r[0].c] + Render(r[1..]);
      assert Expand(ns)[0] == '<';
    } else {
      OpenAfter(t, order, table, n);
      PutFront(Raw('<'), rest);
      SameFront("<", Render(rest), Expand(t));
    }
  }

  // ---- when an own `<` is hit ---------------------------------------------

  /** Where nothing goes wrong, the row stands for its text all along. */
  lemma {:induction false} FineExpands(ns: Row, order: seq<string>, table: map<string, string>, n: nat)
    requires n <= |order| && Keyed(order, table) && Formed(ns) && ReadsAs(ns, table) && Fine(ns, order, table)
    ensures Expand(RowAfter(ns, order, table, n)) == Expand(ns)
  {
    if ns == [] {
      PlainAfter("", order, table, n);
      assert Raws("") == [];
    } else {
      var t := ns[1..];
      assert ns == [ns[0]] + t;
      FineExpands(t, order, table, n);
      if ns[0] == Raw('<') {
        OpenAfter(t, order, table, n);
        PutFront(Raw('<'), RowAfter(t, order, table, n));
      } else {
        assert [ns[0]][1..] == [];
        AfterQuiet([ns[0]], t, order, table, n);
        HeadExpands(ns[0], order, table, n);
        ExpandConcat(RowAfter([ns[0]], order, table, n), RowAfter(t, order, table, n));
      }
    }
  }

  lemma HeadExpands(h: Node, order: seq<string>, table: map<string, string>, n: nat)
    requires n <= |order| && Keyed(order, table) && FormedNode(h) && ReadsNode(h, table) && h != Raw('<')
    ensures Expand(RowAfter([h], order, table, n)) == ExpandNode(h)
  {
    Single(h);
    SingleReads(h, table);
    UnopenedReads([h], order, table, n);
  }

  lemma UnopenedReads(ns: Row, order: seq<string>, table: map<string, string>, n: nat)
    requires n <= |order| && Keyed(order, table) && Formed(ns) && ReadsAs(ns, table) && '<' !in Expand(ns)
    ensures SpelledNowhere(Expand(ns), order)
    ensures Expand(RowAfter(ns, order, table, n)) == Expand(ns) && Formed(RowAfter(ns, order, table, n))
  {
    forall k | k in order ensures !Contains(Expand(ns), k) {
      if Contains(Expand(ns), k) { OpenInside(Expand(ns), k); }
    }
    RowAfterIs(ns, order, table, n);
  }

  /** Such a part is raw when the `p`-th key comes up just if it is good until then. */
  lemma UnopenedRawIff(ns: Row, order: seq<string>, table: map<string, string>, p: nat)
    requires p <= |order| && Keyed(order, table) && Formed(ns) && ReadsAs(ns, table) && '<' !in Expand(ns)
    ensures RowAfter(ns, order, table, p) == Raws(Expand(ns)) <==> Good(ns, order, 0, p)
  {
    var r := RowAfter(ns, order, table, p);
    UnopenedReads(ns, order, table, p);
    GoodAfter(ns, order, table, p, p);
    if r == Raws(Expand(ns)) { RawsGood(Expand(ns), order, p, p); }
    if Good(r, order, p, p) { NoneLeft(r, order, p); }
  }

  /** A text ending in `>` is spelled by whole pieces of the row. */
  lemma {:induction false} SpelledByPieces(ns: Row, w: string) returns (n: nat)
    requires Formed(ns) && StartsWith(Expand(ns), w) && w != "" && w[|w| - 1] == '>'
    ensures n <= |ns| && Expand(ns[..n]) == w
  {
    assert ns != [];
    var h := ExpandNode(ns[0]);
    HeadNotEmpty(ns[0]);
    FrontOfBoth(h, Expand(ns[1..]), w);
    if |w| <= |h| {
      WholeHead(ns[0], w);
      n := 1;
      assert ns[..1] == [ns[0]];
      Single(ns[0]);
    } else {
      var m := SpelledByPieces(ns[1..], w[|h|..]);
      n := m + 1;
      OnePieceMore(ns, m, w);
    }
  }

  lemma OnePieceMore(ns: Row, m: nat, w: string)
    requires ns != [] && m <= |ns[1..]|
    requires |ExpandNode(ns[0])| <= |w| && w[..|ExpandNode(ns[0])|] == ExpandNode(ns[0])
    requires Expand(ns[1..][..m]) == w[|ExpandNode(ns[0])|..]
    ensures Expand(ns[..m + 1]) == w
  {
    assert ns[..m + 1] == [ns[0]] + ns[1..][..m];
    PutFront(ns[0], ns[1..][..m]);
  }

  lemma FrontOfBoth(h: string, rest: string, w: string)
    requires StartsWith(h + rest, w)
    ensures if |w| <= |h| then h[..|w|] == w else w[..|h|] == h && StartsWith(rest, w[|h|..])
  {
    var t := h + rest;
    if |w| <= |h| {
      assert t[..|w|] == h[..|w|];
    } else {
      assert w == t[..|w|];
      assert t[..|w|][..|h|] == h;
      assert rest[..|w| - |h|] == t[..|w|][|h|..];
    }
  }

  lemma WholeHead(n: Node, w: string)
    requires FormedNode(n) && w != "" && |w| <= |ExpandNode(n)| && ExpandNode(n)[..|w|] == w && w[|w| - 1] == '>'
    ensures ExpandNode(n) == w
  {
    if n.Sym? { LastInside(n.e.lit, w); }
  }

  lemma LastInside(s: string, w: string)
    requires w != "" && |w| <= |s| && s[..|w|] == w
    ensures w[|w| - 1] in s
  {
    assert s[..|w|][|w| - 1] in s;
  }

  /** What stands for `w` and begins a row beginning with the characters of `w` is `w`. */
  lemma RawFront(x: Row, y: Row, w: string)
    requires Formed(x) && Expand(x) == w && RawPrefix(x + y, w)
    ensures x == Raws(w)
  {
    if |w| <= |x| {
      assert RawPrefix(x, w);
      RawPrefixSplit(x, w);
      assert Expand(x[|w|..]) == "";
      NothingLeft(x[|w|..]);
      assert x == Raws(w) + [];
    } else {
      assert x == Raws(w[..|x|]);
      RawsRender(w[..|x|]);
    }
  }

  /** The first `n` pieces are a key's text and will have been read as such by its turn. */
  ghost predicate WholeFront(ns: Row, order: seq<string>, p: nat, n: nat)
    requires p < |order|
  {
    n <= |ns| && Expand(ns[..n]) == order[p] && Good(ns[..n], order, 0, p)
  }

  lemma {:induction false} FirstHit(ns: Row, order: seq<string>, table: map<string, string>, p: nat) returns (q: nat)
    requires Keyed(order, table) && p < |order| && HitAt(ns, order, table, p)
    ensures q <= p && HitAt(ns, order, table, q)
    ensures forall o :: 0 <= o < q ==> !HitAt(ns, order, table, o)
  {
    if o :| 0 <= o < p && HitAt(ns, order, table, o) {
      q := FirstHit(ns, order, table, o);
    } else {
      q := p;
    }
  }

  /** At the first hit, the rest of the row starts with the rest of the key. */
  lemma HitSpells(t: Row, order: seq<string>, table: map<string, string>, p: nat)
    requires Keyed(order, table) && Formed(t) && ReadsAs(t, table) && Fine(t, order, table)
    requires p < |order| && HitAt([Raw('<')] + t, order, table, p) && order[p] != ""
    requires forall o :: 0 <= o < p ==> !HitAt([Raw('<')] + t, order, table, o)
    ensures RawPrefix(RowAfter(t, order, table, p), order[p][1..]) && StartsWith(Expand(t), order[p][1..])
  {
    assert order[p] in order;
    OpenAfter(t, order, table, p);
    AfterFirst(RowAfter(t, order, table, p), order[p]);
    FineExpands(t, order, table, p);
    RunStarts(RowAfter(t, order, table, p), order[p][1..]);
  }

  lemma HitIsWhole(t: Row, order: seq<string>, table: map<string, string>, p: nat) returns (n: nat)
    requires Keyed(order, table) && Formed(t) && ReadsAs(t, table) && Fine(t, order, table)
    requires p < |order| && HitAt([Raw('<')] + t, order, table, p)
    requires forall o :: 0 <= o < p ==> !HitAt([Raw('<')] + t, order, table, o)
    ensures WholeFront([Raw('<')] + t, order, p, n)
  {
    assert order[p] in order;
    HitSpells(t, order, table, p);
    var m := SpelledByPieces(t, order[p][1..]);
    PartsWhole(t, m, order, table, p);
    n := m + 1;
  }

  lemma PartsWhole(t: Row, m: nat, order: seq<string>, table: map<string, string>, p: nat)
    requires Keyed(order, table) && Formed(t) && ReadsAs(t, table)
    requires p < |order| && order[p] != "" && m <= |t| && Expand(t[..m]) == order[p][1..]
    requires RawPrefix(RowAfter(t, order, table, p), order[p][1..])
    ensures WholeFront([Raw('<')] + t, order, p, m + 1)
  {
    var q, rest := t[..m], t[m..];
    assert order[p] in order && t == q + rest;
    FormedConcat(q, rest);
    ReadsConcat(q, rest, table);
    WholeGood(q, rest, order, table, p);
    assert ([Raw('<')] + t)[..m + 1] == [Raw('<')] + q;
    OpenInFront(q, order, p, order[p]);
  }

  lemma WholeGood(q: Row, rest: Row, order: seq<string>, table: map<string, string>, p: nat)
    requires Keyed(order, table) && Formed(q) && ReadsAs(q, table)
    requires p < |order| && order[p] != "" && Expand(q) == order[p][1..]
    requires RawPrefix(RowAfter(q + rest, order, table, p), order[p][1..])
    ensures Good(q, order, 0, p)
  {
    assert order[p] in order;
    PlainKey(order[p]);
    UnopenedQuiet(q);
    AfterQuiet(q, rest, order, table, p);
    UnopenedReads(q, order, table, p);
    RawFront(RowAfter(q, order, table, p), RowAfter(rest, order, table, p), Expand(q));
    UnopenedRawIff(q, order, table, p);
  }

  lemma AfterFirst(t: Row, k: string)
    requires Bracketed(k) && RawPrefix([Raw('<')] + t, k)
    ensures RawPrefix(t, k[1..])
  {
    var ns, w := [Raw('<')] + t, k[1..];
    forall i | 0 <= i < |w| ensures t[i] == Raw(w[i]) {
      assert ns[i + 1] == t[i] && w[i] == k[i + 1];
    }
  }

  lemma RunStarts(ns: Row, w: string)
    requires RawPrefix(ns, w)
    ensures StartsWith(Expand(ns), w)
  {
    RawPrefixSplit(ns, w);
    assert (w + Expand(ns[|w|..]))[..|w|] == w;
  }

  lemma OpenInFront(q: Row, order: seq<string>, p: nat, k: string)
    requires Bracketed(k) && Expand(q) == k[1..]
    ensures Expand([Raw('<')] + q) == k
    ensures Good([Raw('<')] + q, order, 0, p) <==> Good(q, order, 0, p)
  {
    PutFront(Raw('<'), q);
    assert [k[0]] + k[1..] == k;
    assert ([Raw('<')] + q)[1..] == q;
  }

  lemma WholeIsHit(t: Row, order: seq<string>, table: map<string, string>, p: nat, n: nat)
    requires Keyed(order, table) && Formed(t) && ReadsAs(t, table)
    requires p < |order| && WholeFront([Raw('<')] + t, order, p, n)
    ensures !NeverHit([Raw('<')] + t, order, table)
  {
    var ns, k := [Raw('<')] + t, order[p];
    assert k in order;
    PlainKey(k);
    assert n > 0;
    var q, rest := t[..n - 1], t[n - 1..];
    assert t == q + rest && ns[..n] == [Raw('<')] + q;
    FormedConcat(q, rest);
    ReadsConcat(q, rest, table);
    PutFront(Raw('<'), q);
    assert Expand(q) == k[1..];
    OpenInFront(q, order, p, k);
    UnopenedQuiet(q);
    AfterQuiet(q, rest, order, table, p);
    UnopenedRawIff(q, order, table, p);
    if NeverHit(ns, order, table) {
      assert !HitAt(ns, order, table, p);
      OpenAfter(t, order, table, p);
      FrontSpells(RowAfter(rest, order, table, p), k);
    }
  }

  lemma FrontSpells(rest: Row, k: string)
    requires Bracketed(k)
    ensures RawPrefix([Raw('<')] + (Raws(k[1..]) + rest), k)
  {
  }

  // ---- the static condition -----------------------------------------------

  /** No part of the row is a key's text, there to be read as that key. */
  ghost predicate NoneWhole(ns: Row, order: seq<string>) {
    ns == []
    || (NoneWhole(ns[1..], order) && forall p, n :: 0 <= p < |order| && 0 <= n <= |ns| ==> !WholeFront(ns, order, p, n))
  }

  lemma {:induction false} FineIff(ns: Row, order: seq<string>, table: map<string, string>)
    requires Keyed(order, table) && Formed(ns) && ReadsAs(ns, table)
    ensures Fine(ns, order, table) <==> Good(ns, order, 0, |order|) && NoneWhole(ns, order)
  {
    if ns != [] {
      FineIff(ns[1..], order, table);
      if Fine(ns[1..], order, table) { HeadFineIff(ns, order, table); }
    }
  }

  lemma HeadFineIff(ns: Row, order: seq<string>, table: map<string, string>)
    requires Keyed(order, table) && Formed(ns) && ReadsAs(ns, table) && ns != [] && Fine(ns[1..], order, table)
    ensures (ns[0] == Raw('<') ==> NeverHit(ns, order, table))
       <==> forall p, n :: 0 <= p < |order| && 0 <= n <= |ns| ==> !WholeFront(ns, order, p, n)
  {
    var t := ns[1..];
    assert ns == [ns[0]] + t;
    if p, n :| 0 <= p < |order| && 0 <= n <= |ns| && WholeFront(ns, order, p, n) {
      assert order[p] in order;
      WholeOpens(ns, n, order[p]);
      WholeIsHit(t, order, table, p, n);
    } else if ns[0] == Raw('<') && !NeverHit(ns, order, table) {
      var p :| 0 <= p < |order| && HitAt(ns, order, table, p);
      var q := FirstHit(ns, order, table, p);
      var n := HitIsWhole(t, order, table, q);
    }
  }

  lemma WholeOpens(ns: Row, n: nat, k: string)
    requires Formed(ns) && n <= |ns| && Expand(ns[..n]) == k && Bracketed(k)
    ensures n > 0 && ns[0] == Raw('<')
  {
    assert ns == ns[..n] + ns[n..];
    FormedConcat(ns[..n], ns[n..]);
    BodyEnds(ns[..n], k);
  }

  lemma {:induction false} NoneWholeAt(a: Row, k: Row, b: Row, order: seq<string>, p: nat)
    requires p < |order| && AllBracketed(order) && NoneWhole(a + k + b, order) && Expand(k) == order[p]
    ensures !Good(k, order, 0, p)
  {
    var ns := a + k + b;
    assert order[p] in order;
    if a == [] {
      assert ns == k + b;
      assert ns[..|k|] == k;
      assert k != [];
      assert !WholeFront(ns, order, p, |k|);
    } else {
      assert ns[1..] == a[1..] + k + b;
      NoneWholeAt(a[1..], k, b, order, p);
    }
  }

  lemma {:induction false} SomeWhole(ns: Row, order: seq<string>) returns (a: Row, k: Row, b: Row, p: nat)
    requires !NoneWhole(ns, order)
    ensures ns == a + k + b && p < |order| && Expand(k) == order[p] && Good(k, order, 0, p)
  {
    if !NoneWhole(ns[1..], order) {
      a, k, b, p := SomeWhole(ns[1..], order);
      a := [ns[0]] + a;
      assert ns == [ns[0]] + ns[1..];
    } else {
      var q, n :| 0 <= q < |order| && 0 <= n <= |ns| && WholeFront(ns, order, q, n);
      a, k, b, p := [], ns[..n], ns[n..], q;
    }
  }

  /** The text comes back if and only if every placeholder is read after those inside it,
      and nothing that spells a key is there, whole, when that key is read. */
  lemma ReadBackExactly(ns: Row, order: seq<string>, table: map<string, string>)
    requires Keyed(order, table) && Formed(ns) && ReadsAs(ns, table)
    ensures TextAfter(Render(ns), order, table, |order|) == Expand(ns)
       <==> Good(ns, order, 0, |order|) && NoneWhole(ns, order)
  {
    AfterRenders(ns, order, table, |order|);
    RestoredIff(ns, order, table);
    FineIff(ns, order, table);
  }
}
