/** Masked text seen as a row of characters and placeholders. A later replacement may hit
    the text of a placeholder already put in, so a placeholder carries a row of its own:
    what has become of its characters. The code only ever sees the rendered string; the
    proofs about masking and un-masking go through the rows and come back by `Render`. */
module Nests {
  import opened Sequences
  import opened Text

  /** One replacement: the literal and the placeholder issued for it. */
  datatype Sub = Sub(lit: string, key: string)

  datatype Node = Raw(c: char) | Sym(e: Sub, body: seq<Node>)

  type Row = seq<Node>

  /** `<…>` with no bracket inside. */
  predicate Bracketed(k: string) {
    |k| >= 2 && k[0] == '<' && k[|k| - 1] == '>'
    && forall i :: 0 < i < |k| - 1 ==> k[i] != '<' && k[i] != '>'
  }

  predicate Plain(s: string) {
    '<' !in s && '>' !in s
  }

  predicate ShapedSub(e: Sub) {
    e.lit != "" && Plain(e.lit) && Bracketed(e.key)
  }

  function Raws(s: string): (r: Row)
    ensures |r| == |s| && forall i :: 0 <= i < |s| ==> r[i] == Raw(s[i])
  {
    seq(|s|, i requires 0 <= i < |s| => Raw(s[i]))
  }

  function RenderNode(n: Node): string {
    match n case Raw(c) => [c] case Sym(_, body) => Render(body)
  }

  function Render(ns: Row): string {
    if ns == [] then "" else RenderNode(ns[0]) + Render(ns[1..])
  }

  /** The text a row stands for: every placeholder read as its literal. */
  function ExpandNode(n: Node): string {
    match n case Raw(c) => [c] case Sym(e, _) => e.lit
  }

  function Expand(ns: Row): string {
    if ns == [] then "" else ExpandNode(ns[0]) + Expand(ns[1..])
  }

  predicate RawPrefix(ns: Row, p: string) {
    |p| <= |ns| && forall i :: 0 <= i < |p| ==> ns[i] == Raw(p[i])
  }

  /** Leftmost raw runs spelling the literal become the placeholder, at every level. */
  function MaskRow(ns: Row, e: Sub): Row
    requires e.lit != ""
  {
    if ns == [] then []
    else if RawPrefix(ns, e.lit) then [Sym(e, Raws(e.key))] + MaskRow(ns[|e.lit|..], e)
    else [MaskNode(ns[0], e)] + MaskRow(ns[1..], e)
  }

  function MaskNode(n: Node, e: Sub): Node
    requires e.lit != ""
  {
    match n case Raw(_) => n case Sym(f, body) => Sym(f, MaskRow(body, e))
  }

  /** Raw runs spelling `k` become `v`; so does a placeholder whose row is raw and spells
      `k`, that is, one in which nothing stands cut out any more. */
  function ReadRow(ns: Row, k: string, v: string): Row
    requires k != ""
  {
    if ns == [] then []
    else if RawPrefix(ns, k) then Raws(v) + ReadRow(ns[|k|..], k, v)
    else ReadNode(ns[0], k, v) + ReadRow(ns[1..], k, v)
  }

  function ReadNode(n: Node, k: string, v: string): Row
    requires k != ""
  {
    match n
    case Raw(_) => [n]
    case Sym(f, body) => if body == Raws(k) then Raws(v) else [Sym(f, ReadRow(body, k, v))]
  }

  /** The row of every placeholder stands for the placeholder's own text. */
  ghost predicate FormedNode(n: Node) {
    n.Sym? ==> ShapedSub(n.e) && Formed(n.body) && Expand(n.body) == n.e.key
  }

  ghost predicate Formed(ns: Row) {
    ns == [] || (FormedNode(ns[0]) && Formed(ns[1..]))
  }

  // ---- concatenation -----------------------------------------------------

  lemma {:induction false} RenderConcat(a: Row, b: Row)
    ensures Render(a + b) == Render(a) + Render(b)
  {
    if a == [] {
      assert a + b == b;
    } else {
      assert (a + b)[1..] == a[1..] + b;
      RenderConcat(a[1..], b);
      Regroup(RenderNode(a[0]), Render(a[1..]), Render(b));
    }
  }

  lemma {:induction false} ExpandConcat(a: Row, b: Row)
    ensures Expand(a + b) == Expand(a) + Expand(b)
  {
    if a == [] {
      assert a + b == b;
    } else {
      assert (a + b)[1..] == a[1..] + b;
      ExpandConcat(a[1..], b);
      Regroup(ExpandNode(a[0]), Expand(a[1..]), Expand(b));
    }
  }

  lemma {:induction false} FormedConcat(a: Row, b: Row)
    ensures Formed(a + b) <==> Formed(a) && Formed(b)
  {
    if a == [] {
      assert a + b == b;
    } else {
      assert (a + b)[1..] == a[1..] + b;
      FormedConcat(a[1..], b);
    }
  }

  lemma {:induction false} RawsRender(s: string)
    ensures Render(Raws(s)) == s && Expand(Raws(s)) == s && Formed(Raws(s))
  {
    if s != "" {
      assert Raws(s)[1..] == Raws(s[1..]);
      RawsRender(s[1..]);
    }
  }

  lemma RawPrefixSplit(ns: Row, p: string)
    requires RawPrefix(ns, p)
    ensures ns == Raws(p) + ns[|p|..]
    ensures Render(ns) == p + Render(ns[|p|..]) && Expand(ns) == p + Expand(ns[|p|..])
    ensures Formed(ns) ==> Formed(ns[|p|..])
  {
    assert ns == Raws(p) + ns[|p|..];
    RawsRender(p);
    RenderConcat(Raws(p), ns[|p|..]);
    ExpandConcat(Raws(p), ns[|p|..]);
    FormedConcat(Raws(p), ns[|p|..]);
  }

  // ---- the brackets of a placeholder's row -------------------------------

  /** A row that stands for a placeholder's text starts and ends with its brackets. */
  lemma BodyEnds(body: Row, k: string)
    requires Formed(body) && Expand(body) == k && Bracketed(k)
    ensures |body| >= 2 && body[0] == Raw('<') && body[|body| - 1] == Raw('>')
  {
    assert body != [];
    assert ExpandNode(body[0])[0] == '<' by { HeadNotEmpty(body[0]); }
    if body[0].Sym? { PlainFirst(body[0].e.lit); }
    LastExpand(body);
    LastFormed(body);
    if body[|body| - 1].Sym? { PlainLast(body[|body| - 1].e.lit); }
  }

  lemma HeadNotEmpty(n: Node)
    requires FormedNode(n)
    ensures ExpandNode(n) != ""
  {
  }

  lemma PlainFirst(s: string)
    requires s != "" && Plain(s)
    ensures s[0] != '<' && s[0] != '>'
  {
    assert s[0] in s;
  }

  lemma PlainLast(s: string)
    requires s != "" && Plain(s)
    ensures s[|s| - 1] != '<' && s[|s| - 1] != '>'
  {
    assert s[|s| - 1] in s;
  }

  lemma Single(n: Node)
    ensures Expand([n]) == ExpandNode(n) && Render([n]) == RenderNode(n) && (Formed([n]) <==> FormedNode(n))
  {
    assert [n][1..] == [];
  }

  lemma LastExpand(ns: Row)
    requires ns != []
    ensures Expand(ns) == Expand(ns[..|ns| - 1]) + ExpandNode(ns[|ns| - 1])
  {
    var front, last := ns[..|ns| - 1], ns[|ns| - 1];
    assert ns == front + [last];
    Snoc(front, last);
  }

  lemma Snoc(front: Row, last: Node)
    ensures Expand(front + [last]) == Expand(front) + ExpandNode(last)
  {
    ExpandConcat(front, [last]);
    Single(last);
  }

  lemma LastFormed(ns: Row)
    requires ns != [] && Formed(ns)
    ensures FormedNode(ns[|ns| - 1])
  {
    var last := ns[|ns| - 1];
    assert ns == ns[..|ns| - 1] + [last];
    FormedConcat(ns[..|ns| - 1], [last]);
  }

  /** So does its rendering, however it has been cut up inside. */
  lemma BodyRenders(body: Row, k: string)
    requires Formed(body) && Expand(body) == k && Bracketed(k)
    ensures |Render(body)| >= 2 && Render(body)[0] == '<' && Render(body)[|Render(body)| - 1] == '>'
  {
    BodyEnds(body, k);
    var mid, last := body[1..|body| - 1], body[|body| - 1];
    assert body == [body[0]] + (mid + [last]);
    RenderConcat([body[0]], mid + [last]);
    RenderConcat(mid, [last]);
    Single(last);
    Single(body[0]);
  }

  // ---- replacing in the text is rewriting the row ------------------------

  /** What starts a text and has no `<` after its first character is spelled by raw
      characters, for every placeholder is rendered with a `<` in front. */
  lemma {:induction false} StartIsRaw(ns: Row, p: string)
    requires Formed(ns) && '<' !in p && StartsWith(Render(ns), p)
    ensures RawPrefix(ns, p)
  {
    if p != "" {
      StartsWithAt(Render(ns), p);
      assert p[0] in p;
      HeadIsRaw(ns);
      var rest := Render(ns[1..]);
      assert Render(ns) == [p[0]] + rest;
      assert rest[..|p| - 1] == p[1..];
      StartIsRaw(ns[1..], p[1..]);
      forall i | 0 <= i < |p| ensures ns[i] == Raw(p[i]) {
        if i > 0 { assert ns[1..][i - 1] == ns[i] && p[1..][i - 1] == p[i]; }
      }
    }
  }

  /** A text that does not start with `<` comes from a row that starts raw. */
  lemma HeadIsRaw(ns: Row)
    requires Formed(ns) && Render(ns) != "" && Render(ns)[0] != '<'
    ensures ns != [] && ns[0] == Raw(Render(ns)[0])
  {
    if ns[0].Sym? { BodyRenders(ns[0].body, ns[0].e.key); }
  }

  lemma StartIsRawKey(ns: Row, k: string)
    requires Formed(ns) && ns != [] && ns[0].Raw? && k != "" && '<' !in k[1..] && StartsWith(Render(ns), k)
    ensures RawPrefix(ns, k)
  {
    StartsWithAt(Render(ns), k);
    var rest := Render(ns[1..]);
    assert Render(ns) == [ns[0].c] + rest && ns[0].c == k[0];
    assert rest[..|k| - 1] == k[1..];
    StartIsRaw(ns[1..], k[1..]);
    forall i | 0 <= i < |k| ensures ns[i] == Raw(k[i]) {
      if i > 0 { assert ns[1..][i - 1] == ns[i] && k[1..][i - 1] == k[i]; }
    }
  }

  lemma RawStart(ns: Row, p: string)
    requires RawPrefix(ns, p)
    ensures StartsWith(Render(ns), p) && Render(ns)[|p|..] == Render(ns[|p|..])
  {
    RawPrefixSplit(ns, p);
  }

  lemma PlainKey(k: string)
    requires Bracketed(k)
    ensures '<' !in k[1..] && '>' !in k[..|k| - 1]
  {
    forall i | 0 <= i < |k[1..]| ensures k[1..][i] != '<' { assert k[1..][i] == k[i + 1]; }
  }

  /** Masking the row is replacing in the text. */
  lemma {:induction false} MaskRenders(ns: Row, e: Sub)
    requires Formed(ns) && ShapedSub(e)
    ensures Render(MaskRow(ns, e)) == Replace(Render(ns), e.lit, e.key)
  {
    if ns != [] {
      if RawPrefix(ns, e.lit) {
        RawPrefixSplit(ns, e.lit);
        RawStart(ns, e.lit);
        MaskRenders(ns[|e.lit|..], e);
        RawsRender(e.key);
        ReplaceHit(Render(ns), e.lit, e.key);
        assert RenderNode(Sym(e, Raws(e.key))) == e.key;
        MaskHit(ns, e);
      } else {
        MaskRenders(ns[1..], e);
        MaskNodeRenders(ns[0], Render(ns[1..]), ns, e);
      }
    }
  }

  lemma MaskHit(ns: Row, e: Sub)
    requires ns != [] && e.lit != "" && RawPrefix(ns, e.lit)
    ensures Render(MaskRow(ns, e)) == RenderNode(Sym(e, Raws(e.key))) + Render(MaskRow(ns[|e.lit|..], e))
  {
    var head, tail := Sym(e, Raws(e.key)), MaskRow(ns[|e.lit|..], e);
    RenderConcat([head], tail);
    Single(head);
  }

  lemma {:induction false} MaskNodeRenders(n: Node, rest: string, ns: Row, e: Sub)
    requires Formed(ns) && ShapedSub(e) && ns != [] && n == ns[0] && !RawPrefix(ns, e.lit) && rest == Render(ns[1..])
    ensures Replace(RenderNode(n) + rest, e.lit, e.key) == RenderNode(MaskNode(n, e)) + Replace(rest, e.lit, e.key)
    decreases n
  {
    match n
    case Raw(c) =>
      assert Render(ns) == [c] + rest;
      if StartsWith(Render(ns), e.lit) { StartIsRaw(ns, e.lit); }
      ReplaceStep(c, rest, e.lit, e.key);
    case Sym(f, body) =>
      BodyRenders(body, f.key);
      EndsApart(Render(body), rest, e.lit);
      ReplaceSplit(Render(body), rest, e.lit, e.key);
      MaskRenders(body, e);
  }

  /** Reading the row is replacing in the text. */
  lemma {:induction false} ReadRenders(ns: Row, k: string, v: string)
    requires Formed(ns) && Bracketed(k)
    ensures Render(ReadRow(ns, k, v)) == Replace(Render(ns), k, v)
  {
    if ns != [] {
      if RawPrefix(ns, k) {
        RawPrefixSplit(ns, k);
        RawStart(ns, k);
        ReadRenders(ns[|k|..], k, v);
        ReplaceHit(Render(ns), k, v);
        RawsRender(v);
        RenderConcat(Raws(v), ReadRow(ns[|k|..], k, v));
      } else {
        ReadRenders(ns[1..], k, v);
        ReadNodeRenders(ns[0], Render(ns[1..]), ns, k, v);
        RenderConcat(ReadNode(ns[0], k, v), ReadRow(ns[1..], k, v));
      }
    }
  }

  lemma {:induction false} ReadNodeRenders(n: Node, rest: string, ns: Row, k: string, v: string)
    requires Formed(ns) && Bracketed(k) && ns != [] && n == ns[0] && !RawPrefix(ns, k) && rest == Render(ns[1..])
    ensures Replace(RenderNode(n) + rest, k, v) == Render(ReadNode(n, k, v)) + Replace(rest, k, v)
    decreases n
  {
    match n
    case Raw(c) =>
      Single(n);
      PlainKey(k);
      assert Render(ns) == [c] + rest;
      if StartsWith(Render(ns), k) { StartIsRawKey(ns, k); }
      ReplaceStep(c, rest, k, v);
    case Sym(f, body) =>
      BodyRenders(body, f.key);
      PlainKey(k);
      EndsApart(Render(body), rest, k);
      ReplaceSplit(Render(body), rest, k, v);
      ReadBodyRenders(n, k, v);
  }

  lemma {:induction false} ReadBodyRenders(n: Node, k: string, v: string)
    requires n.Sym? && FormedNode(n) && Bracketed(k)
    ensures Render(ReadNode(n, k, v)) == Replace(Render(n.body), k, v)
    decreases n, 0
  {
    if n.body == Raws(k) {
      RawsRender(k);
      RawsRender(v);
      assert k[|k|..] == "" && StartsWith(k, k);
      ReplaceHit(k, k, v);
      assert v + "" == v;
    } else {
      ReadRenders(n.body, k, v);
      Single(Sym(n.e, ReadRow(n.body, k, v)));
    }
  }

  // ---- what a row stands for ---------------------------------------------

  /** Masking changes neither what the row stands for nor what its placeholders do. */
  lemma {:induction false} MaskExpands(ns: Row, e: Sub)
    requires Formed(ns) && ShapedSub(e)
    ensures Expand(MaskRow(ns, e)) == Expand(ns) && Formed(MaskRow(ns, e))
  {
    if ns != [] {
      if RawPrefix(ns, e.lit) {
        RawPrefixSplit(ns, e.lit);
        MaskExpands(ns[|e.lit|..], e);
        RawsRender(e.key);
        PutFront(Sym(e, Raws(e.key)), MaskRow(ns[|e.lit|..], e));
      } else {
        MaskExpands(ns[1..], e);
        if ns[0].Sym? { MaskExpands(ns[0].body, e); }
        PutFront(MaskNode(ns[0], e), MaskRow(ns[1..], e));
      }
    }
  }

  lemma PutFront(n: Node, ns: Row)
    ensures Expand([n] + ns) == ExpandNode(n) + Expand(ns) && Render([n] + ns) == RenderNode(n) + Render(ns)
    ensures Formed([n] + ns) <==> FormedNode(n) && Formed(ns)
  {
    assert ([n] + ns)[1..] == ns;
  }

  /** No raw run at the top level spells `p`. */
  ghost predicate NoRun(ns: Row, p: string) {
    ns == [] || (!RawPrefix(ns, p) && NoRun(ns[1..], p))
  }

  lemma {:induction false} NotSpelledNoRun(ns: Row, p: string)
    requires p != "" && !Contains(Expand(ns), p)
    ensures NoRun(ns, p)
  {
    if ns != [] {
      if RawPrefix(ns, p) { RunIsSpelled(ns, p); }
      ContainsBehind(ExpandNode(ns[0]), Expand(ns[1..]), p);
      NotSpelledNoRun(ns[1..], p);
    }
  }

  lemma RunIsSpelled(ns: Row, p: string)
    requires RawPrefix(ns, p)
    ensures Contains(Expand(ns), p)
  {
    RawPrefixSplit(ns, p);
    ContainsIntro("", p, Expand(ns[|p|..]));
    assert "" + p == p;
  }

  lemma ContainsBehind(a: string, s: string, p: string)
    ensures Contains(s, p) ==> Contains(a + s, p)
  {
    if Contains(s, p) {
      var i: nat :| i <= |s| && OccursAt(s, p, i);
      assert (a + s)[|a| + i..|a| + i + |p|] == s[i..i + |p|];
      assert OccursAt(a + s, p, |a| + i);
    }
  }

  /** One placeholder's text lies in another's only if it is the same text. */
  lemma BracketedInside(k: string, p: string)
    requires Bracketed(k) && Bracketed(p) && Contains(k, p)
    ensures k == p
  {
    var i: nat :| i <= |k| && OccursAt(k, p, i);
    assert k[i..i + |p|][0] == k[i] && k[i..i + |p|][|p| - 1] == k[i + |p| - 1];
    assert i == 0 && |p| == |k|;
    assert k[0..|k|] == k;
  }

  /** A placeholder's row either is the raw text, or has no raw run spelling a key. */
  lemma BodyNoRun(body: Row, key: string, k: string)
    requires Formed(body) && Expand(body) == key && Bracketed(key) && Bracketed(k) && body != Raws(k)
    ensures NoRun(body, k)
  {
    if Contains(key, k) {
      BracketedInside(key, k);
      WholeRun(body, k);
    } else {
      NotSpelledNoRun(body, k);
    }
  }

  lemma WholeRun(body: Row, k: string)
    requires Formed(body) && Expand(body) == k && Bracketed(k) && body != Raws(k)
    ensures NoRun(body, k)
  {
    BodyEnds(body, k);
    if RawPrefix(body, k) {
      RawPrefixSplit(body, k);
      assert Expand(body[|k|..]) == "";
      NothingLeft(body[|k|..]);
    }
    PlainKey(k);
    assert Expand(body[1..]) == k[1..];
    NoOpenNoRun(body[1..], k);
  }

  lemma NothingLeft(ns: Row)
    requires Formed(ns) && Expand(ns) == ""
    ensures ns == []
  {
    if ns != [] { HeadNotEmpty(ns[0]); }
  }

  lemma NoOpenNoRun(ns: Row, k: string)
    requires Bracketed(k) && '<' !in Expand(ns)
    ensures NoRun(ns, k)
  {
    if Contains(Expand(ns), k) { OpenInside(Expand(ns), k); }
    NotSpelledNoRun(ns, k);
  }

  lemma OpenInside(s: string, k: string)
    requires Bracketed(k) && Contains(s, k)
    ensures '<' in s
  {
    var i: nat :| i <= |s| && OccursAt(s, k, i);
    assert s[i] == s[i..i + |k|][0];
  }

  /** Placeholders with the key `k` stand for `v`. */
  ghost predicate Means(ns: Row, k: string, v: string) {
    ns == [] || ((ns[0].Sym? ==> (ns[0].e.key == k ==> ns[0].e.lit == v) && Means(ns[0].body, k, v)) && Means(ns[1..], k, v))
  }

  /** Where no raw run is mistaken for a placeholder, reading changes nothing either. */
  lemma {:induction false} ReadExpands(ns: Row, k: string, v: string)
    requires Formed(ns) && Bracketed(k) && NoRun(ns, k) && Means(ns, k, v)
    ensures Expand(ReadRow(ns, k, v)) == Expand(ns) && Formed(ReadRow(ns, k, v))
  {
    if ns != [] {
      var head, tail := ReadNode(ns[0], k, v), ReadRow(ns[1..], k, v);
      ReadExpands(ns[1..], k, v);
      ReadNodeExpands(ns[0], k, v);
      ExpandConcat(head, tail);
      FormedConcat(head, tail);
    }
  }

  lemma {:induction false} ReadNodeExpands(n: Node, k: string, v: string)
    requires FormedNode(n) && Bracketed(k)
    requires n.Sym? ==> (n.e.key == k ==> n.e.lit == v) && Means(n.body, k, v)
    ensures Expand(ReadNode(n, k, v)) == ExpandNode(n) && Formed(ReadNode(n, k, v))
    decreases n, 0
  {
    match n
    case Raw(_) => Single(n);
    case Sym(e, body) =>
      if body == Raws(k) {
        RawsRender(k);
        RawsRender(v);
      } else {
        BodyNoRun(body, e.key, k);
        ReadExpands(body, k, v);
        Single(Sym(e, ReadRow(body, k, v)));
      }
  }
}
