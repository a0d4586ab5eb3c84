/** String primitives the masking code leans on: substring tests, Python's
    `str.replace`, and the decimal numerals inside a placeholder. */
module Text {
  import opened Sequences

  predicate StartsWith(s: string, p: string) {
    |p| <= |s| && s[..|p|] == p
  }

  predicate OccursAt(s: string, p: string, i: nat) {
    i + |p| <= |s| && s[i..i + |p|] == p
  }

  /** Python's `p in s`. */
  predicate Contains(s: string, p: string) {
    exists i: nat :: i <= |s| && OccursAt(s, p, i)
  }

  /** Python's `s.replace(what, sub)`: leftmost, non-overlapping, the inserted text
      is not scanned again. An empty `what` is inserted around every character. */
  function Replace(s: string, what: string, sub: string): string
    decreases |s|
  {
    if what == "" then Interleave(s, sub)
    else if StartsWith(s, what) then sub + Replace(s[|what|..], what, sub)
    else if s == "" then ""
    else [s[0]] + Replace(s[1..], what, sub)
  }

  function Interleave(s: string, sub: string): string {
    if s == "" then sub else sub + [s[0]] + Interleave(s[1..], sub)
  }

  /** Replacing the empty text puts the new one at the start and after every character. */
  lemma {:induction false} InterleaveIs(s: string, c: char, sub: string)
    ensures Replace("", "", sub) == sub
    ensures Replace(s + [c], "", sub) == Replace(s, "", sub) + [c] + sub
  {
    if s == "" {
      assert s + [c] == [c] && [c][1..] == "";
    } else {
      assert (s + [c])[1..] == s[1..] + [c] && (s + [c])[0] == s[0];
      InterleaveIs(s[1..], c, sub);
      assert sub + [s[0]] + (Interleave(s[1..], sub) + [c] + sub) == (sub + [s[0]] + Interleave(s[1..], sub)) + [c] + sub;
    }
  }

  lemma StartsWithAt(s: string, p: string)
    ensures StartsWith(s, p) <==> |p| <= |s| && forall j :: 0 <= j < |p| ==> s[j] == p[j]
  {
    assert |p| <= |s| ==> forall j :: 0 <= j < |p| ==> s[..|p|][j] == s[j];
  }

  lemma ContainsSplit(s: string, p: string, i: nat)
    requires i <= |s| && OccursAt(s, p, i)
    ensures s == s[..i] + p + s[i + |p|..]
  {
    assert s == s[..i] + s[i..i + |p|] + s[i + |p|..];
  }

  lemma ContainsIntro(a: string, p: string, b: string)
    ensures Contains(a + p + b, p)
  {
    assert OccursAt(a + p + b, p, |a|);
  }

  /** An occurrence in a tail is an occurrence in the whole. */
  lemma ContainsTail(c: char, s: string, p: string)
    ensures Contains(s, p) ==> Contains([c] + s, p)
    ensures StartsWith([c] + s, p) ==> Contains([c] + s, p)
    ensures Contains([c] + s, p) ==> Contains(s, p) || StartsWith([c] + s, p)
  {
    var t := [c] + s;
    if Contains(s, p) {
      var i: nat :| i <= |s| && OccursAt(s, p, i);
      assert t[i + 1..i + 1 + |p|] == s[i..i + |p|];
      assert OccursAt(t, p, i + 1);
    }
    if StartsWith(t, p) {
      assert OccursAt(t, p, 0);
    }
    if Contains(t, p) && !StartsWith(t, p) {
      var i: nat :| i <= |t| && OccursAt(t, p, i);
      if i == 0 {
        assert false;
      } else {
        assert s[i - 1..i - 1 + |p|] == t[i..i + |p|];
        assert OccursAt(s, p, i - 1);
      }
    }
  }

  /** No occurrence of `p` starts inside the first `|k|` characters of `k + rest`. */
  ghost predicate NoStartIn(k: string, rest: string, p: string) {
    forall i :: 0 <= i < |k| ==> !StartsWith(k[i..] + rest, p)
  }

  lemma ReplaceStep(c: char, s: string, what: string, sub: string)
    requires what != "" && !StartsWith([c] + s, what)
    ensures Replace([c] + s, what, sub) == [c] + Replace(s, what, sub)
  {
    assert ([c] + s)[1..] == s;
  }

  lemma ConsAssoc(k: string, s: string)
    requires k != ""
    ensures [k[0]] + (k[1..] + s) == k + s
  {
  }

  lemma NoStartTail(k: string, rest: string, p: string)
    requires NoStartIn(k, rest, p) && k != ""
    ensures NoStartIn(k[1..], rest, p) && !StartsWith(k + rest, p)
  {
    assert k[0..] == k;
    assert !StartsWith(k[0..] + rest, p);
    forall i | 0 <= i < |k[1..]| ensures !StartsWith(k[1..][i..] + rest, p) {
      assert k[1..][i..] == k[i + 1..];
    }
  }

  /** When `what` starts nowhere inside `k`, scanning copies `k` and goes on. */
  lemma {:induction false} ReplaceSkips(k: string, rest: string, what: string, sub: string)
    requires what != "" && NoStartIn(k, rest, what)
    ensures Replace(k + rest, what, sub) == k + Replace(rest, what, sub)
  {
    if k == "" {
      assert k + rest == rest;
    } else {
      NoStartTail(k, rest, what);
      ConsAssoc(k, rest);
      ReplaceStep(k[0], k[1..] + rest, what, sub);
      ReplaceSkips(k[1..], rest, what, sub);
      ConsAssoc(k, Replace(rest, what, sub));
    }
  }

  /** Replacing what does not occur changes nothing; this is why `rehydrate_text`
      may test `key in out` first. */
  lemma {:induction false} ReplaceAbsent(s: string, what: string, sub: string)
    requires what != "" && !Contains(s, what)
    ensures Replace(s, what, sub) == s
  {
    forall i | 0 <= i < |s| ensures !StartsWith(s[i..] + "", what) {
      assert s[i..] + "" == s[i..];
      assert !OccursAt(s, what, i);
      assert i + |what| <= |s| ==> s[i..][..|what|] == s[i..i + |what|];
    }
    ReplaceSkips(s, "", what, sub);
    assert s + "" == s;
  }

  /** No match that starts in `a` reaches into `b`. */
  ghost predicate NoStraddle(a: string, b: string, what: string) {
    forall i :: 0 <= i < |a| && StartsWith(a[i..] + b, what) ==> i + |what| <= |a|
  }

  lemma NoStraddleFrom(a: string, b: string, what: string, k: nat)
    requires NoStraddle(a, b, what) && k <= |a|
    ensures NoStraddle(a[k..], b, what)
  {
    forall i | 0 <= i < |a[k..]| && StartsWith(a[k..][i..] + b, what) ensures i + |what| <= |a[k..]| {
      assert a[k..][i..] == a[k + i..];
    }
  }

  /** Then replacing in the whole is replacing in the parts. */
  lemma {:induction false} ReplaceSplit(a: string, b: string, what: string, sub: string)
    requires what != "" && NoStraddle(a, b, what)
    ensures Replace(a + b, what, sub) == Replace(a, what, sub) + Replace(b, what, sub)
    decreases |a|
  {
    if a == "" {
      assert a + b == b;
    } else {
      assert a[0..] == a;
      if StartsWith(a + b, what) {
        MatchInFront(a, b, what);
        NoStraddleFrom(a, b, what, |what|);
        ReplaceSplit(a[|what|..], b, what, sub);
        ReplaceHit(a + b, what, sub);
        ReplaceHit(a, what, sub);
        Regroup(sub, Replace(a[|what|..], what, sub), Replace(b, what, sub));
      } else {
        StartsLonger(a, b, what);
        NoStraddleFrom(a, b, what, 1);
        ReplaceSplit(a[1..], b, what, sub);
        ConsAssoc(a, b);
        ReplaceStep(a[0], a[1..] + b, what, sub);
        assert [a[0]] + a[1..] == a;
        ReplaceStep(a[0], a[1..], what, sub);
        Regroup([a[0]], Replace(a[1..], what, sub), Replace(b, what, sub));
      }
    }
  }

  lemma ReplaceHit(s: string, what: string, sub: string)
    requires what != "" && StartsWith(s, what)
    ensures Replace(s, what, sub) == sub + Replace(s[|what|..], what, sub)
  {
  }

  lemma SameFront(a: string, x: string, y: string)
    ensures a + x == a + y <==> x == y
  {
    if a + x == a + y { assert x == (a + x)[|a|..] && y == (a + y)[|a|..]; }
  }

  lemma FrontsDiffer(a: string, x: string, b: string, y: string)
    requires a != "" && b != "" && a[0] != b[0]
    ensures a + x != b + y
  {
    assert (a + x)[0] == a[0] && (b + y)[0] == b[0];
  }

  lemma MatchInFront(a: string, b: string, what: string)
    requires what != "" && a != "" && NoStraddle(a, b, what) && StartsWith(a + b, what)
    ensures |what| <= |a| && StartsWith(a, what) && (a + b)[|what|..] == a[|what|..] + b
  {
    assert a[0..] == a;
    assert (a + b)[..|what|] == a[..|what|];
  }

  lemma StartsLonger(a: string, b: string, what: string)
    ensures StartsWith(a, what) ==> StartsWith(a + b, what)
  {
    if StartsWith(a, what) { assert (a + b)[..|what|] == a[..|what|]; }
  }

  /** A match across the border holds the characters on both sides of it. */
  lemma BorderInMatch(a: string, b: string, what: string, i: nat)
    requires i < |a| < i + |what| && StartsWith(a[i..] + b, what)
    ensures a[|a| - 1] in what[..|what| - 1] && b != "" && b[0] in what[1..]
  {
    var t, k := a[i..] + b, |a| - i;
    assert t[k - 1] == a[|a| - 1] && t[k] == b[0];
    assert what[k - 1] == t[..|what|][k - 1] && what[k] == t[..|what|][k];
    assert what[..|what| - 1][k - 1] == what[k - 1] && what[1..][k - 1] == what[k];
  }

  /** A part that ends in a character `what` can have at its end only. */
  lemma EndsApart(a: string, b: string, what: string)
    requires what != "" && (a == "" || a[|a| - 1] !in what[..|what| - 1])
    ensures NoStraddle(a, b, what)
  {
    forall i | 0 <= i < |a| && StartsWith(a[i..] + b, what) ensures i + |what| <= |a| {
      if i + |what| > |a| { BorderInMatch(a, b, what, i); }
    }
  }

  /** A part that starts with a character `what` can have at its start only. */
  lemma StartsApart(a: string, b: string, what: string)
    requires what != "" && (b == "" || b[0] !in what[1..])
    ensures NoStraddle(a, b, what)
  {
    forall i | 0 <= i < |a| && StartsWith(a[i..] + b, what) ensures i + |what| <= |a| {
      if i + |what| > |a| { BorderInMatch(a, b, what, i); }
    }
  }

  // ---- decimal numerals ------------------------------------------------

  const DIGITS: string := "0123456789"

  function Decimal(n: nat): (s: string)
    ensures s != "" && forall c :: c in s ==> c in DIGITS
  {
    if n < 10 then [DIGITS[n]] else Decimal(n / 10) + [DIGITS[n % 10]]
  }

  lemma DigitInjective(a: nat, b: nat)
    requires a < 10 && b < 10 && DIGITS[a] == DIGITS[b]
    ensures a == b
  {
  }

  lemma DecimalLength(n: nat)
    ensures |Decimal(n)| == 1 <==> n < 10
  {
    if n >= 10 {
      assert |Decimal(n / 10)| > 0;
    }
  }

  lemma {:induction false} DecimalInjective(a: nat, b: nat)
    requires Decimal(a) == Decimal(b)
    ensures a == b
    decreases a
  {
    DecimalLength(a);
    DecimalLength(b);
    var x, y := Decimal(a), Decimal(b);
    assert x[|x| - 1] == DIGITS[a % 10] && y[|y| - 1] == DIGITS[b % 10];
    DigitInjective(a % 10, b % 10);
    if a >= 10 && b >= 10 {
      assert x[..|x| - 1] == Decimal(a / 10) && y[..|y| - 1] == Decimal(b / 10);
      DecimalInjective(a / 10, b / 10);
    }
  }

  /** The number that decimal digits spell. */
  function Spelled(s: string): int {
    if s == "" then 0 else 10 * Spelled(s[..|s| - 1]) + (s[|s| - 1] as int - '0' as int)
  }

  /** A numeral reads as its number and starts with no needless zero. */
  lemma {:induction false} DecimalSpells(n: nat)
    ensures Spelled(Decimal(n)) == n
    ensures forall c :: c in Decimal(n) ==> '0' <= c <= '9'
    ensures n >= 10 ==> Decimal(n)[0] != '0'
  {
    var s := Decimal(n);
    if n < 10 {
      assert s[..0] == "";
      OneDigit(n);
    } else {
      DecimalSpells(n / 10);
      assert s[..|s| - 1] == Decimal(n / 10) && s[|s| - 1] == DIGITS[n % 10];
      OneDigit(n % 10);
      if n / 10 < 10 { OneDigit(n / 10); }
    }
  }

  lemma OneDigit(d: nat)
    requires d < 10
    ensures DIGITS[d] as int == d + '0' as int
  {
  }
}
