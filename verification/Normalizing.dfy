/** Words between white space, and src/mesh/validator.py's `normalize_text`. */
module Normalizing {
  import opened Whitespace
  import opened Text

  /** Python's `s.split()`. */
  function Tokens(s: string): (ts: seq<string>)
    ensures s != "" && !IsSpace(s[0]) ==> ts != []
  {
    if s == "" then []
    else if IsSpace(s[0]) then Tokens(s[1..])
    else if |s| > 1 && !IsSpace(s[1]) then
      var ts := Tokens(s[1..]);
      [[s[0]] + ts[0]] + ts[1..]
    else [[s[0]]] + Tokens(s[1..])
  }

  /** A word as `split` yields it: not empty and without white space. */
  predicate IsWord(w: string) {
    w != "" && forall c :: c in w ==> !IsSpace(c)
  }

  ghost predicate Words(ts: seq<string>) {
    forall t :: t in ts ==> IsWord(t)
  }

  /** `" ".join(ts)`. */
  function Joined(ts: seq<string>): string {
    if ts == [] then "" else if |ts| == 1 then ts[0] else ts[0] + " " + Joined(ts[1..])
  }

  lemma {:induction false} TokensAreWords(s: string)
    ensures Words(Tokens(s))
  {
    if s != "" {
      TokensAreWords(s[1..]);
      if !IsSpace(s[0]) && |s| > 1 && !IsSpace(s[1]) {
        var ts := Tokens(s[1..]);
        assert ts[0] in ts && forall t :: t in ts[1..] ==> t in ts;
      }
    }
  }

  /** The two texts meet inside a word. */
  predicate Meets(x: string, y: string) {
    x != "" && y != "" && !IsSpace(x[|x| - 1]) && !IsSpace(y[0])
  }

  /** The words of a concatenation: where the texts meet inside a word, the last word of
      the first and the first of the second are one. */
  function Glued(xs: seq<string>, ys: seq<string>, meets: bool): seq<string>
    requires meets ==> xs != [] && ys != []
  {
    if meets then xs[..|xs| - 1] + [xs[|xs| - 1] + ys[0]] + ys[1..] else xs + ys
  }

  lemma {:induction false} EndsInWord(x: string)
    requires x != "" && !IsSpace(x[|x| - 1])
    ensures Tokens(x) != []
  {
    if |x| > 1 { EndsInWord(x[1..]); }
  }

  lemma {:induction false} TokensConcat(x: string, y: string)
    ensures Meets(x, y) ==> Tokens(x) != [] && Tokens(y) != []
    ensures Tokens(x + y) == Glued(Tokens(x), Tokens(y), Meets(x, y))
    decreases |x|
  {
    if x == "" {
      assert x + y == y;
    } else {
      var more := x[1..];
      assert (x + y)[1..] == more + y && (x + y)[0] == x[0];
      TokensConcat(more, y);
      if Meets(x, y) { EndsInWord(x); }
      if IsSpace(x[0]) {
        assert more == "" ==> !Meets(x, y);
      } else if more == "" {
        SingleConcat(x, y);
      } else {
        LongerConcat(x, y);
      }
    }
  }

  lemma SingleConcat(x: string, y: string)
    requires |x| == 1 && !IsSpace(x[0])
    ensures Tokens(x + y) == Glued([x], Tokens(y), y != "" && !IsSpace(y[0]))
    ensures Tokens(x) == [x]
  {
    assert (x + y)[1..] == y && x == [x[0]] && x[1..] == "";
    if y != "" { assert (x + y)[1] == y[0]; }
  }

  lemma LongerConcat(x: string, y: string)
    requires |x| > 1 && !IsSpace(x[0])
    requires Meets(x[1..], y) ==> Tokens(x[1..]) != [] && Tokens(y) != []
    requires Tokens(x[1..] + y) == Glued(Tokens(x[1..]), Tokens(y), Meets(x[1..], y))
    ensures Tokens(x) != []
    ensures Tokens(x + y) == Glued(Tokens(x), Tokens(y), Meets(x, y))
  {
    var more := x[1..];
    var ts, all := Tokens(more), Tokens(more + y);
    assert (x + y)[1..] == more + y && (x + y)[0] == x[0] && (x + y)[1] == x[1];
    assert Meets(x, y) == Meets(more, y);
    if !IsSpace(x[1]) {
      assert Tokens(x) == [[x[0]] + ts[0]] + ts[1..];
      assert Tokens(x + y) == [[x[0]] + all[0]] + all[1..];
      AttachGlued(x[0], ts, Tokens(y), Meets(more, y));
    } else {
      assert Tokens(x) == [[x[0]]] + ts;
      assert Tokens(x + y) == [[x[0]]] + all;
      PrependGlued([x[0]], ts, Tokens(y), Meets(more, y));
    }
  }

  lemma AttachGlued(c: char, xs: seq<string>, ys: seq<string>, meets: bool)
    requires xs != [] && (meets ==> ys != [])
    ensures var all := Glued(xs, ys, meets);
      all != [] && Glued([[c] + xs[0]] + xs[1..], ys, meets) == [[c] + all[0]] + all[1..]
  {
    var all := Glued(xs, ys, meets);
    if meets && |xs| == 1 {
      assert xs[..0] == [] && [[c] + xs[0]] + xs[1..] == [[c] + xs[0]];
      assert all == [xs[0] + ys[0]] + ys[1..];
      assert ([c] + xs[0]) + ys[0] == [c] + (xs[0] + ys[0]);
    } else if meets {
      assert all[0] == xs[0];
      assert all[1..] == xs[1..|xs| - 1] + [xs[|xs| - 1] + ys[0]] + ys[1..];
    }
  }

  lemma PrependGlued(x: string, xs: seq<string>, ys: seq<string>, meets: bool)
    requires meets ==> xs != [] && ys != []
    ensures Glued([x] + xs, ys, meets) == [x] + Glued(xs, ys, meets)
  {
    if meets { assert ([x] + xs)[..|xs|] == [x] + xs[..|xs| - 1]; }
  }

  // ---- joining and splitting ---------------------------------------------

  lemma {:induction false} WordTokens(w: string)
    requires IsWord(w)
    ensures Tokens(w) == [w]
  {
    if |w| > 1 {
      WordTokens(w[1..]);
      assert w == [w[0]] + w[1..];
    } else {
      assert w == [w[0]] && w[1..] == "";
    }
  }

  lemma TokensApart(x: string, c: char, y: string)
    requires IsSpace(c)
    ensures Tokens(x + [c] + y) == Tokens(x) + Tokens(y)
  {
    assert x + [c] + y == x + ([c] + y);
    assert ([c] + y)[1..] == y && ([c] + y)[0] == c;
    TokensConcat(x, [c] + y);
  }

  /** Splitting undoes joining. */
  lemma {:induction false} JoinedTokens(ts: seq<string>)
    requires Words(ts)
    ensures Tokens(Joined(ts)) == ts
  {
    if ts != [] {
      assert ts[0] in ts;
      WordTokens(ts[0]);
      if |ts| > 1 {
        JoinedTokens(ts[1..]);
        TokensApart(ts[0], ' ', Joined(ts[1..]));
        assert [ts[0]] + ts[1..] == ts;
      }
    }
  }

  lemma {:induction false} JoinedConcat(xs: seq<string>, ys: seq<string>)
    requires xs != [] && ys != []
    ensures Joined(xs + ys) == Joined(xs) + " " + Joined(ys)
  {
    assert (xs + ys)[1..] == xs[1..] + ys;
    if |xs| > 1 {
      JoinedConcat(xs[1..], ys);
      assert xs[0] + " " + (Joined(xs[1..]) + " " + Joined(ys)) == (xs[0] + " " + Joined(xs[1..])) + " " + Joined(ys);
    } else {
      assert xs[1..] + ys == ys;
    }
  }

  lemma JoinedBefore(xs: seq<string>, ys: seq<string>)
    requires ys != []
    ensures Joined(xs + ys) == (if xs == [] then "" else Joined(xs) + " ") + Joined(ys)
  {
    if xs == [] { assert xs + ys == ys; } else { JoinedConcat(xs, ys); }
  }

  lemma JoinedAfter(ys: seq<string>, zs: seq<string>)
    requires ys != []
    ensures Joined(ys + zs) == Joined(ys) + if zs == [] then "" else " " + Joined(zs)
  {
    if zs == [] {
      assert ys + zs == ys;
    } else {
      JoinedConcat(ys, zs);
      assert Joined(ys) + " " + Joined(zs) == Joined(ys) + (" " + Joined(zs));
    }
  }

  lemma ContainsMiddle(a: string, p: string, b: string)
    ensures Contains(a + (p + b), p)
  {
    assert a + (p + b) == a + p + b;
    ContainsIntro(a, p, b);
  }

  /** Words in a row, joined, are a part of the text they are a row of. */
  lemma JoinedPart(xs: seq<string>, ys: seq<string>, zs: seq<string>)
    requires ys != []
    ensures Contains(Joined(xs + (ys + zs)), Joined(ys))
  {
    JoinedBefore(xs, ys + zs);
    JoinedAfter(ys, zs);
    ContainsMiddle(if xs == [] then "" else Joined(xs) + " ", Joined(ys), if zs == [] then "" else " " + Joined(zs));
  }

  // ---- normalising -------------------------------------------------------

  /** Lower case, character by character; white space and nothing else stays or becomes
      white space. */
  type Lowering = f: char -> string | forall c :: if IsSpace(c) then f(c) == [c] else IsWord(f(c))
    witness c => [c]

  function Lower(s: string, f: Lowering): string {
    if s == "" then "" else f(s[0]) + Lower(s[1..], f)
  }

  function LowerAll(ts: seq<string>, f: Lowering): seq<string> {
    seq(|ts|, i requires 0 <= i < |ts| => Lower(ts[i], f))
  }

  /** `re.sub(r"\s+", " ", s)`; `run` says that a blank has just been put down. */
  function Collapse(s: string, run: bool): string {
    if s == "" then ""
    else if IsSpace(s[0]) then (if run then "" else " ") + Collapse(s[1..], true)
    else [s[0]] + Collapse(s[1..], false)
  }

  function Normalize(s: string, f: Lowering): string {
    Lower(Strip(Collapse(s, false)), f)
  }

  predicate EndsBlank(s: string) {
    s != "" && IsSpace(s[|s| - 1])
  }

  function Sep(b: bool): string {
    if b then " " else ""
  }

  lemma {:induction false} CollapseIs(s: string)
    ensures Collapse(s, true) == Joined(Tokens(s)) + Sep(Tokens(s) != [] && EndsBlank(s))
    ensures Collapse(s, false) == Sep(s != "" && IsSpace(s[0])) + Collapse(s, true)
  {
    if s != "" {
      var more := s[1..];
      CollapseIs(more);
      if more == "" {
        assert s == [s[0]];
      } else if !IsSpace(s[0]) && !IsSpace(s[1]) {
        JoinedAttach(s[0], Tokens(more));
      } else if !IsSpace(s[0]) {
        if Tokens(more) == [] { AllBlank(more); }
        JoinedPrepend(s[0], Tokens(more), EndsBlank(more));
        assert EndsBlank(s) == EndsBlank(more) && Tokens(s) == [[s[0]]] + Tokens(more);
      }
    }
  }

  lemma JoinedAttach(c: char, ts: seq<string>)
    requires ts != []
    ensures Joined([[c] + ts[0]] + ts[1..]) == [c] + Joined(ts)
  {
    var all := [[c] + ts[0]] + ts[1..];
    assert all[1..] == ts[1..];
    if |ts| > 1 { assert ([c] + ts[0]) + " " + Joined(ts[1..]) == [c] + (ts[0] + " " + Joined(ts[1..])); }
  }

  lemma JoinedPrepend(c: char, ts: seq<string>, ends: bool)
    requires ts == [] ==> ends
    ensures Joined([[c]] + ts) + Sep(ends) == [c] + (" " + (Joined(ts) + Sep(ts != [] && ends)))
  {
    assert ([[c]] + ts)[1..] == ts;
  }

  lemma {:induction false} AllBlank(s: string)
    requires s != "" && Tokens(s) == []
    ensures EndsBlank(s)
  {
    if !EndsBlank(s) { EndsInWord(s); }
  }

  lemma StripTrims(s: string, front: bool, back: bool)
    requires s != "" && !IsSpace(s[0]) && !IsSpace(s[|s| - 1])
    ensures Strip(Sep(front) + (s + Sep(back))) == s
  {
    var t := s + Sep(back);
    assert Sep(front) + t == if front then [' '] + t else t;
    assert t[0] == s[0] && StripLeft(t) == t;
    assert StripLeft(Sep(front) + t) == t by {
      if front { assert ([' '] + t)[1..] == t; } else { assert Sep(front) + t == t; }
    }
    assert StripRight(s) == s;
    assert if back then t[..|t| - 1] == s else t == s;
    assert StripRight(t) == s;
  }

  lemma {:induction false} JoinedEnds(ts: seq<string>)
    requires Words(ts) && ts != []
    ensures Joined(ts) != "" && !IsSpace(Joined(ts)[0]) && !IsSpace(Joined(ts)[|Joined(ts)| - 1])
  {
    assert ts[0] in ts;
    if |ts| > 1 { JoinedEnds(ts[1..]); }
  }

  lemma {:induction false} LowerConcat(x: string, y: string, f: Lowering)
    ensures Lower(x + y, f) == Lower(x, f) + Lower(y, f)
  {
    if x == "" {
      assert x + y == y;
    } else {
      assert (x + y)[1..] == x[1..] + y;
      LowerConcat(x[1..], y, f);
      assert f(x[0]) + (Lower(x[1..], f) + Lower(y, f)) == (f(x[0]) + Lower(x[1..], f)) + Lower(y, f);
    }
  }

  lemma {:induction false} LowerWord(w: string, f: Lowering)
    requires IsWord(w)
    ensures IsWord(Lower(w, f))
  {
    assert IsWord(f(w[0]));
    if |w| > 1 { LowerWord(w[1..], f); }
  }

  lemma {:induction false} LowerJoined(ts: seq<string>, f: Lowering)
    ensures Lower(Joined(ts), f) == Joined(LowerAll(ts, f))
  {
    if |ts| == 1 {
      assert LowerAll(ts, f) == [Lower(ts[0], f)];
    } else if |ts| > 1 {
      LowerJoined(ts[1..], f);
      LowerConcat(ts[0] + " ", Joined(ts[1..]), f);
      LowerConcat(ts[0], " ", f);
      assert LowerAll(ts, f)[1..] == LowerAll(ts[1..], f);
      LowerBlank(f);
    }
  }

  lemma LowerBlank(f: Lowering)
    ensures Lower(" ", f) == " "
  {
    assert f(' ') == [' '];
    assert " "[1..] == "";
  }

  lemma LoweredAreWords(ts: seq<string>, f: Lowering)
    requires forall w :: w in ts ==> IsWord(w)
    ensures forall w :: w in LowerAll(ts, f) ==> IsWord(w)
  {
    var low := LowerAll(ts, f);
    forall w | w in low ensures IsWord(w) {
      var i :| 0 <= i < |low| && low[i] == w;
      assert ts[i] in ts;
      LowerWord(ts[i], f);
    }
  }

  lemma StrippedIsJoined(s: string)
    ensures Strip(Collapse(s, false)) == Joined(Tokens(s))
  {
    var ts := Tokens(s);
    CollapseIs(s);
    TokensAreWords(s);
    if ts == [] {
      assert Strip(Collapse(s, false)) == "";
    } else {
      JoinedEnds(ts);
      StripTrims(Joined(ts), s != "" && IsSpace(s[0]), EndsBlank(s));
    }
  }

  /** Normalising a text is joining its lowered words: white space neither hides nor
      makes a difference. */
  lemma NormalizeIsJoined(s: string, f: Lowering)
    ensures Normalize(s, f) == Joined(LowerAll(Tokens(s), f))
    ensures Tokens(Normalize(s, f)) == LowerAll(Tokens(s), f)
  {
    StrippedIsJoined(s);
    TokensAreWords(s);
    LowerJoined(Tokens(s), f);
    LoweredAreWords(Tokens(s), f);
    JoinedTokens(LowerAll(Tokens(s), f));
  }
}
