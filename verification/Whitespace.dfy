/** `str.isspace`, `str.strip` and `str.split` on the Unicode white space. */
module Whitespace {

  predicate IsSpace(c: char) {
    var n := c as int;
    || 9 <= n <= 13 || 28 <= n <= 32 || n == 0x85 || n == 0xA0 || n == 0x1680
    || 0x2000 <= n <= 0x200A || n == 0x2028 || n == 0x2029 || n == 0x202F
    || n == 0x205F || n == 0x3000
  }

  function StripLeft(s: string): string {
    if s != "" && IsSpace(s[0]) then StripLeft(s[1..]) else s
  }

  function StripRight(s: string): string {
    if s != "" && IsSpace(s[|s| - 1]) then StripRight(s[..|s| - 1]) else s
  }

  /** Python's `s.strip()`. */
  function Strip(s: string): string {
    StripRight(StripLeft(s))
  }

  predicate AllSpace(s: string) {
    forall c :: c in s ==> IsSpace(c)
  }

  /** `t` is `s` without the white space around it. */
  ghost predicate Stripped(s: string, t: string) {
    && (t == "" || (!IsSpace(t[0]) && !IsSpace(t[|t| - 1])))
    && exists a, b :: s == a + t + b && AllSpace(a) && AllSpace(b)
  }

  lemma {:induction false} LeftIs(s: string) returns (a: string)
    ensures s == a + StripLeft(s) && AllSpace(a) && (StripLeft(s) == "" || !IsSpace(StripLeft(s)[0]))
  {
    a := "";
    if s != "" && IsSpace(s[0]) {
      var more := LeftIs(s[1..]);
      a := [s[0]] + more;
      assert s == [s[0]] + s[1..];
    }
  }

  lemma {:induction false} RightIs(s: string) returns (b: string)
    ensures s == StripRight(s) + b && AllSpace(b) && (StripRight(s) == "" || !IsSpace(StripRight(s)[|StripRight(s)| - 1]))
    ensures StripRight(s) != "" ==> s != "" && StripRight(s)[0] == s[0]
  {
    b := "";
    if s != "" && IsSpace(s[|s| - 1]) {
      var more := RightIs(s[..|s| - 1]);
      b := more + [s[|s| - 1]];
      assert s == s[..|s| - 1] + [s[|s| - 1]];
    }
  }

  lemma StripIs(s: string)
    ensures Stripped(s, Strip(s))
  {
    var a := LeftIs(s);
    var b := RightIs(StripLeft(s));
    assert s == a + (Strip(s) + b);
    assert s == a + Strip(s) + b;
  }

  /** There is only one such part. */
  lemma OneStripped(s: string, t: string)
    requires Stripped(s, t)
    ensures t == Strip(s)
  {
    var a, b :| s == a + t + b && AllSpace(a) && AllSpace(b);
    assert s == a + (t + b);
    LeftGone(a, t + b);
    if t == "" {
      LeftGone(b, "");
      assert t + b == b && b + "" == b;
      RightGone("", "");
    } else {
      assert (t + b)[0] == t[0];
      FirstStays(t + b);
      RightGone(t, b);
    }
  }

  lemma {:induction false} LeftGone(a: string, s: string)
    requires AllSpace(a)
    ensures StripLeft(a + s) == StripLeft(s)
  {
    if a == "" {
      assert a + s == s;
    } else {
      assert a[0] in a && (a + s)[1..] == a[1..] + s;
      LeftGone(a[1..], s);
    }
  }

  lemma FirstStays(s: string)
    requires s != "" && !IsSpace(s[0])
    ensures StripLeft(s) == s
  {
  }

  lemma {:induction false} RightGone(t: string, b: string)
    requires AllSpace(b) && (t == "" || !IsSpace(t[|t| - 1]))
    ensures StripRight(t + b) == t
  {
    if b == "" {
      assert t + b == t;
    } else {
      var n := |b| - 1;
      assert b[n] in b && (t + b)[..|t + b| - 1] == t + b[..n];
      RightGone(t, b[..n]);
    }
  }

  /** The characters meant, one by one. */
  lemma SpacesAre(c: char)
    ensures IsSpace(c) <==> c as int in {
      0x09, 0x0A, 0x0B, 0x0C, 0x0D, 0x1C, 0x1D, 0x1E, 0x1F, 0x20, 0x85, 0xA0, 0x1680,
      0x2000, 0x2001, 0x2002, 0x2003, 0x2004, 0x2005, 0x2006, 0x2007, 0x2008, 0x2009, 0x200A,
      0x2028, 0x2029, 0x202F, 0x205F, 0x3000}
  {
  }
}
