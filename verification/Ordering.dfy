/** Python's `sort()` under an order, ties left as they were; repetition; and the
    lexicographic order that `sort()` uses for strings and tuples. */
module Ordering {

  ghost predicate Total<T(!new)>(le: (T, T) -> bool) {
    forall x, y :: le(x, y) || le(y, x)
  }

  ghost predicate Transitive<T(!new)>(le: (T, T) -> bool) {
    forall x, y, z :: le(x, y) && le(y, z) ==> le(x, z)
  }

  ghost predicate Antisymmetric<T(!new)>(le: (T, T) -> bool) {
    forall x, y :: le(x, y) && le(y, x) ==> x == y
  }

  ghost predicate Linear<T(!new)>(le: (T, T) -> bool) {
    Total(le) && Transitive(le) && Antisymmetric(le)
  }

  function Place<T>(x: T, ys: seq<T>, le: (T, T) -> bool): seq<T> {
    if ys == [] || le(x, ys[0]) then [x] + ys else [ys[0]] + Place(x, ys[1..], le)
  }

  function Sorted<T>(xs: seq<T>, le: (T, T) -> bool): seq<T> {
    if xs == [] then [] else Place(xs[0], Sorted(xs[1..], le), le)
  }

  ghost predicate Ascending<T>(xs: seq<T>, le: (T, T) -> bool) {
    forall i, j :: 0 <= i < j < |xs| ==> le(xs[i], xs[j])
  }

  lemma {:induction false} PlaceKeeps<T>(x: T, ys: seq<T>, le: (T, T) -> bool)
    ensures multiset(Place(x, ys, le)) == multiset{x} + multiset(ys)
  {
    if ys != [] && !le(x, ys[0]) {
      PlaceKeeps(x, ys[1..], le);
      assert ys == [ys[0]] + ys[1..];
    }
  }

  lemma {:induction false} SortedKeeps<T>(xs: seq<T>, le: (T, T) -> bool)
    ensures multiset(Sorted(xs, le)) == multiset(xs)
  {
    if xs != [] {
      SortedKeeps(xs[1..], le);
      PlaceKeeps(xs[0], Sorted(xs[1..], le), le);
      assert xs == [xs[0]] + xs[1..];
    }
  }

  lemma {:induction false} PlaceAscends<T(!new)>(x: T, ys: seq<T>, le: (T, T) -> bool)
    requires Total(le) && Transitive(le) && Ascending(ys, le)
    ensures Ascending(Place(x, ys, le), le)
  {
    if ys != [] && !le(x, ys[0]) {
      PlaceAscends(x, ys[1..], le);
      PlaceKeeps(x, ys[1..], le);
      var r := Place(x, ys[1..], le);
      forall i | 0 <= i < |r| ensures le(ys[0], r[i]) {
        assert r[i] in multiset(r);
        assert r[i] == x || r[i] in ys[1..];
      }
    }
  }

  lemma {:induction false} SortedAscends<T(!new)>(xs: seq<T>, le: (T, T) -> bool)
    requires Total(le) && Transitive(le)
    ensures Ascending(Sorted(xs, le), le)
  {
    if xs != [] {
      SortedAscends(xs[1..], le);
      PlaceAscends(xs[0], Sorted(xs[1..], le), le);
    }
  }

  /** Sorting what is already sorted leaves it alone. */
  lemma {:induction false} SortedStays<T>(xs: seq<T>, le: (T, T) -> bool)
    requires Ascending(xs, le)
    ensures Sorted(xs, le) == xs
  {
    if xs != [] {
      SortedStays(xs[1..], le);
      assert xs == [xs[0]] + xs[1..];
      assert xs[1..] != [] ==> le(xs[0], xs[1]) && xs[1..][0] == xs[1];
    }
  }

  lemma SortedSize<T>(xs: seq<T>, le: (T, T) -> bool)
    ensures |Sorted(xs, le)| == |xs|
  {
    SortedKeeps(xs, le);
    assert |multiset(Sorted(xs, le))| == |multiset(xs)|;
  }

  lemma SameMembers<T>(a: seq<T>, b: seq<T>)
    requires multiset(a) == multiset(b)
    ensures forall x :: x in a <==> x in b
  {
    assert forall x :: x in a <==> x in multiset(a);
    assert forall x :: x in b <==> x in multiset(b);
  }

  predicate Distinct<T(==)>(xs: seq<T>) {
    forall i, j :: 0 <= i < j < |xs| ==> xs[i] != xs[j]
  }

  lemma SortedDistinct<T>(xs: seq<T>, le: (T, T) -> bool)
    requires Distinct(xs)
    ensures Distinct(Sorted(xs, le))
  {
    SortedKeeps(xs, le);
    DistinctMultiset(xs);
    MultisetDistinct(Sorted(xs, le));
  }

  lemma {:induction false} DistinctMultiset<T>(xs: seq<T>)
    requires Distinct(xs)
    ensures forall x :: multiset(xs)[x] <= 1
  {
    if xs != [] {
      assert xs == [xs[0]] + xs[1..];
      DistinctMultiset(xs[1..]);
      assert xs[0] !in xs[1..];
    }
  }

  lemma MultisetDistinct<T>(ys: seq<T>)
    requires forall x :: multiset(ys)[x] <= 1
    ensures Distinct(ys)
  {
    forall i, j | 0 <= i < j < |ys| ensures ys[i] != ys[j] {
      var front := ys[..j];
      assert ys == front + [ys[j]] + ys[j + 1..];
      assert front[i] in multiset(front);
      assert multiset(ys)[ys[j]] == multiset(front)[ys[j]] + 1 + multiset(ys[j + 1..])[ys[j]];
    }
  }

  // ---- sets of members -----------------------------------------------------

  function Entries<T(==)>(xs: seq<T>): set<T> {
    set x | x in xs
  }

  lemma {:induction false} DistinctSize<T>(xs: seq<T>)
    requires Distinct(xs)
    ensures |Entries(xs)| == |xs|
  {
    if xs != [] {
      var front, last := xs[..|xs| - 1], xs[|xs| - 1];
      DistinctSize(front);
      assert xs == front + [last];
      assert Entries(xs) == Entries(front) + {last} && last !in front;
    }
  }

  lemma SmallerSet<T>(a: set<T>, b: set<T>)
    requires a <= b
    ensures |a| <= |b| && (|a| == |b| ==> a == b)
  {
    assert |b - a| == |b| - |a|;
  }

  // ---- linear orders ---------------------------------------------------------

  predicate Lex<T(==)>(a: seq<T>, b: seq<T>, le: (T, T) -> bool) {
    a == [] || (b != [] && if a[0] == b[0] then Lex(a[1..], b[1..], le) else le(a[0], b[0]))
  }

  lemma {:induction false} LexTotal<T(!new)>(a: seq<T>, b: seq<T>, le: (T, T) -> bool)
    requires Linear(le)
    ensures Lex(a, b, le) || Lex(b, a, le)
  {
    if a != [] && b != [] && a[0] == b[0] { LexTotal(a[1..], b[1..], le); }
  }

  lemma {:induction false} LexAntisymmetric<T(!new)>(a: seq<T>, b: seq<T>, le: (T, T) -> bool)
    requires Linear(le) && Lex(a, b, le) && Lex(b, a, le)
    ensures a == b
  {
    if a != [] {
      assert a[0] == b[0];
      LexAntisymmetric(a[1..], b[1..], le);
      assert a == [a[0]] + a[1..] && b == [b[0]] + b[1..];
    }
  }

  lemma {:induction false} LexTransitive<T(!new)>(a: seq<T>, b: seq<T>, d: seq<T>, le: (T, T) -> bool)
    requires Linear(le) && Lex(a, b, le) && Lex(b, d, le)
    ensures Lex(a, d, le)
  {
    if a != [] && a[0] == b[0] && b[0] == d[0] { LexTransitive(a[1..], b[1..], d[1..], le); }
  }

  /** Two sequences first differ at `k`. */
  ghost predicate DifferAt<T>(a: seq<T>, b: seq<T>, k: nat) {
    k < |a| && k < |b| && a[..k] == b[..k] && a[k] != b[k]
  }

  /** One sequence comes before another when it is its beginning, or where they first differ
      has the smaller element. */
  lemma {:induction false} LexIs<T>(a: seq<T>, b: seq<T>, le: (T, T) -> bool)
    ensures Lex(a, b, le) <==> a <= b || exists k: nat :: DifferAt(a, b, k) && le(a[k], b[k])
  {
    if a != [] && b != [] {
      if a[0] == b[0] {
        LexIs(a[1..], b[1..], le);
        FirstSame(a, b);
      } else {
        assert a[..0] == b[..0] && DifferAt(a, b, 0);
        forall k: nat | DifferAt(a, b, k) ensures k == 0 {
          if k > 0 { LaterSame(a, b, k); }
        }
      }
    }
  }

  lemma LaterSame<T>(a: seq<T>, b: seq<T>, k: nat)
    requires DifferAt(a, b, k) && k > 0
    ensures a[0] == b[0]
  {
    assert a[..k][0] == a[0] && b[..k][0] == b[0];
  }

  lemma FirstSame<T>(a: seq<T>, b: seq<T>)
    requires a != [] && b != [] && a[0] == b[0]
    ensures a <= b <==> a[1..] <= b[1..]
    ensures forall k: nat :: DifferAt(a, b, k) ==> k > 0 && DifferAt(a[1..], b[1..], k - 1)
    ensures forall k: nat :: DifferAt(a[1..], b[1..], k) ==> DifferAt(a, b, k + 1)
  {
    assert a == [a[0]] + a[1..] && b == [b[0]] + b[1..];
    forall k: nat | DifferAt(a, b, k) ensures k > 0 && DifferAt(a[1..], b[1..], k - 1) {
      assert a[1..][..k - 1] == a[..k][1..] && b[1..][..k - 1] == b[..k][1..];
    }
    forall k: nat | DifferAt(a[1..], b[1..], k) ensures DifferAt(a, b, k + 1) {
      assert a[..k + 1] == [a[0]] + a[1..][..k] && b[..k + 1] == [b[0]] + b[1..][..k];
    }
  }

  /** Strings are ordered as in a dictionary. */
  lemma StringLeIs(a: string, b: string)
    ensures StringLe(a, b) <==> a <= b || exists k: nat :: DifferAt(a, b, k) && a[k] < b[k]
  {
    LexIs(a, b, CharLe);
    forall k: nat | DifferAt(a, b, k) ensures CharLe(a[k], b[k]) <==> a[k] < b[k] { }
  }

  predicate CharLe(x: char, y: char) { x <= y }

  predicate StringLe(a: string, b: string) { Lex(a, b, CharLe) }

  lemma StringLeLinear()
    ensures Linear(StringLe)
  {
    assert Linear(CharLe);
    forall a, b ensures StringLe(a, b) || StringLe(b, a) { LexTotal(a, b, CharLe); }
    forall a, b | StringLe(a, b) && StringLe(b, a) ensures a == b { LexAntisymmetric(a, b, CharLe); }
    forall a, b, d | StringLe(a, b) && StringLe(b, d) ensures StringLe(a, d) { LexTransitive(a, b, d, CharLe); }
  }

  predicate PathLe(a: seq<string>, b: seq<string>) { Lex(a, b, StringLe) }

  lemma PathLeLinear()
    ensures Linear(PathLe)
  {
    StringLeLinear();
    forall a, b ensures PathLe(a, b) || PathLe(b, a) { LexTotal(a, b, StringLe); }
    forall a, b | PathLe(a, b) && PathLe(b, a) ensures a == b { LexAntisymmetric(a, b, StringLe); }
    forall a, b, d | PathLe(a, b) && PathLe(b, d) ensures PathLe(a, d) { LexTransitive(a, b, d, StringLe); }
  }
}
