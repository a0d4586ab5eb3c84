/** The nodes of the view of src/mesh/org.py, `to_view`: who is listed in which. */
module OrgPlaces {
  import opened Sequences
  import opened Schemas
  import opened Ordering
  import opened Org
  import opened OrgDescendants
  import opened OrgView

  function PairsOf(unit: string, ids: seq<string>): seq<(string, string)> {
    seq(|ids|, i requires 0 <= i < |ids| => (unit, ids[i]))
  }

  /** Everybody listed in a node, each with the unit of the node. */
  function Places(vs: seq<UnitView>): seq<(string, string)> {
    if vs == [] then [] else PairsOf(vs[0].id, vs[0].memberIds) + Places(vs[0].children) + Places(vs[1..])
  }

  /** All `memberIds` of these trees. */
  function AllIds(vs: seq<UnitView>): seq<string> {
    if vs == [] then [] else vs[0].memberIds + AllIds(vs[0].children) + AllIds(vs[1..])
  }

  /** The members, each with the unit of the placement. */
  function UnitAndId(members: seq<MemberView>): seq<(string, string)> {
    seq(|members|, i requires 0 <= i < |members| => (members[i].unit, members[i].id))
  }

  lemma {:induction false} PlacesHoldIds(vs: seq<UnitView>)
    ensures AllIds(vs) == Seconds(Places(vs))
  {
    if vs != [] {
      PlacesHoldIds(vs[0].children);
      PlacesHoldIds(vs[1..]);
      assert Seconds(PairsOf(vs[0].id, vs[0].memberIds)) == vs[0].memberIds;
    }
  }

  lemma {:induction false} PairsCount(unit: string, ids: seq<string>, p: (string, string))
    ensures multiset(PairsOf(unit, ids))[p] == if p.0 == unit then multiset(ids)[p.1] else 0
  {
    if ids != [] {
      var front, last := ids[..|ids| - 1], ids[|ids| - 1];
      PairsCount(unit, front, p);
      assert ids == front + [last] && PairsOf(unit, ids) == PairsOf(unit, front) + [(unit, last)];
    }
  }

  lemma {:induction false} SecondsPlaced(x: (int, string), ys: seq<(int, string)>)
    ensures multiset(Seconds(Place(x, ys, SeatLe))) == multiset{x.1} + multiset(Seconds(ys))
  {
    if ys == [] || SeatLe(x, ys[0]) {
      assert Seconds(Place(x, ys, SeatLe)) == [x.1] + Seconds(ys);
    } else {
      SecondsPlaced(x, ys[1..]);
      assert Seconds(ys) == [ys[0].1] + Seconds(ys[1..]);
      assert Seconds(Place(x, ys, SeatLe)) == [ys[0].1] + Seconds(Place(x, ys[1..], SeatLe));
    }
  }

  lemma {:induction false} SecondsSorted(xs: seq<(int, string)>)
    ensures multiset(Seconds(Sorted(xs, SeatLe))) == multiset(Seconds(xs))
  {
    if xs != [] {
      SecondsSorted(xs[1..]);
      SecondsPlaced(xs[0], Sorted(xs[1..], SeatLe));
      assert Seconds(xs) == [xs[0].1] + Seconds(xs[1..]);
    }
  }

  lemma {:induction false} BucketCount(members: seq<MemberView>, unit: string, id: string)
    ensures multiset(Seconds(Bucket(members, unit)))[id] == multiset(UnitAndId(members))[(unit, id)]
  {
    if members != [] {
      var front, m := members[..|members| - 1], members[|members| - 1];
      BucketCount(front, unit, id);
      assert UnitAndId(members) == UnitAndId(front) + [(m.unit, m.id)];
      if m.unit == unit {
        assert Seconds(Bucket(members, unit)) == Seconds(Bucket(front, unit)) + [m.id];
      } else {
        assert Bucket(members, unit) == Bucket(front, unit);
      }
    }
  }

  /** What a node lists are the members of its unit. */
  lemma NodeCount(members: seq<MemberView>, unit: string, p: (string, string))
    ensures Times(PairsOf(unit, OwnIds(SortAll(BucketsOf(members)), unit)), p)
         == Scaled(One(unit == p.0), Times(UnitAndId(members), p))
  {
    ScaledOne(Times(UnitAndId(members), p));
    OwnIdsAre(members, unit);
    SecondsSorted(Bucket(members, unit));
    BucketCount(members, unit, p.1);
    PairsCount(unit, OwnIds(SortAll(BucketsOf(members)), unit), p);
  }

  /** `n` times `k` */
  function Scaled(n: nat, k: nat): nat {
    if n == 0 then 0 else k + Scaled(n - 1, k)
  }

  lemma {:induction false} ScaledSum(a: nat, b: nat, k: nat)
    ensures Scaled(a + b, k) == Scaled(a, k) + Scaled(b, k)
  {
    if a > 0 { ScaledSum(a - 1, b, k); }
  }

  lemma ScaledOne(k: nat)
    ensures Scaled(1, k) == k
  {
    assert Scaled(0, k) == 0;
  }

  lemma {:induction false} ScaledZero(n: nat)
    ensures Scaled(n, 0) == 0
  {
    if n > 0 { ScaledZero(n - 1); }
  }

  function Times(pairs: seq<(string, string)>, p: (string, string)): nat {
    multiset(pairs)[p]
  }

  lemma TimesConcat(a: seq<(string, string)>, b: seq<(string, string)>, p: (string, string))
    ensures Times(a + b, p) == Times(a, p) + Times(b, p)
  {
  }

  /** How often a pair stands in these trees. */
  function Placed(vs: seq<UnitView>, p: (string, string)): nat {
    if vs == [] then 0
    else Times(PairsOf(vs[0].id, vs[0].memberIds), p) + Placed(vs[0].children, p) + Placed(vs[1..], p)
  }

  lemma {:induction false} PlacedIsTimes(vs: seq<UnitView>, p: (string, string))
    ensures Placed(vs, p) == Times(Places(vs), p)
  {
    if vs != [] {
      var own, below, beside := PairsOf(vs[0].id, vs[0].memberIds), Places(vs[0].children), Places(vs[1..]);
      PlacedIsTimes(vs[0].children, p);
      PlacedIsTimes(vs[1..], p);
      assert Places(vs) == own + below + beside;
      TimesConcat(own + below, beside, p);
      TimesConcat(own, below, p);
    }
  }

  /** A member is listed as often as the unit is drawn. */
  ghost predicate ListedAsDrawn(vs: seq<UnitView>, k: nat, p: (string, string)) {
    Placed(vs, p) == Scaled(DrawnIn(vs, p.0), k)
  }

  lemma {:induction false} HeadListed(vs: seq<UnitView>, k: nat, p: (string, string))
    requires vs != [] && ListedAsDrawn(vs[0].children, k, p) && ListedAsDrawn(vs[1..], k, p)
    requires Times(PairsOf(vs[0].id, vs[0].memberIds), p) == Scaled(One(vs[0].id == p.0), k)
    ensures ListedAsDrawn(vs, k, p)
  {
    ScaledThree(One(vs[0].id == p.0), DrawnIn(vs[0].children, p.0), DrawnIn(vs[1..], p.0), k);
  }

  lemma {:induction false} ScaledThree(a: nat, b: nat, d: nat, k: nat)
    ensures Scaled(a + b + d, k) == Scaled(a, k) + Scaled(b, k) + Scaled(d, k)
  {
    ScaledSum(a + b, d, k);
    ScaledSum(a, b, k);
  }

  /** On any chart. */
  lemma {:induction false} PlacesCount(c: Chart, members: seq<MemberView>, us: seq<Unit>, depth: nat, n: nat, p: (string, string))
    ensures ListedAsDrawn(BuildAll(c, SortAll(BucketsOf(members)), us, depth, n), Times(UnitAndId(members), p), p)
    decreases n, |us|
  {
    if us != [] {
      var b, k := SortAll(BucketsOf(members)), Times(UnitAndId(members), p);
      var v, vs := Build(c, b, us[0], depth, n), BuildAll(c, b, us[1..], depth, n);
      PlacesCount(c, members, us[1..], depth, n, p);
      if n > 0 { PlacesCount(c, members, ChildrenOf(c.units, Some(us[0].id)), depth + 1, n - 1, p); }
      assert ListedAsDrawn(v.children, k, p);
      NodeCount(members, us[0].id, p);
      assert ([v] + vs)[1..] == vs;
      HeadListed([v] + vs, k, p);
    }
  }

  lemma {:induction false} AllListed(vs: seq<UnitView>, pairs: seq<(string, string)>)
    requires forall p :: ListedAsDrawn(vs, Times(pairs, p), p)
    requires forall p :: p in pairs ==> DrawnIn(vs, p.0) == 1
    ensures multiset(Places(vs)) == multiset(pairs)
  {
    forall p ensures multiset(Places(vs))[p] == multiset(pairs)[p] {
      assert ListedAsDrawn(vs, Times(pairs, p), p);
      PlacedIsTimes(vs, p);
      if p in pairs {
        ScaledOne(Times(pairs, p));
      } else {
        assert Times(pairs, p) == 0;
        ScaledZero(DrawnIn(vs, p.0));
      }
    }
  }

  lemma RootsListed(c: Chart, people: seq<Person>)
    ensures forall p :: ListedAsDrawn(ViewOf(c, people).roots, Times(UnitAndId(Members(c, people)), p), p)
  {
    forall p ensures ListedAsDrawn(ViewOf(c, people).roots, Times(UnitAndId(Members(c, people)), p), p) {
      PlacesCount(c, Members(c, people), ChildrenOf(c.units, None), 0, LAYERS, p);
    }
  }

  lemma AllDrawn(c: Chart, people: seq<Person>)
    requires Valid(c) && NoBlankParent(c)
    ensures forall p :: p in UnitAndId(Members(c, people)) ==> DrawnIn(ViewOf(c, people).roots, p.0) == 1
  {
    ViewConserves(c, people);
    forall p | p in UnitAndId(Members(c, people)) ensures DrawnIn(ViewOf(c, people).roots, p.0) == 1 {
      PairIsDrawn(c, people, p);
    }
  }

  lemma IdsAlike(vs: seq<UnitView>, members: seq<MemberView>)
    requires multiset(Places(vs)) == multiset(UnitAndId(members))
    ensures multiset(AllIds(vs)) == multiset(IdsOfMembers(members))
  {
    PlacesHoldIds(vs);
    IdsOfSame(Places(vs), UnitAndId(members));
    assert Seconds(UnitAndId(members)) == IdsOfMembers(members);
  }

  /** In the view of an accepted chart every member stands in exactly one node, that of the
      member's own unit, and nobody else stands in any. */
  lemma MembersPlacedOnce(c: Chart, people: seq<Person>)
    requires Valid(c) && NoBlankParent(c)
    ensures multiset(Places(ViewOf(c, people).roots)) == multiset(UnitAndId(Members(c, people)))
    ensures multiset(AllIds(ViewOf(c, people).roots)) == multiset(IdsOfMembers(Members(c, people)))
  {
    RootsListed(c, people);
    AllDrawn(c, people);
    AllListed(ViewOf(c, people).roots, UnitAndId(Members(c, people)));
    IdsAlike(ViewOf(c, people).roots, Members(c, people));
  }

  lemma PairIsDrawn(c: Chart, people: seq<Person>, p: (string, string))
    requires p in UnitAndId(Members(c, people))
    ensures exists w :: w in c.units && w.id == p.0
  {
    var members := Members(c, people);
    var i :| 0 <= i < |members| && UnitAndId(members)[i] == p;
    SeatsListed(c, people);
    assert members[i] in members;
  }

  lemma WithoutOne(b: seq<(string, string)>, i: nat)
    requires i < |b|
    ensures multiset(b) == multiset{b[i]} + multiset(b[..i] + b[i + 1..])
    ensures multiset(Seconds(b)) == multiset{b[i].1} + multiset(Seconds(b[..i] + b[i + 1..]))
  {
    var x, y := b[..i], b[i + 1..];
    assert b == x + [b[i]] + y;
    assert Seconds(b) == Seconds(x) + [b[i].1] + Seconds(y) && Seconds(x + y) == Seconds(x) + Seconds(y);
  }

  lemma Cancel<T>(x: T, m: multiset<T>, n: multiset<T>)
    requires multiset{x} + m == multiset{x} + n
    ensures m == n
  {
    forall y ensures m[y] == n[y] { assert (multiset{x} + m)[y] == (multiset{x} + n)[y]; }
  }

  lemma MatchOne(a: seq<(string, string)>, b: seq<(string, string)>) returns (i: nat)
    requires a != [] && multiset(a) == multiset(b)
    ensures i < |b| && b[i] == a[0] && multiset(a[1..]) == multiset(b[..i] + b[i + 1..])
  {
    assert a[0] in multiset(b);
    i :| i < |b| && b[i] == a[0];
    WithoutOne(a, 0);
    WithoutOne(b, i);
    assert a[..0] + a[1..] == a[1..];
    Cancel(a[0], multiset(a[1..]), multiset(b[..i] + b[i + 1..]));
  }

  lemma {:induction false} IdsOfSame(a: seq<(string, string)>, b: seq<(string, string)>)
    requires multiset(a) == multiset(b)
    ensures multiset(Seconds(a)) == multiset(Seconds(b))
  {
    if a == [] {
      assert |multiset(b)| == |b|;
    } else {
      var i := MatchOne(a, b);
      IdsOfSame(a[1..], b[..i] + b[i + 1..]);
      WithoutOne(b, i);
      assert Seconds(a) == [a[0].1] + Seconds(a[1..]);
    }
  }
}
