/** src/mesh/org.py, `to_view`: people are put into buckets per unit and the tree of
    units is built over the buckets. */
module OrgView {
  import opened Sequences
  import opened Schemas
  import opened Ordering
  import opened Org
  import opened OrgDescendants

  datatype Placement = Placement(unit: string, rank: string)
  datatype Person = Person(id: string, place: Placement)

  datatype UnitView = UnitView(id: string, name: string, depth: nat, children: seq<UnitView>,
                               memberIds: seq<string>, total: nat)
  datatype MemberView = MemberView(id: string, unit: string, order: int, path: seq<string>)
  datatype ChartView = ChartView(roots: seq<UnitView>, members: seq<MemberView>, unplaced: seq<string>)

  type Buckets = map<string, seq<(int, string)>>

  /** The last rank of an id counts. */
  function FindRank(ranks: seq<Rank>, id: string): Option<Rank> {
    if ranks == [] then None
    else if ranks[|ranks| - 1].id == id then Some(ranks[|ranks| - 1])
    else FindRank(ranks[..|ranks| - 1], id)
  }

  /** A person has a seat if both the unit and the rank of the placement exist. */
  predicate Seated(c: Chart, p: Person) {
    Find(c, p.place.unit).Some? && FindRank(c.ranks, p.place.rank).Some?
  }

  function Names(units: seq<Unit>): seq<string> {
    seq(|units|, i requires 0 <= i < |units| => units[i].name)
  }

  function MemberOf(c: Chart, p: Person): MemberView
    requires Seated(c, p)
  {
    var unit := Find(c, p.place.unit).value;
    MemberView(p.id, unit.id, FindRank(c.ranks, p.place.rank).value.order, Names(Ancestors(c, unit.id)))
  }

  function Members(c: Chart, people: seq<Person>): seq<MemberView> {
    if people == [] then []
    else Members(c, people[..|people| - 1])
         + if Seated(c, people[|people| - 1]) then [MemberOf(c, people[|people| - 1])] else []
  }

  function Unplaced(c: Chart, people: seq<Person>): seq<string> {
    if people == [] then []
    else Unplaced(c, people[..|people| - 1])
         + if Seated(c, people[|people| - 1]) then [] else [people[|people| - 1].id]
  }

  /** Who sits in a unit, in the order of the placements. */
  function Bucket(members: seq<MemberView>, unit: string): seq<(int, string)> {
    if members == [] then []
    else Bucket(members[..|members| - 1], unit)
         + var m := members[|members| - 1]; if m.unit == unit then [(m.order, m.id)] else []
  }

  predicate SeatLe(a: (int, string), b: (int, string)) {
    if a.0 == b.0 then StringLe(a.1, b.1) else a.0 < b.0
  }

  predicate MemberLe(a: MemberView, b: MemberView) {
    if a.path == b.path then SeatLe((a.order, a.id), (b.order, b.id)) else PathLe(a.path, b.path)
  }

  lemma OrdersAgree()
    ensures Total(SeatLe) && Transitive(SeatLe) && Total(MemberLe) && Transitive(MemberLe)
  {
    StringLeLinear();
    PathLeLinear();
    assert Transitive(SeatLe);
    forall a, b, d | MemberLe(a, b) && MemberLe(b, d) ensures MemberLe(a, d) {
      assert PathLe(a.path, b.path) || a.path == b.path;
      assert PathLe(a.path, b.path) && PathLe(b.path, a.path) ==> a.path == b.path;
    }
  }

  function OwnIds(buckets: Buckets, unit: string): seq<string> {
    if unit in buckets then Seconds(buckets[unit]) else []
  }

  // ---- building ----------------------------------------------------------

  /** An accepted chart has at most eight layers on either side of a blank parent. */
  const LAYERS: nat := 2 * MAX_DEPTH

  function Totals(views: seq<UnitView>): nat {
    if views == [] then 0 else views[0].total + Totals(views[1..])
  }

  function Build(c: Chart, buckets: Buckets, u: Unit, depth: nat, n: nat): UnitView
    decreases n, 0, 0
  {
    var children := if n == 0 then [] else BuildAll(c, buckets, ChildrenOf(c.units, Some(u.id)), depth + 1, n - 1);
    var own := OwnIds(buckets, u.id);
    UnitView(u.id, u.name, depth, children, own, |own| + Totals(children))
  }

  function BuildAll(c: Chart, buckets: Buckets, us: seq<Unit>, depth: nat, n: nat): seq<UnitView>
    decreases n, 1, |us|
  {
    if us == [] then [] else [Build(c, buckets, us[0], depth, n)] + BuildAll(c, buckets, us[1..], depth, n)
  }

  function Filled(b: Buckets, m: MemberView): Buckets {
    b[m.unit := (if m.unit in b then b[m.unit] else []) + [(m.order, m.id)]]
  }

  function BucketsOf(members: seq<MemberView>): Buckets {
    if members == [] then map[] else Filled(BucketsOf(members[..|members| - 1]), members[|members| - 1])
  }

  function SortAll(b: Buckets): Buckets {
    map k | k in b :: Sorted(b[k], SeatLe)
  }

  /** The recursive part, once the buckets are filled. */
  function Assemble(c: Chart, b: Buckets, members: seq<MemberView>, unplaced: seq<string>): ChartView {
    ChartView(BuildAll(c, SortAll(b), ChildrenOf(c.units, None), 0, LAYERS),
              Sorted(members, MemberLe), Sorted(unplaced, StringLe))
  }

  function ViewOf(c: Chart, people: seq<Person>): ChartView {
    Assemble(c, BucketsOf(Members(c, people)), Members(c, people), Unplaced(c, people))
  }

  method ToView(c: Chart, people: seq<Person>) returns (r: ChartView)
    ensures r == ViewOf(c, people)
  {
    var byUnit: Buckets := map[];
    var members: seq<MemberView> := [];
    var unplaced: seq<string> := [];
    for i := 0 to |people|
      invariant members == Members(c, people[..i]) && unplaced == Unplaced(c, people[..i])
      invariant byUnit == BucketsOf(members)
    {
      assert people[..i + 1][..i] == people[..i];
      var unit, rank := Find(c, people[i].place.unit), FindRank(c.ranks, people[i].place.rank);
      if unit.None? || rank.None? {
        unplaced := unplaced + [people[i].id];
        continue;
      }
      var m := MemberView(people[i].id, unit.value.id, rank.value.order, Names(Ancestors(c, unit.value.id)));
      assert (members + [m])[..|members|] == members;
      byUnit := Filled(byUnit, m);
      members := members + [m];
    }
    assert people[..|people|] == people;
    r := Assemble(c, byUnit, members, unplaced);
  }

  // ---- who is in which node ----------------------------------------------

  lemma {:induction false} BucketsAre(members: seq<MemberView>, unit: string)
    ensures Bucket(members, unit) == if unit in BucketsOf(members) then BucketsOf(members)[unit] else []
  {
    if members != [] { BucketsAre(members[..|members| - 1], unit); }
  }

  /** A node lists exactly the members of its unit, by rank and then by id. */
  lemma OwnIdsAre(members: seq<MemberView>, unit: string)
    ensures OwnIds(SortAll(BucketsOf(members)), unit) == Seconds(Sorted(Bucket(members, unit), SeatLe))
    ensures Ascending(Sorted(Bucket(members, unit), SeatLe), SeatLe)
    ensures forall i, j :: 0 <= i < j < |Sorted(Bucket(members, unit), SeatLe)| ==>
      SitsBefore(Sorted(Bucket(members, unit), SeatLe)[i], Sorted(Bucket(members, unit), SeatLe)[j])
    ensures multiset(Sorted(Bucket(members, unit), SeatLe)) == multiset(Bucket(members, unit))
  {
    BucketsAre(members, unit);
    OrdersAgree();
    SortedAscends(Bucket(members, unit), SeatLe);
    SortedKeeps(Bucket(members, unit), SeatLe);
    var seats := Sorted(Bucket(members, unit), SeatLe);
    forall i, j | 0 <= i < j < |seats| ensures SitsBefore(seats[i], seats[j]) {
      assert SeatLe(seats[i], seats[j]);
    }
  }

  /** The lower rank number first, ids in order among equals. */
  ghost predicate SitsBefore(a: (int, string), b: (int, string)) {
    a.0 < b.0 || (a.0 == b.0 && StringLe(a.1, b.1))
  }

  /** The units of the members, one entry per member. */
  function Seats(members: seq<MemberView>): seq<string> {
    seq(|members|, i requires 0 <= i < |members| => members[i].unit)
  }

  function CountOf(xs: seq<string>, x: string): nat {
    if xs == [] then 0 else CountOf(xs[..|xs| - 1], x) + One(xs[|xs| - 1] == x)
  }

  lemma {:induction false} BucketSize(members: seq<MemberView>, unit: string)
    ensures |Bucket(members, unit)| == CountOf(Seats(members), unit)
  {
    if members != [] {
      var front := members[..|members| - 1];
      BucketSize(front, unit);
      assert Seats(members)[..|members| - 1] == Seats(front);
    }
  }

  lemma OwnSize(members: seq<MemberView>, unit: string)
    ensures |OwnIds(SortAll(BucketsOf(members)), unit)| == CountOf(Seats(members), unit)
  {
    OwnIdsAre(members, unit);
    BucketSize(members, unit);
    assert |Sorted(Bucket(members, unit), SeatLe)| == |multiset(Bucket(members, unit))|;
  }

  /** How often a unit is drawn. */
  function Drawn(v: UnitView, id: string): nat {
    One(v.id == id) + DrawnIn(v.children, id)
  }

  function DrawnIn(vs: seq<UnitView>, id: string): nat {
    if vs == [] then 0 else Drawn(vs[0], id) + DrawnIn(vs[1..], id)
  }

  /** How many of the seats belong to nodes of these trees. */
  function SeatsIn(vs: seq<UnitView>, seats: seq<string>): nat {
    if seats == [] then 0 else SeatsIn(vs, seats[..|seats| - 1]) + DrawnIn(vs, seats[|seats| - 1])
  }

  lemma {:induction false} SeatsSplit(v: UnitView, vs: seq<UnitView>, seats: seq<string>)
    ensures SeatsIn([v] + vs, seats) == CountOf(seats, v.id) + SeatsIn(v.children, seats) + SeatsIn(vs, seats)
  {
    if seats != [] {
      var x := seats[|seats| - 1];
      SeatsSplit(v, vs, seats[..|seats| - 1]);
      assert ([v] + vs)[0] == v && ([v] + vs)[1..] == vs;
      assert DrawnIn([v] + vs, x) == Drawn(v, x) + DrawnIn(vs, x);
    }
  }

  lemma {:induction false} SeatsNone(seats: seq<string>)
    ensures SeatsIn([], seats) == 0
  {
    if seats != [] { SeatsNone(seats[..|seats| - 1]); }
  }

  /** On any chart, the totals of built trees add up to the members they draw. */
  lemma {:induction false} TotalsAre(c: Chart, members: seq<MemberView>, us: seq<Unit>, depth: nat, n: nat)
    ensures var vs := BuildAll(c, SortAll(BucketsOf(members)), us, depth, n);
      Totals(vs) == SeatsIn(vs, Seats(members))
    decreases n, |us|
  {
    var b, seats := SortAll(BucketsOf(members)), Seats(members);
    if us == [] {
      SeatsNone(seats);
    } else {
      var v, vs := Build(c, b, us[0], depth, n), BuildAll(c, b, us[1..], depth, n);
      TotalsAre(c, members, us[1..], depth, n);
      if n > 0 {
        TotalsAre(c, members, ChildrenOf(c.units, Some(us[0].id)), depth + 1, n - 1);
      } else {
        SeatsNone(seats);
      }
      OwnSize(members, us[0].id);
      SeatsSplit(v, vs, seats);
    }
  }

  // ---- every unit once, at its depth -------------------------------------

  ghost predicate NoBlankParent(c: Chart) {
    forall u :: u in c.units ==> u.parent != Some("")
  }

  function HowMany(us: seq<Unit>, path: seq<Unit>): nat {
    if us == [] then 0 else One(us[0] in path) + HowMany(us[1..], path)
  }

  lemma {:induction false} ChildrenDistinct(units: seq<Unit>, parent: Option<string>)
    requires DistinctIds(units)
    ensures DistinctIds(ChildrenOf(units, parent))
  {
    if units != [] {
      ChildrenDistinct(units[1..], parent);
      ChildrenAre(units[1..], parent);
      var more := ChildrenOf(units[1..], parent);
      forall v | v in more ensures v.id != units[0].id {
        assert v in units[1..];
      }
    }
  }

  lemma {:induction false} HowManyOne(us: seq<Unit>, path: seq<Unit>, v: Unit)
    requires DistinctIds(us) && forall u :: u in us && u in path ==> u == v
    ensures HowMany(us, path) == One(v in us && v in path)
  {
    if us != [] {
      HowManyOne(us[1..], path, v);
      assert us == [us[0]] + us[1..];
      if us[0] == v { assert v !in us[1..]; }
    }
  }

  /** On the chain of `w` exactly one unit hangs below each unit but the last. */
  lemma ChildOnPath(c: Chart, u: Unit, w: Unit)
    requires Valid(c) && NoBlankParent(c) && u in c.units && w in c.units
    ensures HowMany(ChildrenOf(c.units, Some(u.id)), Path(c, w)) == One(u in Path(c, w) && u != w)
  {
    var us, path := ChildrenOf(c.units, Some(u.id)), Path(c, w);
    ChildrenAre(c.units, Some(u.id));
    ChildrenDistinct(c.units, Some(u.id));
    assert Shallow(c, w);
    PathIsChain(c, w, MAX_DEPTH);
    if j: nat :| j < |path| - 1 && path[j] == u {
      NextOnPath(c, u, w, j);
      HowManyOne(us, path, path[j + 1]);
      if u == w { PlaceOnPath(c, w, j, w, |path| - 1); }
    } else {
      forall v | v in us ensures v !in path { NotBelow(c, u, w, v); }
      HowManyOne(us, path, w);
      if w in us { NotBelow(c, u, w, w); }
    }
  }

  lemma NextOnPath(c: Chart, u: Unit, w: Unit, j: nat)
    requires Valid(c) && NoBlankParent(c) && u in c.units && w in c.units
    requires j < |Path(c, w)| - 1 && Path(c, w)[j] == u
    ensures Path(c, w)[j + 1] in ChildrenOf(c.units, Some(u.id))
    ensures forall v :: v in ChildrenOf(c.units, Some(u.id)) && v in Path(c, w) ==> v == Path(c, w)[j + 1]
  {
    var path := Path(c, w);
    assert Shallow(c, w);
    PathIsChain(c, w, MAX_DEPTH);
    PathListed(c, w, MAX_DEPTH);
    ChildrenAre(c.units, Some(u.id));
    ParentListed(c, path[j + 1]);
    forall v | v in ChildrenOf(c.units, Some(u.id)) && v in path ensures v == path[j + 1] {
      var i: nat :| i < |path| && path[i] == v;
      ParentFound(c, v);
      SameId(c, ParentOf(c, v).value, u);
      assert i > 0;
      PlaceOnPath(c, w, i - 1, w, j);
    }
  }

  lemma NotBelow(c: Chart, u: Unit, w: Unit, v: Unit)
    requires Valid(c) && NoBlankParent(c) && u in c.units && w in c.units
    requires v in c.units && v.parent == Some(u.id)
    requires forall j: nat :: j < |Path(c, w)| - 1 ==> Path(c, w)[j] != u
    ensures v !in Path(c, w)
  {
    var path := Path(c, w);
    assert Shallow(c, w);
    PathIsChain(c, w, MAX_DEPTH);
    ParentFound(c, v);
    SameId(c, ParentOf(c, v).value, u);
    forall i: nat | i < |path| ensures path[i] != v {
      assert i > 0 ==> ParentOf(c, path[i]) == Some(path[i - 1]) && path[i - 1] != u;
    }
  }

  lemma TopOfPath(c: Chart, w: Unit)
    requires Valid(c) && NoBlankParent(c) && w in c.units
    ensures Path(c, w) != [] && Path(c, w)[0] in c.units && Path(c, w)[0].parent == None
    ensures forall i :: 0 < i < |Path(c, w)| ==> Path(c, w)[i].parent.Some?
  {
    assert Shallow(c, w);
    PathIsChain(c, w, MAX_DEPTH);
    PathListed(c, w, MAX_DEPTH);
    TopOfChain(c, Path(c, w), w);
  }

  lemma TopOfChain(c: Chart, path: seq<Unit>, w: Unit)
    requires Valid(c) && NoBlankParent(c) && IsChain(c, path, w) && forall u :: u in path ==> u in c.units
    ensures path[0] in c.units && path[0].parent == None
    ensures forall i :: 0 < i < |path| ==> path[i].parent.Some?
  {
    assert path[0] in path;
    if path[0].parent.Some? { ParentFound(c, path[0]); }
    forall i | 0 < i < |path| ensures path[i].parent.Some? {
      assert ParentOf(c, path[i]) == Some(path[i - 1]);
    }
  }

  lemma RootOnPath(c: Chart, w: Unit)
    requires Valid(c) && NoBlankParent(c) && w in c.units
    ensures HowMany(ChildrenOf(c.units, None), Path(c, w)) == 1
  {
    var us, path := ChildrenOf(c.units, None), Path(c, w);
    ChildrenAre(c.units, None);
    ChildrenDistinct(c.units, None);
    TopOfPath(c, w);
    assert path[0] in path;
    forall u | u in us && u in path ensures u == path[0] {
      var i: nat :| i < |path| && path[i] == u;
      assert i == 0;
    }
    HowManyOne(us, path, path[0]);
  }

  lemma {:induction false} PathLength(c: Chart, u: Unit, n: nat)
    ensures |PathOf(c, u, n)| <= n
    decreases n
  {
    if n > 0 && ParentOf(c, u).Some? { PathLength(c, ParentOf(c, u).value, n - 1); }
  }

  lemma ChildPath(c: Chart, u: Unit, v: Unit)
    requires Valid(c) && NoBlankParent(c) && u in c.units && v in c.units && v.parent == Some(u.id)
    ensures Path(c, v) == Path(c, u) + [v]
  {
    ParentFound(c, v);
    SameId(c, ParentOf(c, v).value, u);
  }

  /** With enough layers the tree of `u` draws `w` if `u` is on the chain of `w`. */
  lemma {:induction false} DrawnAre(c: Chart, b: Buckets, us: seq<Unit>, depth: nat, n: nat, w: Unit)
    requires Valid(c) && NoBlankParent(c) && w in c.units
    requires forall u :: u in us ==> u in c.units && |Path(c, u)| + n >= MAX_DEPTH
    ensures DrawnIn(BuildAll(c, b, us, depth, n), w.id) == HowMany(us, Path(c, w))
    decreases n, |us|
  {
    if us != [] {
      assert us == [us[0]] + us[1..];
      DrawnAre(c, b, us[1..], depth, n, w);
      DrawnBelow(c, b, us[0], depth, n, w);
    }
  }

  lemma ChildrenFit(c: Chart, u: Unit)
    requires Valid(c) && NoBlankParent(c) && u in c.units
    ensures forall v :: v in ChildrenOf(c.units, Some(u.id)) ==>
      v in c.units && |Path(c, v)| == |Path(c, u)| + 1 <= MAX_DEPTH
    ensures |Path(c, u)| >= MAX_DEPTH ==> ChildrenOf(c.units, Some(u.id)) == []
  {
    var us := ChildrenOf(c.units, Some(u.id));
    ChildrenAre(c.units, Some(u.id));
    forall v | v in us ensures |Path(c, v)| == |Path(c, u)| + 1 <= MAX_DEPTH {
      ChildPath(c, u, v);
      PathLength(c, v, MAX_DEPTH);
    }
    if us != [] { assert us[0] in us; }
  }

  lemma OnOwnPath(c: Chart, w: Unit)
    requires Valid(c) && w in c.units
    ensures w in Path(c, w)
  {
    assert Shallow(c, w);
    PathIsChain(c, w, MAX_DEPTH);
  }

  lemma {:induction false} DrawnBelow(c: Chart, b: Buckets, u: Unit, depth: nat, n: nat, w: Unit)
    requires Valid(c) && NoBlankParent(c) && u in c.units && w in c.units && |Path(c, u)| + n >= MAX_DEPTH
    ensures Drawn(Build(c, b, u, depth, n), w.id) == One(u in Path(c, w))
    decreases n, 0
  {
    var us, path := ChildrenOf(c.units, Some(u.id)), Path(c, w);
    ChildrenFit(c, u);
    if n > 0 { DrawnAre(c, b, us, depth + 1, n - 1, w); }
    assert DrawnIn(Build(c, b, u, depth, n).children, w.id) == HowMany(us, path);
    HereOrBelow(c, u, w);
  }

  lemma HereOrBelow(c: Chart, u: Unit, w: Unit)
    requires Valid(c) && NoBlankParent(c) && u in c.units && w in c.units
    ensures One(u in Path(c, w)) == One(u.id == w.id) + HowMany(ChildrenOf(c.units, Some(u.id)), Path(c, w))
  {
    ChildOnPath(c, u, w);
    OnOwnPath(c, w);
    if u.id == w.id { SameId(c, u, w); }
  }

  /** Every node of these trees stands at the depth of its unit. */
  ghost predicate DepthsRight(c: Chart, vs: seq<UnitView>) {
    vs == [] ||
      (vs[0].depth == DepthOf(c, vs[0].id) && DepthsRight(c, vs[0].children) && DepthsRight(c, vs[1..]))
  }

  lemma {:induction false} DepthsAre(c: Chart, b: Buckets, us: seq<Unit>, depth: nat, n: nat)
    requires Valid(c) && NoBlankParent(c)
    requires forall u :: u in us ==> u in c.units && |Path(c, u)| == depth + 1
    ensures DepthsRight(c, BuildAll(c, b, us, depth, n))
    decreases n, |us|
  {
    if us != [] {
      assert us == [us[0]] + us[1..];
      DepthsAre(c, b, us[1..], depth, n);
      DepthsBelow(c, b, us[0], depth, n);
      HeadRight(c, Build(c, b, us[0], depth, n), BuildAll(c, b, us[1..], depth, n));
    }
  }

  lemma {:induction false} DepthsBelow(c: Chart, b: Buckets, u: Unit, depth: nat, n: nat)
    requires Valid(c) && NoBlankParent(c) && u in c.units && |Path(c, u)| == depth + 1
    ensures Build(c, b, u, depth, n).depth == DepthOf(c, u.id)
    ensures DepthsRight(c, Build(c, b, u, depth, n).children)
    decreases n, 0
  {
    DepthIs(c, u);
    if n > 0 {
      ChildrenFit(c, u);
      DepthsAre(c, b, ChildrenOf(c.units, Some(u.id)), depth + 1, n - 1);
    }
  }

  lemma HeadRight(c: Chart, v: UnitView, vs: seq<UnitView>)
    ensures DepthsRight(c, [v] + vs)
        <==> v.depth == DepthOf(c, v.id) && DepthsRight(c, v.children) && DepthsRight(c, vs)
  {
    assert ([v] + vs)[1..] == vs;
  }

  lemma DepthIs(c: Chart, u: Unit)
    requires Valid(c) && u in c.units
    ensures DepthOf(c, u.id) == |Path(c, u)| - 1
  {
    AncestorsComplete(c, u.id);
    FoundById(c, u);
  }

  lemma RootsFit(c: Chart)
    requires Valid(c)
    ensures forall u :: u in ChildrenOf(c.units, None) ==> u in c.units && |Path(c, u)| == 1
  {
    ChildrenAre(c.units, None);
    forall u | u in ChildrenOf(c.units, None) ensures |Path(c, u)| == 1 {
      assert Shallow(c, u);
      PathStep(c, u);
    }
  }

  /** Seats whose unit is drawn once each add up to their number. */
  lemma {:induction false} SeatsOnce(vs: seq<UnitView>, seats: seq<string>)
    requires forall x :: x in seats ==> DrawnIn(vs, x) == 1
    ensures SeatsIn(vs, seats) == |seats|
  {
    if seats != [] { SeatsOnce(vs, seats[..|seats| - 1]); }
  }

  /** The view of an accepted chart without blank parents draws every unit exactly once,
      at its depth, and its root totals add up to the members. */
  lemma ViewConserves(c: Chart, people: seq<Person>)
    requires Valid(c) && NoBlankParent(c)
    ensures var v := ViewOf(c, people);
      && (forall w :: w in c.units ==> DrawnIn(v.roots, w.id) == 1)
      && DepthsRight(c, v.roots)
      && Totals(v.roots) == |v.members|
  {
    var members := Members(c, people);
    var b, us := SortAll(BucketsOf(members)), ChildrenOf(c.units, None);
    var roots := ViewOf(c, people).roots;
    RootsFit(c);
    DepthsAre(c, b, us, 0, LAYERS);
    forall w | w in c.units ensures DrawnIn(roots, w.id) == 1 {
      DrawnAre(c, b, us, 0, LAYERS, w);
      RootOnPath(c, w);
    }
    TotalsAre(c, members, us, 0, LAYERS);
    SeatsListed(c, people);
    forall x | x in Seats(members) ensures DrawnIn(roots, x) == 1 {
      var i :| 0 <= i < |members| && members[i].unit == x;
      assert members[i] in members;
    }
    SeatsOnce(roots, Seats(members));
    SortedSize(members, MemberLe);
  }

  lemma {:induction false} SeatsListed(c: Chart, people: seq<Person>)
    ensures forall m :: m in Members(c, people) ==> exists w :: w in c.units && w.id == m.unit
  {
    if people != [] {
      var p := people[|people| - 1];
      SeatsListed(c, people[..|people| - 1]);
      ByIdIs(c.units);
      if Seated(c, p) { assert MemberOf(c, p).unit == Find(c, p.place.unit).value.id; }
    }
  }

  function IdsOfMembers(members: seq<MemberView>): seq<string> {
    seq(|members|, i requires 0 <= i < |members| => members[i].id)
  }

  function IdsOfPeople(people: seq<Person>): seq<string> {
    seq(|people|, i requires 0 <= i < |people| => people[i].id)
  }

  lemma OneMorePerson(c: Chart, people: seq<Person>)
    requires people != []
    ensures var front, p := people[..|people| - 1], people[|people| - 1];
      if Seated(c, p) then
        && IdsOfMembers(Members(c, people)) == IdsOfMembers(Members(c, front)) + [p.id]
        && Unplaced(c, people) == Unplaced(c, front)
      else
        Members(c, people) == Members(c, front) && Unplaced(c, people) == Unplaced(c, front) + [p.id]
  {
  }

  /** On any chart nobody is lost or doubled: the members and the unplaced together are
      the people, and a person is unplaced exactly for want of a unit or a rank. */
  lemma {:induction false} NobodyLost(c: Chart, people: seq<Person>)
    ensures multiset(IdsOfMembers(Members(c, people))) + multiset(Unplaced(c, people)) == multiset(IdsOfPeople(people))
  {
    if people != [] {
      var front, p := people[..|people| - 1], people[|people| - 1];
      NobodyLost(c, front);
      assert IdsOfPeople(people) == IdsOfPeople(front) + [p.id];
      OneMorePerson(c, people);
      Rejoin(IdsOfMembers(Members(c, front)), Unplaced(c, front), IdsOfPeople(front), p.id);
    }
  }

  /** A later rank of the same id counts. */
  ghost predicate LastRank(ranks: seq<Rank>, id: string, r: Rank) {
    exists i :: 0 <= i < |ranks| && ranks[i] == r && r.id == id && forall j :: i < j < |ranks| ==> ranks[j].id != id
  }

  lemma {:induction false} FindRankIff(ranks: seq<Rank>, id: string, r: Rank)
    ensures FindRank(ranks, id) == Some(r) <==> LastRank(ranks, id, r)
  {
    if ranks != [] {
      var front, last := ranks[..|ranks| - 1], ranks[|ranks| - 1];
      FindRankIff(front, id, r);
      if last.id != id {
        if LastRank(front, id, r) {
          var i :| 0 <= i < |front| && front[i] == r && r.id == id && forall j :: i < j < |front| ==> front[j].id != id;
          assert ranks[i] == r && forall j :: i < j < |ranks| ==> ranks[j].id != id;
        }
        if LastRank(ranks, id, r) {
          var i :| 0 <= i < |ranks| && ranks[i] == r && r.id == id && forall j :: i < j < |ranks| ==> ranks[j].id != id;
          assert front[i] == r && forall j :: i < j < |front| ==> front[j] == ranks[j];
        }
      } else {
        assert ranks[|front|] == last;
      }
    }
  }

  lemma {:induction false} RankFound(ranks: seq<Rank>, id: string)
    ensures FindRank(ranks, id).Some? <==> exists r :: r in ranks && r.id == id
  {
    if ranks != [] {
      RankFound(ranks[..|ranks| - 1], id);
      assert ranks == ranks[..|ranks| - 1] + [ranks[|ranks| - 1]];
    }
  }

  /** Where a person is placed: the unit and the rank the placement names, the last rank of
      that id; nobody else has a place. With distinct unit ids. */
  lemma SeatIs(c: Chart, p: Person)
    requires DistinctIds(c.units)
    ensures Seated(c, p) <==>
      (exists u :: u in c.units && u.id == p.place.unit) && exists r :: r in c.ranks && r.id == p.place.rank
    ensures Seated(c, p) ==> var m := MemberOf(c, p);
      && m.id == p.id && m.unit == p.place.unit && |m.path| == |Ancestors(c, p.place.unit)|
      && (forall i :: 0 <= i < |m.path| ==> m.path[i] == Ancestors(c, p.place.unit)[i].name)
      && exists r :: LastRank(c.ranks, p.place.rank, r) && m.order == r.order
  {
    ByIdIs(c.units);
    RankFound(c.ranks, p.place.rank);
    if Seated(c, p) { FindRankIff(c.ranks, p.place.rank, FindRank(c.ranks, p.place.rank).value); }
  }

  lemma {:induction false} UnplacedAre(c: Chart, people: seq<Person>, id: string)
    ensures id in Unplaced(c, people) <==> exists p :: p in people && p.id == id && !Seated(c, p)
  {
    if people != [] {
      UnplacedAre(c, people[..|people| - 1], id);
      assert people == people[..|people| - 1] + [people[|people| - 1]];
    }
  }

  /** Paths in order, then rank numbers, then ids. */
  ghost predicate ListedBefore(a: MemberView, b: MemberView) {
    || (a.path != b.path && PathLe(a.path, b.path))
    || (a.path == b.path && a.order < b.order)
    || (a.path == b.path && a.order == b.order && StringLe(a.id, b.id))
  }

  /** The published lists are the same people, sorted. */
  lemma ViewListsEveryone(c: Chart, people: seq<Person>)
    ensures var v := ViewOf(c, people);
      && multiset(v.members) == multiset(Members(c, people)) && Ascending(v.members, MemberLe)
      && multiset(v.unplaced) == multiset(Unplaced(c, people)) && Ascending(v.unplaced, StringLe)
      && |v.members| + |v.unplaced| == |people|
    ensures forall i, j :: 0 <= i < j < |ViewOf(c, people).members| ==>
      ListedBefore(ViewOf(c, people).members[i], ViewOf(c, people).members[j])
  {
    OrdersAgree();
    StringLeLinear();
    forall a, b | MemberLe(a, b) ensures ListedBefore(a, b) { }
    SortedAscends(Members(c, people), MemberLe);
    SortedKeeps(Members(c, people), MemberLe);
    SortedAscends(Unplaced(c, people), StringLe);
    SortedKeeps(Unplaced(c, people), StringLe);
    SortedSize(Members(c, people), MemberLe);
    SortedSize(Unplaced(c, people), StringLe);
    HeadCount(c, people);
  }

  lemma {:induction false} HeadCount(c: Chart, people: seq<Person>)
    ensures |Members(c, people)| + |Unplaced(c, people)| == |people|
  {
    if people != [] {
      OneMorePerson(c, people);
      HeadCount(c, people[..|people| - 1]);
      assert |IdsOfMembers(Members(c, people))| == |Members(c, people)|;
      assert |IdsOfMembers(Members(c, people[..|people| - 1]))| == |Members(c, people[..|people| - 1])|;
    }
  }

  lemma Rejoin(a: seq<string>, b: seq<string>, whole: seq<string>, x: string)
    requires multiset(a) + multiset(b) == multiset(whole)
    ensures multiset(a + [x]) + multiset(b) == multiset(whole + [x])
    ensures multiset(a) + multiset(b + [x]) == multiset(whole + [x])
  {
  }

  /** The condition on blank parents is exact: if the view draws a unit at all, and
      every node at its depth, then the unit's parent is not blank. */
  lemma BlankMisplaced(c: Chart, people: seq<Person>, u: Unit)
    requires Valid(c) && u in c.units
    requires DrawnIn(ViewOf(c, people).roots, u.id) > 0 && DepthsRight(c, ViewOf(c, people).roots)
    ensures u.parent != Some("")
  {
    if u.parent == Some("") {
      assert Shallow(c, u);
      PathStep(c, u);
      DepthIs(c, u);
      ChildrenAre(c.units, None);
      forall v | v in ChildrenOf(c.units, None) ensures v.id != u.id {
        if v.id == u.id { SameId(c, u, v); }
      }
      NotDrawn(c, SortAll(BucketsOf(Members(c, people))), ChildrenOf(c.units, None), 0, LAYERS, u.id);
    }
  }

  /** A unit of depth 0 is not drawn below the roots where depths are right. */
  lemma {:induction false} NotDrawn(c: Chart, b: Buckets, us: seq<Unit>, depth: nat, n: nat, id: string)
    requires DepthOf(c, id) == 0 && DepthsRight(c, BuildAll(c, b, us, depth, n))
    requires depth > 0 || forall v :: v in us ==> v.id != id
    ensures DrawnIn(BuildAll(c, b, us, depth, n), id) == 0
    decreases n, |us|
  {
    if us != [] {
      var v, rest := Build(c, b, us[0], depth, n), BuildAll(c, b, us[1..], depth, n);
      HeadRight(c, v, rest);
      NotDrawn(c, b, us[1..], depth, n, id);
      if n > 0 { NotDrawn(c, b, ChildrenOf(c.units, Some(us[0].id)), depth + 1, n - 1, id); }
      assert v.id != id;
      DrawnHead(v, rest, id);
    }
  }

  lemma DrawnHead(v: UnitView, vs: seq<UnitView>, id: string)
    ensures DrawnIn([v] + vs, id) == One(v.id == id) + DrawnIn(v.children, id) + DrawnIn(vs, id)
  {
    assert ([v] + vs)[0] == v && ([v] + vs)[1..] == vs;
  }
}
