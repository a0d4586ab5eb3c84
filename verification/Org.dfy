/** src/mesh/org.py: the organisation chart - units that name their parent - with its
    chains, its validation and its worklist of descendants. */
module Org {
  import opened Sequences
  import opened Schemas

  const MAX_DEPTH: nat := 8

  datatype Unit = Unit(id: string, name: string, parent: Option<string>)
  datatype Rank = Rank(id: string, order: int)
  datatype Chart = Chart(units: seq<Unit>, ranks: seq<Rank>)

  /** A later unit of the same id replaces an earlier one. */
  function ById(units: seq<Unit>): map<string, Unit> {
    if units == [] then map[] else ById(units[..|units| - 1])[units[|units| - 1].id := units[|units| - 1]]
  }

  /** A blank parent reads as no parent. */
  function ParentOf(c: Chart, u: Unit): Option<Unit> {
    if u.parent.None? || u.parent.value == "" || u.parent.value !in ById(c.units) then None
    else Some(ById(c.units)[u.parent.value])
  }

  /** `k` steps up from `u`. */
  function Up(c: Chart, u: Unit, k: nat): Option<Unit>
    decreases k
  {
    if k == 0 then Some(u)
    else match ParentOf(c, u)
      case None => None
      case Some(p) => Up(c, p, k - 1)
  }

  /** The chain of `u`, topmost first, at most `n` units of it. */
  function PathOf(c: Chart, u: Unit, n: nat): seq<Unit>
    decreases n
  {
    if n == 0 then []
    else (match ParentOf(c, u)
          case None => []
          case Some(p) => PathOf(c, p, n - 1)) + [u]
  }

  function Path(c: Chart, u: Unit): seq<Unit> {
    PathOf(c, u, MAX_DEPTH)
  }

  ghost predicate DistinctIds(units: seq<Unit>) {
    forall i, j :: 0 <= i < j < |units| ==> units[i].id != units[j].id
  }

  predicate Shallow(c: Chart, u: Unit) {
    Up(c, u, MAX_DEPTH) == None
  }

  ghost predicate AllShallow(c: Chart) {
    forall u :: u in c.units ==> Shallow(c, u)
  }

  ghost predicate ParentsKnown(c: Chart) {
    forall u :: u in c.units && u.parent.Some? ==> exists v :: v in c.units && v.id == u.parent.value
  }

  /** What `validate_tree` accepts. */
  ghost predicate Valid(c: Chart) {
    DistinctIds(c.units) && ParentsKnown(c) && AllShallow(c) && c.ranks != []
  }

  // ---- looking units up --------------------------------------------------

  lemma {:induction false} ByIdIs(units: seq<Unit>)
    ensures forall u :: u in units ==> u.id in ById(units)
    ensures forall k :: k in ById(units) ==> ById(units)[k] in units && ById(units)[k].id == k
  {
    if units != [] {
      ByIdIs(units[..|units| - 1]);
      assert units == units[..|units| - 1] + [units[|units| - 1]];
    }
  }

  lemma FoundById(c: Chart, u: Unit)
    requires DistinctIds(c.units) && u in c.units
    ensures u.id in ById(c.units) && ById(c.units)[u.id] == u
  {
    ByIdIs(c.units);
    var v := ById(c.units)[u.id];
    var i :| 0 <= i < |c.units| && c.units[i] == u;
    var j :| 0 <= j < |c.units| && c.units[j] == v;
    assert i == j;
  }

  lemma SameId(c: Chart, u: Unit, v: Unit)
    requires DistinctIds(c.units) && u in c.units && v in c.units && u.id == v.id
    ensures u == v
  {
    FoundById(c, u);
    FoundById(c, v);
  }

  lemma ParentListed(c: Chart, u: Unit)
    ensures ParentOf(c, u).Some? ==> ParentOf(c, u).value in c.units && u.parent == Some(ParentOf(c, u).value.id)
  {
    ByIdIs(c.units);
  }

  // ---- steps up ----------------------------------------------------------

  lemma {:induction false} UpListed(c: Chart, u: Unit, k: nat)
    requires u in c.units && Up(c, u, k).Some?
    ensures Up(c, u, k).value in c.units
    decreases k
  {
    if k > 0 {
      ParentListed(c, u);
      UpListed(c, ParentOf(c, u).value, k - 1);
    }
  }

  lemma {:induction false} UpAdd(c: Chart, u: Unit, a: nat, b: nat)
    ensures Up(c, u, a + b) == if Up(c, u, a).Some? then Up(c, Up(c, u, a).value, b) else None
    decreases a
  {
    if a > 0 && ParentOf(c, u).Some? { UpAdd(c, ParentOf(c, u).value, a - 1, b); }
  }

  /** Past the top there is nothing. */
  lemma UpNone(c: Chart, u: Unit, a: nat, b: nat)
    requires a <= b && Up(c, u, b).Some?
    ensures Up(c, u, a).Some?
  {
    UpAdd(c, u, a, b - a);
  }

  /** A unit that is above itself has units above it without end. */
  lemma {:induction false} UpForever(c: Chart, v: Unit, period: nat, n: nat)
    requires period > 0 && Up(c, v, period) == Some(v)
    ensures Up(c, v, n).Some?
    decreases n
  {
    if n <= period {
      UpNone(c, v, n, period);
    } else {
      UpAdd(c, v, period, n - period);
      UpForever(c, v, period, n - period);
    }
  }

  lemma RepeatIsDeep(c: Chart, u: Unit, i: nat, j: nat, n: nat)
    requires i < j && Up(c, u, i).Some? && Up(c, u, i) == Up(c, u, j)
    ensures Up(c, u, n).Some?
  {
    var v := Up(c, u, i).value;
    UpAdd(c, u, i, j - i);
    UpForever(c, v, j - i, n);
    UpAdd(c, u, i, n);
    UpNone(c, u, n, i + n);
  }

  // ---- validation --------------------------------------------------------

  ghost predicate Cyclic(c: Chart) {
    exists u, k: nat :: u in c.units && k > 0 && Up(c, u, k) == Some(u)
  }

  /** Some unit has a chain of more than `MAX_DEPTH` different units. */
  ghost predicate LongChain(c: Chart) {
    exists u :: u in c.units && !Shallow(c, u) && !Repeats(c, u)
  }

  ghost predicate RepeatsAt(c: Chart, u: Unit, i: nat, j: nat) {
    Up(c, u, i).Some? && Up(c, u, j).Some? && Up(c, u, i).value.id == Up(c, u, j).value.id
  }

  ghost predicate Repeats(c: Chart, u: Unit) {
    exists i: nat, j: nat :: i < j <= MAX_DEPTH && RepeatsAt(c, u, i, j)
  }

  /** Rejected is exactly what has a cycle or a chain of more than eight. */
  lemma ShallowIff(c: Chart)
    requires DistinctIds(c.units)
    ensures AllShallow(c) <==> !Cyclic(c) && !LongChain(c)
  {
    if Cyclic(c) {
      var u, k: nat :| u in c.units && k > 0 && Up(c, u, k) == Some(u);
      UpForever(c, u, k, MAX_DEPTH);
      assert !Shallow(c, u);
    }
    if u :| u in c.units && !Shallow(c, u) && Repeats(c, u) {
      var i: nat, j: nat :| i < j <= MAX_DEPTH && RepeatsAt(c, u, i, j);
      RepeatCycles(c, u, i, j);
    }
  }

  lemma RepeatCycles(c: Chart, u: Unit, i: nat, j: nat)
    requires DistinctIds(c.units) && u in c.units && i < j && RepeatsAt(c, u, i, j)
    ensures Up(c, u, i) == Up(c, u, j) && Cyclic(c)
  {
    UpListed(c, u, i);
    UpListed(c, u, j);
    SameId(c, Up(c, u, i).value, Up(c, u, j).value);
    UpAdd(c, u, i, j - i);
    assert Up(c, Up(c, u, i).value, j - i) == Some(Up(c, u, i).value);
  }

  /** Units of the chart, each the parent that the one before it names; a blank name
      names nobody. */
  ghost predicate Climbs(c: Chart, chain: seq<Unit>) {
    && (forall i :: 0 <= i < |chain| ==> chain[i] in c.units)
    && forall i :: 0 < i < |chain| ==> NamesParent(chain[i - 1], chain[i])
  }

  ghost predicate NamesParent(u: Unit, parent: Unit) {
    u.parent == Some(parent.id) && parent.id != ""
  }

  lemma ParentIff(c: Chart, u: Unit, p: Unit)
    requires DistinctIds(c.units)
    ensures ParentOf(c, u) == Some(p) <==> p in c.units && NamesParent(u, p)
  {
    ByIdIs(c.units);
    if p in c.units { FoundById(c, p); }
  }

  lemma {:induction false} ClimbsUp(c: Chart, u: Unit, n: nat) returns (chain: seq<Unit>)
    requires DistinctIds(c.units) && u in c.units && Up(c, u, n).Some?
    ensures |chain| == n + 1 && chain[0] == u && Climbs(c, chain)
    decreases n
  {
    chain := [u];
    if n > 0 {
      var p := ParentOf(c, u).value;
      ParentIff(c, u, p);
      var more := ClimbsUp(c, p, n - 1);
      chain := [u] + more;
      forall i | 0 < i < |chain| ensures NamesParent(chain[i - 1], chain[i]) {
        if i > 1 { assert NamesParent(more[i - 2], more[i - 1]); }
      }
    }
  }

  lemma {:induction false} UpClimbs(c: Chart, chain: seq<Unit>)
    requires DistinctIds(c.units) && chain != [] && Climbs(c, chain)
    ensures Up(c, chain[0], |chain| - 1).Some?
    decreases |chain|
  {
    if |chain| > 1 {
      assert NamesParent(chain[0], chain[1]);
      ParentIff(c, chain[0], chain[1]);
      assert Climbs(c, chain[1..]) by {
        forall i | 0 < i < |chain[1..]| ensures NamesParent(chain[1..][i - 1], chain[1..][i]) { assert NamesParent(chain[i], chain[i + 1]); }
      }
      UpClimbs(c, chain[1..]);
    }
  }

  /** What is accepted has no nine units each the parent of the one before. */
  lemma EightLayers(c: Chart)
    requires DistinctIds(c.units)
    ensures AllShallow(c) <==> !exists chain :: |chain| == 9 && Climbs(c, chain)
  {
    if u :| u in c.units && !Shallow(c, u) {
      var chain := ClimbsUp(c, u, 8);
      assert |chain| == 9 && Climbs(c, chain);
    }
    if chain :| |chain| == 9 && Climbs(c, chain) {
      UpClimbs(c, chain);
      assert !Shallow(c, chain[0]);
    }
  }

  datatype ChainCheck = Fine | Cycle | TooDeep

  /** The ids of the first `k` units of the chain, all different. */
  ghost predicate SeenAre(c: Chart, u: Unit, k: nat, seen: set<string>) {
    && |seen| == k
    && (forall j: nat :: j < k ==> Up(c, u, j).Some? && Up(c, u, j).value.id in seen)
    && (forall x :: x in seen ==> exists j: nat :: j < k && Up(c, u, j).Some? && Up(c, u, j).value.id == x)
    && (forall i: nat, j: nat :: i < j < k ==> !RepeatsAt(c, u, i, j))
  }

  lemma OneMoreSeen(c: Chart, u: Unit, k: nat, seen: set<string>, id: string)
    requires SeenAre(c, u, k, seen) && Up(c, u, k).Some? && Up(c, u, k).value.id == id && id !in seen
    ensures SeenAre(c, u, k + 1, seen + {id})
  {
    forall i: nat, j: nat | i < j < k + 1 ensures !RepeatsAt(c, u, i, j) {
      assert Up(c, u, i).value.id in seen;
    }
    forall x | x in seen + {id} ensures exists j: nat :: j < k + 1 && Up(c, u, j).Some? && Up(c, u, j).value.id == x {
      if x in seen {
        var j: nat :| j < k && Up(c, u, j).Some? && Up(c, u, j).value.id == x;
      }
    }
  }

  lemma SeenAgain(c: Chart, u: Unit, k: nat, seen: set<string>, id: string)
    requires DistinctIds(c.units) && u in c.units && k <= MAX_DEPTH
    requires SeenAre(c, u, k, seen) && Up(c, u, k).Some? && Up(c, u, k).value.id == id && id in seen
    ensures Repeats(c, u) && !Shallow(c, u)
  {
    var i: nat :| i < k && Up(c, u, i).Some? && Up(c, u, i).value.id == id;
    assert RepeatsAt(c, u, i, k);
    RepeatCycles(c, u, i, k);
    RepeatIsDeep(c, u, i, k, MAX_DEPTH);
  }

  /** The inner loop of `_check_acyclic`. */
  method CheckChain(c: Chart, u: Unit) returns (r: ChainCheck)
    requires DistinctIds(c.units) && u in c.units
    ensures r == Fine <==> Shallow(c, u)
    ensures r == Cycle <==> Repeats(c, u)
  {
    var seen: set<string> := {};
    var current := Some(u);
    ghost var k: nat := 0;
    while current.Some?
      invariant k <= MAX_DEPTH && SeenAre(c, u, k, seen) && current == Up(c, u, k)
      decreases MAX_DEPTH - k
    {
      if current.value.id in seen {
        SeenAgain(c, u, k, seen, current.value.id);
        return Cycle;
      }
      OneMoreSeen(c, u, k, seen, current.value.id);
      seen := seen + {current.value.id};
      if |seen| > MAX_DEPTH {
        return TooDeep;
      }
      UpAdd(c, u, k, 1);
      current := ParentOf(c, current.value);
      k := k + 1;
    }
    forall n: nat | k <= n ensures Up(c, u, n) == None { UpAdd(c, u, k, n - k); }
    return Fine;
  }

  datatype Verdict = Accepted | DuplicateId | UnknownParent | Circular | TooManyLayers | NoRanks

  method CheckAcyclic(c: Chart) returns (r: Verdict)
    requires DistinctIds(c.units)
    ensures r in {Accepted, Circular, TooManyLayers}
    ensures r == Accepted <==> AllShallow(c)
    ensures r == Circular ==> Cyclic(c)
    ensures r == TooManyLayers ==> LongChain(c)
  {
    for i := 0 to |c.units|
      invariant forall j :: 0 <= j < i ==> Shallow(c, c.units[j])
    {
      var check := CheckChain(c, c.units[i]);
      if check == Cycle {
        ghost var a: nat, b: nat :| a < b <= MAX_DEPTH && RepeatsAt(c, c.units[i], a, b);
        RepeatCycles(c, c.units[i], a, b);
        return Circular;
      }
      if check == TooDeep { return TooManyLayers; }
    }
    return Accepted;
  }

  /** Accepts exactly the charts with distinct ids, known parents, no cycle, no chain
      of more than eight units, and at least one rank. */
  method ValidateTree(c: Chart) returns (r: Verdict)
    ensures r == Accepted <==> Valid(c)
    ensures r == DuplicateId <==> !DistinctIds(c.units)
    ensures r == UnknownParent <==> DistinctIds(c.units) && !ParentsKnown(c)
    ensures r == Circular ==> Cyclic(c)
    ensures r == TooManyLayers ==> LongChain(c)
    ensures r == NoRanks ==> c.ranks == []
  {
    var known: set<string> := {};
    for i := 0 to |c.units|
      invariant forall x :: x in known <==> exists j :: 0 <= j < i && c.units[j].id == x
      invariant DistinctIds(c.units[..i])
    {
      if c.units[i].id in known { return DuplicateId; }
      known := known + {c.units[i].id};
    }
    assert c.units[..|c.units|] == c.units;
    for i := 0 to |c.units|
      invariant forall j :: 0 <= j < i && c.units[j].parent.Some? ==> c.units[j].parent.value in known
    {
      if c.units[i].parent.Some? && c.units[i].parent.value !in known {
        assert c.units[i] in c.units;
        return UnknownParent;
      }
    }
    assert ParentsKnown(c);
    r := CheckAcyclic(c);
    if r == Accepted && c.ranks == [] { r := NoRanks; }
  }

  // ---- chains in an accepted chart ---------------------------------------

  /** A chain grows by one unit per step; a longer bound changes nothing. */
  lemma {:induction false} PathBound(c: Chart, u: Unit, n: nat, m: nat)
    requires Up(c, u, n) == None && n <= m
    ensures PathOf(c, u, n) == PathOf(c, u, m)
    decreases n
  {
    if n > 0 && ParentOf(c, u).Some? { PathBound(c, ParentOf(c, u).value, n - 1, m - 1); }
  }

  lemma PathStep(c: Chart, u: Unit)
    requires Shallow(c, u)
    ensures match ParentOf(c, u)
      case None => Path(c, u) == [u]
      case Some(p) => Shallow(c, p) && Path(c, u) == Path(c, p) + [u]
  {
    if ParentOf(c, u).Some? {
      var p := ParentOf(c, u).value;
      if Up(c, p, MAX_DEPTH).Some? { UpNone(c, p, MAX_DEPTH - 1, MAX_DEPTH); }
      PathBound(c, p, MAX_DEPTH - 1, MAX_DEPTH);
    }
  }

  /** A chain is complete: it starts at a unit without a parent, each unit is the
      parent of the next, and it ends at `u`. */
  ghost predicate IsChain(c: Chart, path: seq<Unit>, u: Unit) {
    && path != [] && path[|path| - 1] == u
    && ParentOf(c, path[0]) == None
    && forall i :: 0 < i < |path| ==> ParentOf(c, path[i]) == Some(path[i - 1])
  }

  lemma {:induction false} PathIsChain(c: Chart, u: Unit, n: nat)
    requires Up(c, u, n) == None
    ensures IsChain(c, PathOf(c, u, n), u)
    decreases n
  {
    if ParentOf(c, u).Some? {
      PathIsChain(c, ParentOf(c, u).value, n - 1);
    }
  }

  /** Every part of a chain is the chain of its last unit; there is no other. */
  lemma {:induction false} ChainUnique(c: Chart, path: seq<Unit>, u: Unit)
    requires Shallow(c, u) && IsChain(c, path, u)
    ensures path == Path(c, u)
    decreases |path|
  {
    if |path| == 1 {
      TopChain(c, path, u);
    } else {
      FrontIsChain(c, path, u);
      var p := path[|path| - 2];
      ParentShallow(c, u, p);
      ChainUnique(c, path[..|path| - 1], p);
      PathGrows(c, u, p);
      FrontAndLast(path, Path(c, p), u);
    }
  }

  lemma TopChain(c: Chart, path: seq<Unit>, u: Unit)
    requires Shallow(c, u) && IsChain(c, path, u) && |path| == 1
    ensures path == Path(c, u)
  {
    PathStep(c, u);
    assert path == [u];
  }

  lemma ParentShallow(c: Chart, u: Unit, p: Unit)
    requires Shallow(c, u) && ParentOf(c, u) == Some(p)
    ensures Shallow(c, p)
  {
    PathStep(c, u);
  }

  lemma PathGrows(c: Chart, u: Unit, p: Unit)
    requires Shallow(c, u) && ParentOf(c, u) == Some(p)
    ensures Path(c, u) == Path(c, p) + [u]
  {
    PathStep(c, u);
  }

  lemma FrontAndLast(path: seq<Unit>, front: seq<Unit>, u: Unit)
    requires path != [] && path[..|path| - 1] == front && path[|path| - 1] == u
    ensures path == front + [u]
  {
  }

  lemma FrontIsChain(c: Chart, path: seq<Unit>, u: Unit)
    requires IsChain(c, path, u) && |path| > 1
    ensures ParentOf(c, u) == Some(path[|path| - 2]) && IsChain(c, path[..|path| - 1], path[|path| - 2])
  {
    assert ParentOf(c, path[|path| - 1]) == Some(path[|path| - 2]);
  }

  lemma {:induction false} PathListed(c: Chart, u: Unit, n: nat)
    requires u in c.units
    ensures forall w :: w in PathOf(c, u, n) ==> w in c.units
    decreases n
  {
    ParentListed(c, u);
    if n > 0 && ParentOf(c, u).Some? { PathListed(c, ParentOf(c, u).value, n - 1); }
  }

  lemma ChainFront(c: Chart, path: seq<Unit>, u: Unit, i: nat)
    requires IsChain(c, path, u) && i < |path|
    ensures IsChain(c, path[..i + 1], path[i])
  {
  }

  lemma PathUnit(c: Chart, u: Unit, i: nat)
    requires u in c.units && i < |Path(c, u)|
    ensures Path(c, u)[i] in c.units
  {
    PathListed(c, u, MAX_DEPTH);
  }

  /** The chain of a unit on a chain is the chain up to that unit. */
  lemma PathPrefix(c: Chart, u: Unit, i: nat)
    requires Valid(c) && u in c.units && i < |Path(c, u)|
    ensures Path(c, u)[i] in c.units && Path(c, Path(c, u)[i]) == Path(c, u)[..i + 1]
  {
    assert Shallow(c, u);
    PathIsChain(c, u, MAX_DEPTH);
    PathUnit(c, u, i);
    ChainFront(c, Path(c, u), u, i);
    ChainUnique(c, Path(c, u)[..i + 1], Path(c, u)[i]);
  }

  /** A unit is on a chain at one place only: the length of its own chain. */
  lemma PlaceOnPath(c: Chart, u: Unit, i: nat, v: Unit, j: nat)
    requires Valid(c) && u in c.units && v in c.units && i < |Path(c, u)| && j < |Path(c, v)|
    requires Path(c, u)[i].id == Path(c, v)[j].id
    ensures i == j && Path(c, u)[..i + 1] == Path(c, v)[..j + 1]
  {
    PathPrefix(c, u, i);
    PathPrefix(c, v, j);
    SameId(c, Path(c, u)[i], Path(c, v)[j]);
    assert |Path(c, u)[..i + 1]| == |Path(c, v)[..j + 1]|;
  }

  // ---- ancestors ---------------------------------------------------------

  /** The walk of `ancestors`, which guards itself against cycles and depth. */
  function Climb(c: Chart, u: Option<Unit>, seen: set<string>, n: nat): seq<Unit>
    decreases n
  {
    if u.None? || n == 0 || u.value.id in seen then []
    else Climb(c, ParentOf(c, u.value), seen + {u.value.id}, n - 1) + [u.value]
  }

  function Find(c: Chart, id: string): Option<Unit> {
    if id in ById(c.units) then Some(ById(c.units)[id]) else None
  }

  function Ancestors(c: Chart, id: string): seq<Unit> {
    Climb(c, Find(c, id), {}, MAX_DEPTH)
  }

  lemma ClimbStep(c: Chart, u: Unit, seen: set<string>, chain: seq<Unit>)
    requires u.id !in seen && |chain| < MAX_DEPTH
    ensures Climb(c, Some(u), seen, MAX_DEPTH - |chain|) + Reversed(chain)
         == Climb(c, ParentOf(c, u), seen + {u.id}, MAX_DEPTH - |chain + [u]|) + Reversed(chain + [u])
  {
    ReversedSnoc(chain, u);
    Regroup(Climb(c, ParentOf(c, u), seen + {u.id}, MAX_DEPTH - |chain + [u]|), [u], Reversed(chain));
  }

  method WalkAncestors(c: Chart, id: string) returns (r: seq<Unit>)
    ensures r == Ancestors(c, id)
  {
    var chain: seq<Unit> := [];
    var current := Find(c, id);
    var seen: set<string> := {};
    while current.Some? && current.value.id !in seen && |chain| < MAX_DEPTH
      invariant |chain| <= MAX_DEPTH
      invariant Climb(c, current, seen, MAX_DEPTH - |chain|) + Reversed(chain) == Ancestors(c, id)
      decreases MAX_DEPTH - |chain|
    {
      ClimbStep(c, current.value, seen, chain);
      seen := seen + {current.value.id};
      chain := chain + [current.value];
      current := ParentOf(c, current.value);
    }
    r := Reversed(chain);
    assert [] + r == r;
  }

  function Reversed<T>(xs: seq<T>): seq<T> {
    if xs == [] then [] else Reversed(xs[1..]) + [xs[0]]
  }

  lemma {:induction false} ReversedSnoc<T>(xs: seq<T>, x: T)
    ensures Reversed(xs + [x]) == [x] + Reversed(xs)
  {
    if xs == [] {
      assert [] + [x] == [x] && [x][1..] == [];
    } else {
      assert (xs + [x])[1..] == xs[1..] + [x];
      ReversedSnoc(xs[1..], x);
    }
  }

  lemma {:induction false} ClimbIsPath(c: Chart, u: Unit, seen: set<string>, n: nat)
    requires DistinctIds(c.units) && u in c.units && Up(c, u, n) == None
    requires forall k: nat :: Up(c, u, k).Some? ==> Up(c, u, k).value.id !in seen
    ensures Climb(c, Some(u), seen, n) == PathOf(c, u, n)
    decreases n
  {
    assert Up(c, u, 0) == Some(u);
    var p := ParentOf(c, u);
    if p.Some? {
      ParentListed(c, u);
      forall k: nat | Up(c, p.value, k).Some? ensures Up(c, p.value, k).value.id !in seen + {u.id} {
        assert Up(c, u, k + 1) == Up(c, p.value, k);
        if Up(c, p.value, k).value.id == u.id {
          assert RepeatsAt(c, u, 0, k + 1);
          RepeatCycles(c, u, 0, k + 1);
          RepeatIsDeep(c, u, 0, k + 1, n);
        }
      }
      ClimbIsPath(c, p.value, seen + {u.id}, n - 1);
    }
  }

  /** In an accepted chart neither guard ever cuts the walk short: `ancestors` of a
      unit is its complete chain, and of anything else nothing. */
  lemma AncestorsComplete(c: Chart, id: string)
    requires Valid(c)
    ensures match Find(c, id)
      case None => Ancestors(c, id) == []
      case Some(u) => u in c.units && u.id == id && Ancestors(c, id) == Path(c, u) && IsChain(c, Ancestors(c, id), u)
  {
    ByIdIs(c.units);
    if Find(c, id).Some? {
      var u := Find(c, id).value;
      assert Shallow(c, u);
      ClimbIsPath(c, u, {}, MAX_DEPTH);
      PathIsChain(c, u, MAX_DEPTH);
    }
  }

  function DepthOf(c: Chart, id: string): nat {
    if Ancestors(c, id) == [] then 0 else |Ancestors(c, id)| - 1
  }

  /** In an accepted chart the depth of a unit is the number of units above it; what is no
      unit has depth zero. */
  lemma DepthIsAbove(c: Chart, id: string)
    requires Valid(c)
    ensures if exists u :: u in c.units && u.id == id then
      exists chain: seq<Unit> :: |chain| == DepthOf(c, id) + 1 && Climbs(c, chain) && chain[0].id == id && ParentOf(c, chain[|chain| - 1]).None?
      else DepthOf(c, id) == 0
  {
    ByIdIs(c.units);
    AncestorsComplete(c, id);
    if u :| u in c.units && u.id == id {
      FoundById(c, u);
      var path := Path(c, u);
      var chain := Reversed(path);
      ReversedAt(path);
      ChainClimbs(c, path, u);
    }
  }

  lemma ChainLink(c: Chart, path: seq<Unit>, u: Unit, k: nat)
    requires DistinctIds(c.units) && IsChain(c, path, u) && k < |path| - 1
    ensures path[k] in c.units && NamesParent(path[k + 1], path[k])
  {
    ParentIff(c, path[k + 1], path[k]);
  }

  lemma ChainClimbs(c: Chart, path: seq<Unit>, u: Unit)
    requires DistinctIds(c.units) && u in c.units && IsChain(c, path, u)
    ensures Climbs(c, Reversed(path))
  {
    var chain := Reversed(path);
    ReversedAt(path);
    forall i | 0 < i < |chain| ensures NamesParent(chain[i - 1], chain[i]) {
      ChainLink(c, path, u, |path| - 1 - i);
      assert chain[i] == path[|path| - 1 - i] && chain[i - 1] == path[|path| - 1 - (i - 1)];
    }
    forall i | 0 <= i < |chain| ensures chain[i] in c.units {
      assert chain[i] == path[|path| - 1 - i];
      if i > 0 { ChainLink(c, path, u, |path| - 1 - i); }
    }
  }

  lemma {:induction false} ReversedAt<T>(xs: seq<T>)
    ensures |Reversed(xs)| == |xs| && forall i :: 0 <= i < |xs| ==> Reversed(xs)[i] == xs[|xs| - 1 - i]
  {
    if xs != [] { ReversedAt(xs[1..]); }
  }

  // ---- the depth two units share -----------------------------------------

  function Ids(units: seq<Unit>): set<string> {
    set u | u in units :: u.id
  }

  /** How many of the units are among `ids`. */
  function CountAmong(units: seq<Unit>, ids: set<string>): nat {
    if units == [] then 0 else (if units[0].id in ids then 1 else 0) + CountAmong(units[1..], ids)
  }

  function CommonAncestorDepth(c: Chart, a: Option<string>, b: Option<string>): nat {
    if a.None? || a.value == "" || b.None? || b.value == "" then 0
    else CountAmong(Ancestors(c, a.value), Ids(Ancestors(c, b.value)))
  }

  function CommonPrefix(xs: seq<Unit>, ys: seq<Unit>): nat {
    if xs == [] || ys == [] || xs[0] != ys[0] then 0 else 1 + CommonPrefix(xs[1..], ys[1..])
  }

  lemma {:induction false} CommonPrefixIs(xs: seq<Unit>, ys: seq<Unit>, i: nat)
    requires i < |xs|
    ensures CommonPrefix(xs, ys) <= |xs|
    ensures i < CommonPrefix(xs, ys) <==> i < |ys| && xs[..i + 1] == ys[..i + 1]
  {
    if ys != [] && xs[0] == ys[0] {
      if i == 0 {
        assert xs[..1] == [xs[0]] && ys[..1] == [ys[0]];
        if |xs| > 1 { CommonPrefixIs(xs[1..], ys[1..], 0); }
      } else {
        CommonPrefixIs(xs[1..], ys[1..], i - 1);
        assert xs[..i + 1] == [xs[0]] + xs[1..][..i];
        assert i < |ys| ==> ys[..i + 1] == [ys[0]] + ys[1..][..i];
      }
    } else if ys != [] {
      assert i < |ys| ==> xs[..i + 1][0] == xs[0] && ys[..i + 1][0] == ys[0];
    }
  }

  /** If the first `n` units and no others are among `ids`, the count is `n`. */
  lemma {:induction false} CountIsPrefix(units: seq<Unit>, ids: set<string>, n: nat)
    requires n <= |units| && forall i :: 0 <= i < |units| ==> (units[i].id in ids <==> i < n)
    ensures CountAmong(units, ids) == n
  {
    if units != [] { CountIsPrefix(units[1..], ids, if n == 0 then 0 else n - 1); }
  }

  lemma OnBothPaths(c: Chart, u: Unit, v: Unit, i: nat)
    requires Valid(c) && u in c.units && v in c.units && i < |Path(c, u)|
    ensures Path(c, u)[i].id in Ids(Path(c, v)) <==> i < CommonPrefix(Path(c, u), Path(c, v))
  {
    var p, q := Path(c, u), Path(c, v);
    CommonPrefixIs(p, q, i);
    if p[i].id in Ids(q) {
      var j: nat :| j < |q| && q[j].id == p[i].id;
      PlaceOnPath(c, u, i, v, j);
    }
    if i < |q| && p[..i + 1] == q[..i + 1] {
      assert p[i] == p[..i + 1][i] && q[i] == q[..i + 1][i];
      assert q[i] in q;
    }
  }

  lemma {:induction false} CommonPrefixSymmetric(xs: seq<Unit>, ys: seq<Unit>)
    ensures CommonPrefix(xs, ys) == CommonPrefix(ys, xs) <= |xs|
  {
    if xs != [] && ys != [] && xs[0] == ys[0] { CommonPrefixSymmetric(xs[1..], ys[1..]); }
  }

  /** In an accepted chart the shared depth, a count of common members, is the length
      of the common beginning of the two chains; hence it is symmetric. */
  lemma SharedDepthIsCommonPrefix(c: Chart, a: string, b: string)
    requires Valid(c) && a != "" && b != ""
    ensures CommonAncestorDepth(c, Some(a), Some(b)) == CommonPrefix(Ancestors(c, a), Ancestors(c, b))
    ensures CommonAncestorDepth(c, Some(a), Some(b)) == CommonAncestorDepth(c, Some(b), Some(a))
  {
    SharedOneWay(c, a, b);
    SharedOneWay(c, b, a);
    CommonPrefixSymmetric(Ancestors(c, a), Ancestors(c, b));
  }

  /** Without two ids nothing is shared. */
  lemma SharedDepthIs(c: Chart, a: Option<string>, b: Option<string>)
    requires Valid(c)
    ensures CommonAncestorDepth(c, a, b) ==
      match (a, b)
      case (Some(x), Some(y)) => if x == "" || y == "" then 0 else CommonPrefix(Ancestors(c, x), Ancestors(c, y))
      case _ => 0
  {
    if a.Some? && b.Some? && a.value != "" && b.value != "" { SharedOneWay(c, a.value, b.value); }
  }

  lemma SharedOneWay(c: Chart, a: string, b: string)
    requires Valid(c) && a != "" && b != ""
    ensures CommonAncestorDepth(c, Some(a), Some(b)) == CommonPrefix(Ancestors(c, a), Ancestors(c, b))
  {
    AncestorsComplete(c, a);
    AncestorsComplete(c, b);
    var p, q := Ancestors(c, a), Ancestors(c, b);
    if Find(c, a).Some? && Find(c, b).Some? {
      var u, v := Find(c, a).value, Find(c, b).value;
      forall i: nat | i < |p| ensures p[i].id in Ids(q) <==> i < CommonPrefix(p, q) { OnBothPaths(c, u, v, i); }
      CommonPrefixSymmetric(p, q);
      CountIsPrefix(p, Ids(q), CommonPrefix(p, q));
    } else if p != [] {
      CountIsPrefix(p, Ids(q), 0);
    }
  }
}
