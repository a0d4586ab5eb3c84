/** src/mesh/org.py, `descendant_ids`: a worklist over the children of units. */
module OrgDescendants {
  import opened Schemas
  import opened Ordering
  import opened Org

  function ChildrenOf(units: seq<Unit>, parent: Option<string>): seq<Unit> {
    if units == [] then []
    else (if units[0].parent == parent then [units[0]] else []) + ChildrenOf(units[1..], parent)
  }

  lemma {:induction false} ChildrenAre(units: seq<Unit>, parent: Option<string>)
    ensures forall u :: u in ChildrenOf(units, parent) <==> u in units && u.parent == parent
  {
    if units != [] {
      ChildrenAre(units[1..], parent);
      assert units == [units[0]] + units[1..];
    }
  }

  ghost predicate ChildOf(c: Chart, x: string, parent: string) {
    exists u :: u in c.units && u.id == x && u.parent == Some(parent)
  }

  /** Whatever hangs below a listed id is listed. */
  ghost predicate ClosedAt(c: Chart, x: string, out: seq<string>) {
    forall u :: u in c.units && u.parent == Some(x) ==> u.id in out
  }

  /** Every entry but the first hangs below an earlier one. */
  ghost predicate Grounded(c: Chart, out: seq<string>) {
    forall i :: 0 < i < |out| ==> GroundedAt(c, out, i)
  }

  ghost predicate GroundedAt(c: Chart, out: seq<string>, i: int)
    requires 0 < i < |out|
  {
    exists j :: 0 <= j < i && ChildOf(c, out[i], out[j])
  }

  ghost predicate IsDescendantList(c: Chart, id: string, out: seq<string>) {
    && out != [] && out[0] == id && Distinct(out) && Grounded(c, out)
    && forall x :: x in out ==> ClosedAt(c, x, out)
  }

  lemma OneMore(c: Chart, out: seq<string>, child: Unit, parent: string)
    requires Distinct(out) && Grounded(c, out) && parent in out
    requires child in c.units && child.parent == Some(parent) && child.id !in out
    ensures Distinct(out + [child.id]) && Grounded(c, out + [child.id])
  {
    var more := out + [child.id];
    forall i | 0 < i < |more| ensures GroundedAt(c, more, i) {
      if i < |out| {
        assert GroundedAt(c, out, i);
        var j :| 0 <= j < i && ChildOf(c, out[i], out[j]);
        assert ChildOf(c, more[i], more[j]);
      } else {
        var j :| 0 <= j < |out| && out[j] == parent;
        assert ChildOf(c, more[i], more[j]);
      }
    }
  }

  ghost predicate OfUnits(c: Chart, xs: seq<string>) {
    forall x :: x in xs ==> x in Ids(c.units)
  }

  /** One round of the worklist: the children of `current` that are new go on the list
      and on the stack. */
  method Expand(c: Chart, current: string, out: seq<string>, stack: seq<string>)
    returns (out': seq<string>, stack': seq<string>, ghost added: seq<string>)
    requires Distinct(out) && Grounded(c, out) && current in out
    ensures out' == out + added && stack' == stack + added && OfUnits(c, added)
    ensures Distinct(out') && Grounded(c, out') && ClosedAt(c, current, out')
  {
    var children := ChildrenOf(c.units, Some(current));
    ChildrenAre(c.units, Some(current));
    out', stack', added := out, stack, [];
    for i := 0 to |children|
      invariant out' == out + added && stack' == stack + added && OfUnits(c, added)
      invariant Distinct(out') && Grounded(c, out')
      invariant forall j :: 0 <= j < i ==> children[j].id in out'
    {
      var child := children[i];
      if child.id in out' { continue; }
      assert child in children;
      OneMore(c, out', child, current);
      out' := out' + [child.id];
      stack' := stack' + [child.id];
      added := added + [child.id];
    }
    assert forall u :: u in c.units && u.parent == Some(current) ==> u in children;
  }

  lemma Bounded(c: Chart, id: string, out: seq<string>)
    requires Distinct(out) && Entries(out) <= {id} + Ids(c.units)
    ensures |out| <= |{id} + Ids(c.units)|
  {
    DistinctSize(out);
    SmallerSet(Entries(out), {id} + Ids(c.units));
  }

  /** `descendant_ids`, on any chart: terminates without repetition, with exactly what
      hangs below `id`. */
  method DescendantIds(c: Chart, id: string) returns (out: seq<string>)
    ensures IsDescendantList(c, id, out)
  {
    out := [id];
    var stack := [id];
    ghost var room := |{id} + Ids(c.units)|;
    Bounded(c, id, out);
    while stack != []
      invariant out != [] && out[0] == id && Distinct(out) && Grounded(c, out)
      invariant Entries(out) <= {id} + Ids(c.units) && |out| <= room
      invariant forall x :: x in stack ==> x in out
      invariant forall x :: x in out && x !in stack ==> ClosedAt(c, x, out)
      decreases room - |out|, |stack|
    {
      var current, rest := stack[|stack| - 1], stack[..|stack| - 1];
      assert stack == rest + [current];
      ghost var before := out;
      ghost var added;
      out, stack, added := Expand(c, current, out, rest);
      Bounded(c, id, out);
      forall x | x in out && x !in stack ensures ClosedAt(c, x, out) {
        if x != current { assert ClosedAt(c, x, before); }
      }
    }
  }

  /** No unit other than the blank one names the blank one as its parent. */
  ghost predicate NoneUnderBlank(c: Chart) {
    forall u :: u in c.units && u.parent == Some("") ==> u.id == ""
  }

  ghost predicate OnPath(c: Chart, id: string, u: Unit) {
    exists i: nat :: i < |Path(c, u)| && Path(c, u)[i].id == id
  }

  /** In an accepted chart a parent that is not blank is listed. */
  lemma ParentFound(c: Chart, u: Unit)
    requires Valid(c) && u in c.units && u.parent.Some? && u.parent.value != ""
    ensures ParentOf(c, u).Some? && ParentOf(c, u).value in c.units && ParentOf(c, u).value.id == u.parent.value
    ensures Path(c, u) == Path(c, ParentOf(c, u).value) + [u]
  {
    ByIdIs(c.units);
    PathStep(c, u);
  }

  lemma OnPathStep(c: Chart, id: string, u: Unit, p: Unit)
    requires Valid(c) && u in c.units && p in c.units && u.parent == Some(p.id) && p.id != ""
    ensures OnPath(c, id, u) <==> u.id == id || OnPath(c, id, p)
  {
    ParentFound(c, u);
    SameId(c, ParentOf(c, u).value, p);
    var path := Path(c, u);
    assert path[|path| - 1].id == u.id;
    if i: nat :| i < |Path(c, p)| && Path(c, p)[i].id == id { assert path[i].id == id; }
    if i: nat :| i < |path| && path[i].id == id {
      if i < |path| - 1 { assert Path(c, p)[i].id == id; }
    }
  }

  lemma {:induction false} ListedOnPath(c: Chart, id: string, out: seq<string>, i: nat, u: Unit)
    requires Valid(c) && NoneUnderBlank(c) && IsDescendantList(c, id, out) && 0 < i < |out|
    requires u in c.units && u.id == out[i]
    ensures OnPath(c, id, u)
    decreases i
  {
    assert GroundedAt(c, out, i);
    var j :| 0 <= j < i && ChildOf(c, out[i], out[j]);
    var v :| v in c.units && v.id == out[i] && v.parent == Some(out[j]);
    SameId(c, u, v);
    ParentFound(c, u);
    var p := ParentOf(c, u).value;
    OnPathStep(c, id, u, p);
    if j > 0 {
      ListedOnPath(c, id, out, j, p);
    } else {
      PathIsChain(c, p, MAX_DEPTH);
      assert Shallow(c, p) && Path(c, p)[|Path(c, p)| - 1] == p;
    }
  }

  lemma {:induction false} OnPathListed(c: Chart, id: string, out: seq<string>, u: Unit, n: nat)
    requires Valid(c) && NoneUnderBlank(c) && IsDescendantList(c, id, out)
    requires u in c.units && OnPath(c, id, u) && |Path(c, u)| <= n
    ensures u.id in out
    decreases n
  {
    if u.id != id {
      PathStep(c, u);
      assert Shallow(c, u);
      if u.parent.Some? && u.parent.value != "" {
        ParentFound(c, u);
        var p := ParentOf(c, u).value;
        OnPathStep(c, id, u, p);
        OnPathListed(c, id, out, p, n - 1);
        assert ClosedAt(c, p.id, out);
      }
    }
  }

  /** In an accepted chart in which nothing else hangs below a blank id, the descendants
      of `id` are itself and exactly the units whose chain contains it. */
  lemma DescendantsAre(c: Chart, id: string, out: seq<string>, x: string)
    requires Valid(c) && NoneUnderBlank(c) && IsDescendantList(c, id, out)
    ensures x in out <==> x == id || (Find(c, x).Some? && OnPath(c, id, Find(c, x).value))
  {
    ByIdIs(c.units);
    if x in out && x != id {
      var i :| 0 <= i < |out| && out[i] == x;
      assert GroundedAt(c, out, i);
      var u :| u in c.units && u.id == x;
      FoundById(c, u);
      ListedOnPath(c, id, out, i, u);
    }
    if Find(c, x).Some? && OnPath(c, id, Find(c, x).value) {
      OnPathListed(c, id, out, Find(c, x).value, |Path(c, Find(c, x).value)|);
    }
  }

  /** That condition is exact: a unit hanging below a unit with a blank id is among its
      descendants, though its own chain stops short of it. */
  lemma BlankSplits(c: Chart, out: seq<string>, u: Unit)
    requires Valid(c) && IsDescendantList(c, "", out)
    requires u in c.units && u.parent == Some("") && u.id != ""
    ensures u.id in out && Find(c, u.id) == Some(u) && !OnPath(c, "", u)
  {
    assert out[0] in out && ClosedAt(c, "", out);
    FoundById(c, u);
    assert Shallow(c, u);
    PathStep(c, u);
  }
}
