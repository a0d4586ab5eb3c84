/** JSON values and the two ways src/mesh/validator.py goes over them: the recursive
    `_walk` and the stack loop of `all_keys`. */
module JsonValues {
  import opened Text
  import opened Schemas

  /** A dict keeps its keys in order. */
  datatype Json =
    | Null
    | Bool(b: bool)
    | Int(n: int)
    | Real(r: real)
    | Str(s: string)
    | Arr(items: seq<Json>)
    | Obj(fields: seq<Field>)

  datatype Field = Field(key: string, value: Json)

  /** `d.get(key)` */
  function Lookup(fields: seq<Field>, key: string): Option<Json> {
    if fields == [] then None else if fields[0].key == key then Some(fields[0].value) else Lookup(fields[1..], key)
  }

  type Visit = (string, Json)

  function ChildPath(path: string, key: string): string {
    if path == "" then key else path + "." + key
  }

  /** Every value below `v` with its path, depth first. */
  function Walk(v: Json, path: string): seq<Visit>
    decreases v, 0
  {
    match v
    case Obj(fields) => WalkFields(fields, path)
    case Arr(items) => WalkItems(items, path, 0)
    case _ => []
  }

  function WalkFields(fields: seq<Field>, path: string): seq<Visit>
    decreases fields, 1
  {
    if fields == [] then []
    else
      var child := ChildPath(path, fields[0].key);
      [(child, fields[0].value)] + Walk(fields[0].value, child) + WalkFields(fields[1..], path)
  }

  function WalkItems(items: seq<Json>, path: string, i: nat): seq<Visit>
    decreases items, 1
  {
    if items == [] then []
    else
      var child := path + "[" + Decimal(i) + "]";
      [(child, items[0])] + Walk(items[0], child) + WalkItems(items[1..], path, i + 1)
  }

  function Strings(visits: seq<Visit>): seq<string> {
    if visits == [] then []
    else (if visits[0].1.Str? then [visits[0].1.s] else []) + Strings(visits[1..])
  }

  function AllStrings(v: Json): seq<string> {
    Strings(Walk(v, ""))
  }

  // ---- the strings are all there -----------------------------------------

  /** Some string at some depth below `v`. */
  predicate Leaf(v: Json, s: string) {
    match v
    case Obj(fields) => LeafOfFields(fields, s)
    case Arr(items) => LeafOfItems(items, s)
    case _ => false
  }

  predicate LeafOfFields(fields: seq<Field>, s: string) {
    fields != [] && (fields[0].value == Str(s) || Leaf(fields[0].value, s) || LeafOfFields(fields[1..], s))
  }

  predicate LeafOfItems(items: seq<Json>, s: string) {
    items != [] && (items[0] == Str(s) || Leaf(items[0], s) || LeafOfItems(items[1..], s))
  }

  lemma {:induction false} StringsConcat(xs: seq<Visit>, ys: seq<Visit>)
    ensures Strings(xs + ys) == Strings(xs) + Strings(ys)
  {
    if xs == [] {
      assert xs + ys == ys;
    } else {
      assert (xs + ys)[1..] == xs[1..] + ys;
      StringsConcat(xs[1..], ys);
    }
  }

  lemma VisitStrings(x: Visit, below: seq<Visit>, after: seq<Visit>, s: string)
    ensures s in Strings([x] + below + after) <==> x.1 == Str(s) || s in Strings(below) || s in Strings(after)
  {
    StringsConcat([x] + below, after);
    StringsConcat([x], below);
    assert [x][1..] == [];
  }

  /** The walk meets exactly the string leaves, whatever their depth. */
  lemma {:induction false} WalkFindsLeaves(v: Json, path: string, s: string)
    ensures s in Strings(Walk(v, path)) <==> Leaf(v, s)
    decreases v, 0
  {
    match v
    case Obj(fields) => FieldsFindLeaves(fields, path, s);
    case Arr(items) => ItemsFindLeaves(items, path, 0, s);
    case _ =>
  }

  lemma {:induction false} FieldsFindLeaves(fields: seq<Field>, path: string, s: string)
    ensures s in Strings(WalkFields(fields, path)) <==> LeafOfFields(fields, s)
    decreases fields, 1
  {
    if fields != [] {
      var child := ChildPath(path, fields[0].key);
      VisitStrings((child, fields[0].value), Walk(fields[0].value, child), WalkFields(fields[1..], path), s);
      WalkFindsLeaves(fields[0].value, child, s);
      FieldsFindLeaves(fields[1..], path, s);
    }
  }

  lemma {:induction false} ItemsFindLeaves(items: seq<Json>, path: string, i: nat, s: string)
    ensures s in Strings(WalkItems(items, path, i)) <==> LeafOfItems(items, s)
    decreases items, 1
  {
    if items != [] {
      var child := path + "[" + Decimal(i) + "]";
      VisitStrings((child, items[0]), Walk(items[0], child), WalkItems(items[1..], path, i + 1), s);
      WalkFindsLeaves(items[0], child, s);
      ItemsFindLeaves(items[1..], path, i + 1, s);
    }
  }

  // ---- keys --------------------------------------------------------------

  function KeysOf(v: Json): set<string> {
    match v
    case Obj(fields) => KeysOfFields(fields)
    case Arr(items) => KeysOfItems(items)
    case _ => {}
  }

  function KeysOfFields(fields: seq<Field>): set<string> {
    if fields == [] then {} else {fields[0].key} + KeysOf(fields[0].value) + KeysOfFields(fields[1..])
  }

  function KeysOfItems(items: seq<Json>): set<string> {
    if items == [] then {} else KeysOf(items[0]) + KeysOfItems(items[1..])
  }

  function Size(v: Json): nat {
    1 + match v
      case Obj(fields) => SizeOfFields(fields)
      case Arr(items) => SizeOfItems(items)
      case _ => 0
  }

  function SizeOfFields(fields: seq<Field>): nat {
    if fields == [] then 0 else Size(fields[0].value) + SizeOfFields(fields[1..])
  }

  function SizeOfItems(items: seq<Json>): nat {
    if items == [] then 0 else Size(items[0]) + SizeOfItems(items[1..])
  }

  function Values(fields: seq<Field>): seq<Json> {
    seq(|fields|, i requires 0 <= i < |fields| => fields[i].value)
  }

  function Names(fields: seq<Field>): set<string> {
    set i | 0 <= i < |fields| :: fields[i].key
  }

  lemma {:induction false} FieldsAreValues(fields: seq<Field>)
    ensures KeysOfFields(fields) == Names(fields) + KeysOfItems(Values(fields))
    ensures SizeOfFields(fields) == SizeOfItems(Values(fields))
  {
    if fields != [] {
      FieldsAreValues(fields[1..]);
      assert Values(fields)[1..] == Values(fields[1..]);
      assert Names(fields) == {fields[0].key} + Names(fields[1..]) by {
        forall k | k in Names(fields) ensures k in {fields[0].key} + Names(fields[1..]) {
          var i :| 0 <= i < |fields| && fields[i].key == k;
          assert i > 0 ==> fields[1..][i - 1].key == k;
        }
        forall k | k in Names(fields[1..]) ensures k in Names(fields) {
          var i :| 0 <= i < |fields[1..]| && fields[1..][i].key == k;
          assert fields[i + 1].key == k;
        }
      }
    }
  }

  lemma {:induction false} ItemsConcat(xs: seq<Json>, ys: seq<Json>)
    ensures KeysOfItems(xs + ys) == KeysOfItems(xs) + KeysOfItems(ys)
    ensures SizeOfItems(xs + ys) == SizeOfItems(xs) + SizeOfItems(ys)
  {
    if xs == [] {
      assert xs + ys == ys;
    } else {
      assert (xs + ys)[1..] == xs[1..] + ys;
      ItemsConcat(xs[1..], ys);
    }
  }

  /** `all_keys`: a stack of values still to look into. */
  method AllKeys(payload: Json) returns (out: set<string>)
    ensures out == KeysOf(payload)
  {
    out := {};
    var stack := [payload];
    assert stack[1..] == [];
    while stack != []
      invariant out + KeysOfItems(stack) == KeysOf(payload)
      decreases SizeOfItems(stack)
    {
      var cur, rest := stack[|stack| - 1], stack[..|stack| - 1];
      PopKeys(rest, cur);
      assert stack == rest + [cur];
      stack := rest;
      if cur.Obj? {
        FieldsAreValues(cur.fields);
        ItemsConcat(rest, Values(cur.fields));
        out := out + Names(cur.fields);
        stack := rest + Values(cur.fields);
      } else if cur.Arr? {
        ItemsConcat(rest, cur.items);
        stack := rest + cur.items;
      }
    }
  }

  lemma PopKeys(rest: seq<Json>, cur: Json)
    ensures KeysOfItems(rest + [cur]) == KeysOfItems(rest) + KeysOf(cur)
    ensures SizeOfItems(rest + [cur]) == SizeOfItems(rest) + Size(cur)
  {
    ItemsConcat(rest, [cur]);
    assert [cur][1..] == [];
  }
}
