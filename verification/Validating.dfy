/** src/mesh/validator.py, stages 1 to 3 for structured payloads: keys, strings and
    ranges, each over the whole tree. */
module Validating {
  import opened Schemas
  import Text
  import opened JsonValues
  import opened Vocabularies

  const EXCERPTS_KEY := "excerpts"

  predicate IsUpper(c: char) { 'A' <= c <= 'Z' }

  predicate AllUpper(s: string) {
    forall c :: c in s ==> IsUpper(c)
  }

  /** Python's `$` also matches before a line break at the very end. */
  function Unbroken(s: string): string {
    if s != "" && s[|s| - 1] == '\n' then s[..|s| - 1] else s
  }

  predicate IsLabel(s: string) {
    && 4 <= |s| <= 10 && s[|s| - 2] == '_' && IsUpper(s[|s| - 1]) && AllUpper(s[..|s| - 2])
  }

  /** `^[A-Z]{2,8}_[A-Z]$` */
  predicate IsRefLabel(s: string) {
    IsLabel(Unbroken(s))
  }

  predicate IsDigit(c: char) { '0' <= c <= '9' }

  predicate IsSymbol(s: string) {
    exists i :: 3 <= i <= 9 && i + 3 <= |s| <= i + 5
      && s[0] == '<' && AllUpper(s[1..i]) && s[i] == '_'
      && (forall c :: c in s[i + 1..|s| - 1] ==> IsDigit(c)) && s[|s| - 1] == '>'
  }

  /** `^<[A-Z]{2,8}_\d{1,3}>$` */
  predicate IsPlaceholder(s: string) {
    IsSymbol(Unbroken(s))
  }

  // ---- stage 1 -----------------------------------------------------------

  function AllowedKeys(task: Task): set<string> {
    STRUCTURAL_KEYS + SlotNames(task.slots) + (set e | e in task.answers :: e.key)
  }

  /** `check_schema`: an object, without excerpts, of registered keys and labels. */
  predicate SchemaPassed(payload: Json, task: Task) {
    && payload.Obj?
    && (forall f :: f in payload.fields ==> f.key != EXCERPTS_KEY)
    && forall k :: k in KeysOf(payload) ==> k in AllowedKeys(task) || IsRefLabel(k)
  }

  // ---- stage 2 -----------------------------------------------------------

  function AllowedStrings(task: Task, vocab: Vocab): set<string> {
    vocab.tasks + vocab.domains + vocab.templates
    + (set r | r in task.roles) + (set e | e in task.answers :: e.text)
    + (set s, v | s in task.slots && s.kind.Enum? && v in s.kind.allowed :: v)
  }

  predicate OkString(s: string, task: Task, vocab: Vocab) {
    s in AllowedStrings(task, vocab) || IsRefLabel(s) || IsPlaceholder(s)
  }

  predicate VocabPassed(payload: Json, task: Task, vocab: Vocab) {
    forall s :: s in AllStrings(payload) ==> OkString(s, task, vocab)
  }

  // ---- stage 3 -----------------------------------------------------------

  /** `path.rsplit(".", 1)[-1]` */
  function Tail(path: string): string {
    if '.' in path then Tail(path[1..]) else path
  }

  predicate IsScalar(v: Json) { !v.Obj? && !v.Arr? }

  predicate EntryOk(slot: Slot, v: Json) {
    match slot.kind
    case Range(lo, hi) => v.Int? && lo <= v.n <= hi
    case Flag => v.Bool?
    case Enum(_) => v.Str?
  }

  /** A value whose path ends in a slot's name is that slot's, wherever it is. */
  predicate VisitOk(x: Visit, task: Task) {
    Tail(x.0) in SlotNames(task.slots) && IsScalar(x.1) ==>
      match FindSlot(task.slots, Tail(x.0))
      case Some(slot) => EntryOk(slot, x.1)
      case None => true
  }

  predicate RangesPassed(payload: Json, task: Task) {
    forall x :: x in Walk(payload, "") ==> VisitOk(x, task)
  }

  // ---- trees by their parts ----------------------------------------------

  lemma {:induction false} LeavesOfFields(fields: seq<Field>, s: string)
    ensures LeafOfFields(fields, s) <==> exists f :: f in fields && (f.value == Str(s) || Leaf(f.value, s))
  {
    if fields != [] {
      LeavesOfFields(fields[1..], s);
      assert fields[0] in fields && forall f :: f in fields <==> f == fields[0] || f in fields[1..];
    }
  }

  lemma {:induction false} KeysOfParts(fields: seq<Field>, k: string)
    ensures k in KeysOfFields(fields) <==> exists f :: f in fields && (f.key == k || k in KeysOf(f.value))
  {
    if fields != [] {
      KeysOfParts(fields[1..], k);
      assert fields[0] in fields && forall f :: f in fields <==> f == fields[0] || f in fields[1..];
    }
  }

  lemma {:induction false} VisitsOfFields(fields: seq<Field>, path: string, x: Visit)
    ensures x in WalkFields(fields, path) <==> exists f ::
      f in fields && (x == (ChildPath(path, f.key), f.value) || x in Walk(f.value, ChildPath(path, f.key)))
  {
    if fields != [] {
      VisitsOfFields(fields[1..], path, x);
      assert fields[0] in fields && forall f :: f in fields <==> f == fields[0] || f in fields[1..];
    }
  }

  function ItemPath(path: string, i: nat): string {
    path + "[" + Text.Decimal(i) + "]"
  }

  /** The visits of one item. */
  predicate ItemVisit(items: seq<Json>, path: string, at: nat, i: nat, x: Visit) {
    i < |items| && (x == (ItemPath(path, at + i), items[i]) || x in Walk(items[i], ItemPath(path, at + i)))
  }

  lemma ItemVisitNext(items: seq<Json>, path: string, at: nat, i: nat, x: Visit)
    requires items != []
    ensures ItemVisit(items, path, at, i + 1, x) <==> ItemVisit(items[1..], path, at + 1, i, x)
  {
    assert at + (i + 1) == at + 1 + i;
  }

  lemma {:induction false} VisitsOfItems(items: seq<Json>, path: string, at: nat, x: Visit)
    ensures x in WalkItems(items, path, at) <==> exists i: nat :: ItemVisit(items, path, at, i, x)
  {
    if items != [] {
      var rest, next := items[1..], at + 1;
      VisitsOfItems(rest, path, next, x);
      assert x in WalkItems(items, path, at) <==> ItemVisit(items, path, at, 0, x) || x in WalkItems(rest, path, next);
      if i: nat :| ItemVisit(rest, path, next, i, x) { ItemVisitNext(items, path, at, i, x); }
      if i: nat :| ItemVisit(items, path, at, i, x) {
        if i > 0 { ItemVisitNext(items, path, at, i - 1, x); }
      }
    }
  }

  // ---- the end of a path -------------------------------------------------

  lemma {:induction false} TailOfDotted(p: string, s: string)
    ensures Tail(p + "." + s) == Tail(s)
  {
    var all := p + "." + s;
    assert all[|p|] == '.';
    if p == "" {
      assert all[1..] == s;
    } else {
      assert all[1..] == p[1..] + "." + s;
      TailOfDotted(p[1..], s);
    }
  }

  lemma TailOfChild(path: string, key: string)
    ensures Tail(ChildPath(path, key)) == Tail(key)
  {
    if path != "" { TailOfDotted(path, key); }
  }
}
