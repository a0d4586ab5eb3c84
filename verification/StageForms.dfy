/** src/mesh/validator.py, stages 1 to 3: what passes and what fails, for any payload at all,
    said of the values at their places. A place is a list of positions to go down by. */
module StageForms {
  import opened Schemas
  import opened Text
  import opened JsonValues
  import opened Vocabularies
  import opened Validating

  type Steps = seq<nat>

  // ---- places --------------------------------------------------------------

  /** The value at a place. */
  ghost function Reach(v: Json, steps: Steps): Option<Json>
    decreases |steps|
  {
    if steps == [] then Some(v)
    else match v
      case Obj(fields) => if steps[0] < |fields| then Reach(fields[steps[0]].value, steps[1..]) else None
      case Arr(items) => if steps[0] < |items| then Reach(items[steps[0]], steps[1..]) else None
      case _ => None
  }

  /** The path that is written for it: keys after dots, numbers of items in brackets. */
  ghost function Written(v: Json, path: string, steps: Steps): string
    decreases |steps|
  {
    if steps == [] then path
    else match v
      case Obj(fields) =>
        if steps[0] < |fields| then
          Written(fields[steps[0]].value,
                  if path == "" then fields[steps[0]].key else path + "." + fields[steps[0]].key, steps[1..])
        else path
      case Arr(items) =>
        if steps[0] < |items| then Written(items[steps[0]], path + "[" + Decimal(steps[0]) + "]", steps[1..]) else path
      case _ => path
  }

  ghost predicate VisitAt(v: Json, path: string, steps: Steps, x: Visit) {
    steps != [] && Reach(v, steps) == Some(x.1) && Written(v, path, steps) == x.0
  }

  ghost predicate Visited(v: Json, path: string, x: Visit) {
    exists steps :: VisitAt(v, path, steps, x)
  }

  /** Child `i` of the value, and the path written for it. */
  ghost predicate ChildAt(v: Json, path: string, i: nat, child: string, w: Json) {
    || (v.Obj? && i < |v.fields| && w == v.fields[i].value && child == ChildPath(path, v.fields[i].key))
    || (v.Arr? && i < |v.items| && w == v.items[i] && child == ItemPath(path, i))
  }

  ghost predicate VisitsBelow(child: string, w: Json, x: Visit) {
    (x.0 == child && x.1 == w) || Visited(w, child, x)
  }

  lemma StepDown(v: Json, path: string, i: nat, child: string, w: Json, steps: Steps)
    requires ChildAt(v, path, i, child, w)
    ensures Reach(v, [i] + steps) == Reach(w, steps) && Written(v, path, [i] + steps) == Written(w, child, steps)
  {
    assert ([i] + steps)[1..] == steps;
  }

  /** A visit below a child is one below the value. */
  lemma VisitUp(v: Json, path: string, i: nat, child: string, w: Json, x: Visit)
    requires ChildAt(v, path, i, child, w) && VisitsBelow(child, w, x)
    ensures Visited(v, path, x)
  {
    var more: Steps := [];
    if !(x.0 == child && x.1 == w) { more :| VisitAt(w, child, more, x); }
    StepDown(v, path, i, child, w, more);
    assert VisitAt(v, path, [i] + more, x);
  }

  lemma VisitDown(v: Json, path: string, x: Visit) returns (i: nat, child: string, w: Json)
    requires Visited(v, path, x)
    ensures ChildAt(v, path, i, child, w) && VisitsBelow(child, w, x)
  {
    var steps :| VisitAt(v, path, steps, x);
    var more := steps[1..];
    i := steps[0];
    w := if v.Obj? then v.fields[i].value else v.items[i];
    child := if v.Obj? then ChildPath(path, v.fields[i].key) else ItemPath(path, i);
    StepDown(v, path, i, child, w, more);
    assert [i] + more == steps;
    if more != [] { assert VisitAt(w, child, more, x); }
  }

  /** The walk visits exactly the values below, each under its path. */
  lemma {:induction false} VisitsAre(v: Json, path: string, x: Visit)
    ensures x in Walk(v, path) <==> Visited(v, path, x)
    decreases v
  {
    if x in Walk(v, path) { WalkVisits(v, path, x); }
    if Visited(v, path, x) {
      var i, child, w := VisitDown(v, path, x);
      VisitWalks(v, path, i, child, w, x);
    }
  }

  lemma {:induction false} WalkVisits(v: Json, path: string, x: Visit)
    requires x in Walk(v, path)
    ensures Visited(v, path, x)
    decreases v, 0
  {
    if v.Obj? {
      VisitsOfFields(v.fields, path, x);
      var f :| f in v.fields && (x == (ChildPath(path, f.key), f.value) || x in Walk(f.value, ChildPath(path, f.key)));
      var i: nat :| i < |v.fields| && v.fields[i] == f;
      if x in Walk(f.value, ChildPath(path, f.key)) { VisitsAre(f.value, ChildPath(path, f.key), x); }
      VisitUp(v, path, i, ChildPath(path, f.key), f.value, x);
    } else if v.Arr? {
      VisitsOfItems(v.items, path, 0, x);
      var i: nat :| ItemVisit(v.items, path, 0, i, x);
      if x in Walk(v.items[i], ItemPath(path, i)) { VisitsAre(v.items[i], ItemPath(path, i), x); }
      VisitUp(v, path, i, ItemPath(path, i), v.items[i], x);
    }
  }

  lemma {:induction false} VisitWalks(v: Json, path: string, i: nat, child: string, w: Json, x: Visit)
    requires ChildAt(v, path, i, child, w) && VisitsBelow(child, w, x)
    ensures x in Walk(v, path)
    decreases v, 0
  {
    if Visited(w, child, x) { VisitsAre(w, child, x); }
    if v.Obj? {
      VisitsOfFields(v.fields, path, x);
      assert v.fields[i] in v.fields;
    } else {
      VisitsOfItems(v.items, path, 0, x);
      assert ItemVisit(v.items, path, 0, i, x);
    }
  }

  // ---- strings and keys at their places --------------------------------------

  lemma {:induction false} StringsAre(visits: seq<Visit>, s: string)
    ensures s in Strings(visits) <==> exists x :: x in visits && x.1 == Str(s)
  {
    if visits != [] { StringsAre(visits[1..], s); }
  }

  ghost predicate StringAt(v: Json, steps: Steps, s: string) {
    steps != [] && Reach(v, steps) == Some(Str(s))
  }

  lemma StringsSit(v: Json, s: string)
    ensures s in AllStrings(v) <==> exists steps :: StringAt(v, steps, s)
  {
    StringsAre(Walk(v, ""), s);
    if s in AllStrings(v) {
      var x :| x in Walk(v, "") && x.1 == Str(s);
      VisitsAre(v, "", x);
      var steps :| VisitAt(v, "", steps, x);
      assert StringAt(v, steps, s);
    }
    if steps :| StringAt(v, steps, s) {
      var x: Visit := (Written(v, "", steps), Str(s));
      assert VisitAt(v, "", steps, x);
      VisitsAre(v, "", x);
    }
  }

  /** The object at the place has the key. */
  ghost predicate KeyAt(v: Json, steps: Steps, k: string) {
    && Reach(v, steps).Some? && Reach(v, steps).value.Obj?
    && exists f :: f in Reach(v, steps).value.fields && f.key == k
  }

  ghost predicate HasKey(v: Json, k: string) {
    exists steps :: KeyAt(v, steps, k)
  }

  lemma {:induction false} KeysOfEach(items: seq<Json>, k: string)
    ensures k in KeysOfItems(items) <==> exists i :: 0 <= i < |items| && k in KeysOf(items[i])
  {
    if items != [] {
      KeysOfEach(items[1..], k);
      assert forall i :: 0 < i < |items| ==> items[i] == items[1..][i - 1];
    }
  }

  lemma KeyUp(v: Json, i: nat, w: Json, k: string)
    requires (v.Obj? && i < |v.fields| && w == v.fields[i].value) || (v.Arr? && i < |v.items| && w == v.items[i])
    requires HasKey(w, k)
    ensures HasKey(v, k)
  {
    var steps :| KeyAt(w, steps, k);
    assert ([i] + steps)[1..] == steps;
    assert KeyAt(v, [i] + steps, k);
  }

  lemma KeyDown(v: Json, k: string) returns (i: nat)
    requires HasKey(v, k)
    ensures v.Obj? ==> (exists f :: f in v.fields && f.key == k) || (i < |v.fields| && HasKey(v.fields[i].value, k))
    ensures v.Arr? ==> i < |v.items| && HasKey(v.items[i], k)
    ensures v.Obj? || v.Arr?
  {
    i := 0;
    var steps :| KeyAt(v, steps, k);
    if steps != [] {
      i := steps[0];
      if v.Obj? {
        assert KeyAt(v.fields[i].value, steps[1..], k);
      } else if v.Arr? {
        assert KeyAt(v.items[i], steps[1..], k);
      }
    }
  }

  lemma {:induction false} KeysSit(v: Json, k: string)
    ensures k in KeysOf(v) <==> HasKey(v, k)
    decreases v
  {
    if v.Obj? {
      KeysOfParts(v.fields, k);
      forall i | 0 <= i < |v.fields| ensures k in KeysOf(v.fields[i].value) <==> HasKey(v.fields[i].value, k) {
        KeysSit(v.fields[i].value, k);
      }
      KeysSitInFields(v, k);
    } else if v.Arr? {
      KeysOfEach(v.items, k);
      forall i | 0 <= i < |v.items| ensures k in KeysOf(v.items[i]) <==> HasKey(v.items[i], k) {
        KeysSit(v.items[i], k);
      }
      if i :| 0 <= i < |v.items| && HasKey(v.items[i], k) { KeyUp(v, i, v.items[i], k); }
      if HasKey(v, k) { var i := KeyDown(v, k); }
    } else if HasKey(v, k) {
      var i := KeyDown(v, k);
    }
  }

  lemma KeysSitInFields(v: Json, k: string)
    requires v.Obj?
    ensures HasKey(v, k) <==>
      (exists f :: f in v.fields && f.key == k) || exists i :: 0 <= i < |v.fields| && HasKey(v.fields[i].value, k)
  {
    if f :| f in v.fields && f.key == k { assert KeyAt(v, [], k); }
    if i :| 0 <= i < |v.fields| && HasKey(v.fields[i].value, k) { KeyUp(v, i, v.fields[i].value, k); }
    if HasKey(v, k) { var i := KeyDown(v, k); }
  }

  // ---- the forms of labels and placeholders ------------------------------------

  ghost predicate Capitals(s: string) {
    forall c :: c in s ==> 'A' <= c <= 'Z'
  }

  /** Two to eight capitals, an underscore and a capital. */
  ghost predicate LabelOf(t: string, p: string, c: char) {
    t == p + "_" + [c] && 2 <= |p| <= 8 && Capitals(p) && 'A' <= c <= 'Z'
  }

  /** Two to eight capitals, an underscore and one to three digits, in angle brackets. */
  ghost predicate SymbolOf(t: string, p: string, d: string) {
    t == "<" + p + "_" + d + ">" && 2 <= |p| <= 8 && Capitals(p) && 1 <= |d| <= 3 && Digits(d)
  }

  /** With perhaps a line break after it. */
  ghost predicate LabelText(s: string) {
    exists t, p, c :: (s == t || s == t + "\n") && LabelOf(t, p, c)
  }

  ghost predicate PlaceholderText(s: string) {
    exists t, p, d :: (s == t || s == t + "\n") && SymbolOf(t, p, d)
  }

  lemma UnbrokenOf(s: string, t: string)
    requires t != "" && t[|t| - 1] != '\n' && (s == t || s == t + "\n")
    ensures Unbroken(s) == t
  {
  }

  lemma BrokenOr(s: string)
    ensures s == Unbroken(s) || s == Unbroken(s) + "\n"
  {
  }

  lemma LabelParts(t: string)
    ensures IsLabel(t) <==> exists p, c :: LabelOf(t, p, c)
  {
    if IsLabel(t) {
      assert t == t[..|t| - 2] + "_" + [t[|t| - 1]];
      assert LabelOf(t, t[..|t| - 2], t[|t| - 1]);
    }
    if p, c :| LabelOf(t, p, c) { assert t[..|t| - 2] == p; }
  }

  lemma LabelTextIff(s: string)
    ensures IsRefLabel(s) <==> LabelText(s)
  {
    BrokenOr(s);
    LabelParts(Unbroken(s));
    if t, p, c :| (s == t || s == t + "\n") && LabelOf(t, p, c) {
      UnbrokenOf(s, t);
    }
  }

  lemma Pieces(t: string, i: nat)
    requires 0 < i < |t| - 1 && t[0] == '<' && t[i] == '_' && t[|t| - 1] == '>'
    ensures t == "<" + t[1..i] + "_" + t[i + 1..|t| - 1] + ">"
  {
    assert t[..1] == "<" && t[i..i + 1] == "_" && t[|t| - 1..] == ">";
    assert t == t[..1] + t[1..i] + t[i..i + 1] + t[i + 1..|t| - 1] + t[|t| - 1..];
  }

  lemma PiecesOf(p: string, d: string)
    ensures var t := "<" + p + "_" + d + ">"; var i := |p| + 1;
      && |t| == |p| + |d| + 3 && t[0] == '<' && t[i] == '_' && t[|t| - 1] == '>'
      && t[1..i] == p && t[i + 1..|t| - 1] == d
  {
    var t := "<" + p + "_" + d + ">";
    assert t == ("<" + p) + ("_" + d + ">");
    assert t[..|p| + 1] == "<" + p && t[1..|p| + 1] == p;
    assert t == ("<" + p + "_") + (d + ">");
    assert t[|p| + 2..] == d + ">";
  }

  ghost predicate Digits(d: string) {
    forall c :: c in d ==> '0' <= c <= '9'
  }

  ghost predicate SymbolCut(t: string, i: nat) {
    && 3 <= i <= 9 && i + 3 <= |t| <= i + 5 && t[0] == '<' && t[i] == '_' && t[|t| - 1] == '>'
    && Capitals(t[1..i]) && Digits(t[i + 1..|t| - 1])
  }

  lemma UppersAre(s: string)
    ensures AllUpper(s) <==> Capitals(s)
  {
    forall c ensures IsUpper(c) <==> 'A' <= c <= 'Z' { }
  }

  lemma DigitsAre(s: string)
    ensures (forall c :: c in s ==> IsDigit(c)) <==> Digits(s)
  {
    forall c ensures IsDigit(c) <==> '0' <= c <= '9' { }
  }

  lemma CutIs(t: string)
    ensures IsSymbol(t) <==> exists i: nat :: SymbolCut(t, i)
  {
    forall i: nat | 3 <= i <= 9 && i + 3 <= |t| <= i + 5
      ensures AllUpper(t[1..i]) <==> Capitals(t[1..i])
      ensures (forall c :: c in t[i + 1..|t| - 1] ==> IsDigit(c)) <==> Digits(t[i + 1..|t| - 1])
    {
      UppersAre(t[1..i]);
      DigitsAre(t[i + 1..|t| - 1]);
    }
    if IsSymbol(t) {
      var i :| 3 <= i <= 9 && i + 3 <= |t| <= i + 5
        && t[0] == '<' && AllUpper(t[1..i]) && t[i] == '_'
        && (forall c :: c in t[i + 1..|t| - 1] ==> IsDigit(c)) && t[|t| - 1] == '>';
      assert SymbolCut(t, i);
    }
  }

  lemma SymbolHasParts(t: string)
    requires IsSymbol(t)
    ensures exists p, d :: SymbolOf(t, p, d)
  {
    CutIs(t);
    var i: nat :| SymbolCut(t, i);
    Pieces(t, i);
    assert SymbolOf(t, t[1..i], t[i + 1..|t| - 1]);
  }

  lemma PartsMakeSymbol(t: string, p: string, d: string)
    requires SymbolOf(t, p, d)
    ensures IsSymbol(t) && t[|t| - 1] == '>'
  {
    PiecesOf(p, d);
    assert SymbolCut(t, |p| + 1);
    CutIs(t);
  }

  lemma PlaceholderTextIff(s: string)
    ensures IsPlaceholder(s) <==> PlaceholderText(s)
  {
    BrokenOr(s);
    if IsSymbol(Unbroken(s)) { SymbolHasParts(Unbroken(s)); }
    if t, p, d :| (s == t || s == t + "\n") && SymbolOf(t, p, d) {
      PartsMakeSymbol(t, p, d);
      UnbrokenOf(s, t);
    }
  }

  // ---- the stages ---------------------------------------------------------------

  ghost predicate KnownKey(k: string, task: Task) {
    || k == "task" || k == "domain" || k == "entities" || k == "ref" || k == "role" || k == "facts"
    || k == "question_template" || k == "answer_format"
    || (exists s :: s in task.slots && s.name == k)
    || (exists e :: e in task.answers && e.key == k)
    || LabelText(k)
  }

  /** Stage 1 passes just an object without excerpts whose keys, at every place, are structural,
      slots', answers' or labels. */
  lemma SchemaPassedIff(payload: Json, task: Task)
    ensures SchemaPassed(payload, task) <==>
      && payload.Obj? && (forall f :: f in payload.fields ==> f.key != "excerpts")
      && forall steps, k :: KeyAt(payload, steps, k) ==> KnownKey(k, task)
  {
    forall k ensures (k in AllowedKeys(task) || IsRefLabel(k)) <==> KnownKey(k, task) { KnownKeyIs(k, task); }
    forall k ensures k in KeysOf(payload) <==> HasKey(payload, k) { KeysSit(payload, k); }
    if SchemaPassed(payload, task) {
      forall steps, k | KeyAt(payload, steps, k) ensures KnownKey(k, task) {
        assert HasKey(payload, k);
      }
    }
  }

  lemma KnownKeyIs(k: string, task: Task)
    ensures (k in AllowedKeys(task) || IsRefLabel(k)) <==> KnownKey(k, task)
  {
    LabelTextIff(k);
  }

  ghost predicate KnownString(s: string, task: Task, vocab: Vocab) {
    || s in vocab.tasks || s in vocab.domains || s in vocab.templates
    || s in task.roles || (exists e :: e in task.answers && e.text == s)
    || (exists slot :: slot in task.slots && slot.kind.Enum? && s in slot.kind.allowed)
    || LabelText(s) || PlaceholderText(s)
  }

  lemma KnownStringIs(s: string, task: Task, vocab: Vocab)
    ensures OkString(s, task, vocab) <==> KnownString(s, task, vocab)
  {
    LabelTextIff(s);
    PlaceholderTextIff(s);
  }

  /** Stage 2 passes just when every string at every place is in the vocabulary, is a role, an
      answer's text or an allowed value, or has the form of a label or a placeholder. */
  lemma VocabPassedIff(payload: Json, task: Task, vocab: Vocab)
    ensures VocabPassed(payload, task, vocab) <==>
      forall steps, s :: StringAt(payload, steps, s) ==> KnownString(s, task, vocab)
  {
    forall s ensures OkString(s, task, vocab) <==> KnownString(s, task, vocab) { KnownStringIs(s, task, vocab); }
    forall s ensures s in AllStrings(payload) <==> exists steps :: StringAt(payload, steps, s) { StringsSit(payload, s); }
  }

  /** What follows the last dot. */
  ghost predicate LastPart(path: string, t: string) {
    '.' !in t && (path == t || exists a :: path == a + "." + t)
  }

  lemma {:induction false} TailIsLast(path: string)
    ensures LastPart(path, Tail(path))
  {
    if '.' in path {
      TailIsLast(path[1..]);
      var t := Tail(path);
      if path[1..] == t {
        assert path == "" + [path[0]] + t && path[0] == '.';
        assert path == "" + "." + t;
      } else {
        var a :| path[1..] == a + "." + t;
        assert path == ([path[0]] + a) + "." + t;
      }
    }
  }

  lemma {:induction false} NoDotStays(t: string)
    requires '.' !in t
    ensures Tail(t) == t
  {
  }

  lemma LastPartIff(path: string, t: string)
    ensures Tail(path) == t <==> LastPart(path, t)
  {
    TailIsLast(path);
    if LastPart(path, t) {
      NoDotStays(t);
      if path != t {
        var a :| path == a + "." + t;
        TailOfDotted(a, t);
      }
    }
  }

  /** Slot `i` is the first of this name. */
  ghost predicate FirstNamed(slots: seq<Slot>, i: nat, name: string) {
    i < |slots| && slots[i].name == name && forall j :: 0 <= j < i ==> slots[j].name != name
  }

  lemma {:induction false} FindSlotIff(slots: seq<Slot>, name: string, i: nat)
    requires FirstNamed(slots, i, name)
    ensures FindSlot(slots, name) == Some(slots[i])
  {
    if i > 0 {
      assert FirstNamed(slots[1..], i - 1, name) by {
        assert forall j :: 0 <= j < i - 1 ==> slots[1..][j] == slots[j + 1];
      }
      FindSlotIff(slots[1..], name, i - 1);
    }
  }

  lemma NamedFirst(slots: seq<Slot>, name: string) returns (i: nat)
    requires name in SlotNames(slots)
    ensures FirstNamed(slots, i, name)
  {
    for k := 0 to |slots|
      invariant forall j :: 0 <= j < k ==> slots[j].name != name
    {
      if slots[k].name == name { return k; }
    }
    assert false;
  }

  /** An integer within the bounds, a truth value, or any string, as the slot asks. */
  ghost predicate Suits(slot: Slot, v: Json) {
    match slot.kind
    case Range(lo, hi) => exists n :: v == Int(n) && lo <= n <= hi
    case Flag => v == Bool(true) || v == Bool(false)
    case Enum(_) => exists s :: v == Str(s)
  }

  /** The value at the place has a slot's name as the last part of its path, and is no suiting
      value of that slot. */
  ghost predicate Offends(payload: Json, task: Task, steps: Steps, i: nat) {
    && steps != [] && i < |task.slots| && Reach(payload, steps).Some?
    && !Reach(payload, steps).value.Obj? && !Reach(payload, steps).value.Arr?
    && LastPart(Written(payload, "", steps), task.slots[i].name) && FirstNamed(task.slots, i, task.slots[i].name)
    && !Suits(task.slots[i], Reach(payload, steps).value)
  }

  lemma SuitsIff(slot: Slot, v: Json)
    ensures EntryOk(slot, v) <==> Suits(slot, v)
  {
  }

  /** Stage 3 passes just when no value offends. */
  lemma RangesPassedIff(payload: Json, task: Task)
    ensures RangesPassed(payload, task) <==> forall steps, i: nat :: !Offends(payload, task, steps, i)
  {
    if RangesPassed(payload, task) {
      forall steps, i: nat ensures !Offends(payload, task, steps, i) {
        if Offends(payload, task, steps, i) { OffenceFails(payload, task, steps, i); }
      }
    } else {
      var x :| x in Walk(payload, "") && !VisitOk(x, task);
      var steps, i := FailureOffends(payload, task, x);
    }
  }

  lemma OffenceFails(payload: Json, task: Task, steps: Steps, i: nat)
    requires Offends(payload, task, steps, i)
    ensures !RangesPassed(payload, task)
  {
    var x: Visit := (Written(payload, "", steps), Reach(payload, steps).value);
    assert VisitAt(payload, "", steps, x);
    VisitsAre(payload, "", x);
    LastPartIff(x.0, task.slots[i].name);
    FindSlotIff(task.slots, task.slots[i].name, i);
    SuitsIff(task.slots[i], x.1);
    assert task.slots[i] in task.slots;
    assert !VisitOk(x, task);
  }

  lemma FailureOffends(payload: Json, task: Task, x: Visit) returns (steps: Steps, i: nat)
    requires x in Walk(payload, "") && !VisitOk(x, task)
    ensures Offends(payload, task, steps, i)
  {
    VisitsAre(payload, "", x);
    steps :| VisitAt(payload, "", steps, x);
    i := NamedFirst(task.slots, Tail(x.0));
    LastPartIff(x.0, task.slots[i].name);
    FindSlotIff(task.slots, Tail(x.0), i);
    SuitsIff(task.slots[i], x.1);
  }
}
