/** src/mesh/extractor.py, `generate_dynamic_schema`: the in-zone model proposes slots;
    only their form is trusted. */
module Dynamic {
  import opened Schemas
  import opened Ordering
  import opened Normalizing
  import opened JsonValues
  import opened Vocabularies
  import opened Assembling
  import opened Labels
  import opened Batching
  import opened Validating
  import opened Extracting
  import opened PayloadChecks
  import opened Auditing

  const DYN_MAX_SLOTS: nat := 8
  const DYN_MAX_ENUM: nat := 12
  const DYNAMIC := "dynamic"
  const DYN_ANSWERS: seq<Vocabularies.Entry> :=
    [Vocabularies.Entry("key_points", "string[]"), Vocabularies.Entry("conclusion", "string")]

  predicate IsSnake(c: char) {
    'a' <= c <= 'z' || '0' <= c <= '9' || c == '_'
  }

  predicate AllSnake(s: string) {
    forall c :: c in s ==> IsSnake(c)
  }

  /** `^[a-z][a-z0-9_]{1,39}$` */
  predicate IsDynName(s: string) {
    var t := Unbroken(s);
    2 <= |t| <= 40 && 'a' <= t[0] <= 'z' && AllSnake(t)
  }

  /** `^[a-z0-9][a-z0-9_]{0,39}$` */
  predicate IsDynLabel(s: string) {
    var t := Unbroken(s);
    1 <= |t| <= 40 && t[0] != '_' && AllSnake(t)
  }

  /** The strings that are labels, without repetition, first come first kept. */
  function LabelsOf(items: seq<Json>): seq<string> {
    if items == [] then []
    else
      var front, last := LabelsOf(items[..|items| - 1]), items[|items| - 1];
      if last.Str? && IsDynLabel(last.s) && last.s !in front then front + [last.s] else front
  }

  function CoerceAllowed(v: Option<Json>): Option<Kind> {
    if v.None? || !v.value.Arr? then None
    else
      var all := LabelsOf(v.value.items);
      var vals := if |all| > DYN_MAX_ENUM then all[..DYN_MAX_ENUM] else all;
      if |vals| < 2 then None else Some(Enum(vals))
  }

  /** Python's `int(v)`: towards zero; `None` where it raises. */
  function ToInt(v: Json, intOf: string -> Option<int>): Option<int> {
    match v
    case Int(n) => Some(n)
    case Bool(b) => Some(if b then 1 else 0)
    case Real(r) => Some(if r >= 0.0 then r.Floor else -((-r).Floor))
    case Str(s) => intOf(s)
    case _ => None
  }

  function Bound(fields: seq<Field>, key: string, default: int, intOf: string -> Option<int>): Option<int> {
    match Lookup(fields, key)
    case None => Some(default)
    case Some(v) => ToInt(v, intOf)
  }

  function CoerceBounds(fields: seq<Field>, intOf: string -> Option<int>): Option<Kind> {
    var lo, hi := Bound(fields, "min", 0, intOf), Bound(fields, "max", 1000000, intOf);
    if lo.None? || hi.None? then None
    else if lo.value > hi.value then Some(Range(hi.value, lo.value))
    else Some(Range(lo.value, hi.value))
  }

  function CoerceKind(fields: seq<Field>, intOf: string -> Option<int>): Option<Kind> {
    var kind := Lookup(fields, "kind");
    if kind == Some(Str("enum")) then CoerceAllowed(Lookup(fields, "allowed"))
    else if kind == Some(Str("int")) then CoerceBounds(fields, intOf)
    else if kind == Some(Str("bool")) then Some(Flag)
    else None
  }

  /** What the proposal says about being required is overridden in the end. */
  function CoerceSlot(spec: Json, bad: set<string>, intOf: string -> Option<int>): Option<Slot> {
    if !spec.Obj? then None
    else
      var name := Lookup(spec.fields, "name");
      if name.None? || !name.value.Str? || !IsDynName(name.value.s) || name.value.s in bad then None
      else match CoerceKind(spec.fields, intOf)
        case None => None
        case Some(kind) => Some(Slot(name.value.s, kind, false))
  }

  function SlotsOf(specs: seq<Json>, bad: set<string>, intOf: string -> Option<int>): seq<Slot> {
    if specs == [] then []
    else
      var front, last := SlotsOf(specs[..|specs| - 1], bad, intOf), CoerceSlot(specs[|specs| - 1], bad, intOf);
      if last.None? || last.value.name in SlotNames(front) then front else front + [last.value]
  }

  function FirstSpecs(specs: seq<Json>): seq<Json> {
    if |specs| > DYN_MAX_SLOTS then specs[..DYN_MAX_SLOTS] else specs
  }

  lemma OneMoreSpec(specs: seq<Json>, i: nat, bad: set<string>, intOf: string -> Option<int>)
    requires i < |specs|
    ensures var front, last := SlotsOf(specs[..i], bad, intOf), CoerceSlot(specs[i], bad, intOf);
      SlotsOf(specs[..i + 1], bad, intOf)
        == if last.None? || last.value.name in SlotNames(front) then front else front + [last.value]
  {
    assert specs[..i + 1][..i] == specs[..i];
  }

  method CollectSlots(specs: seq<Json>, bad: set<string>, intOf: string -> Option<int>) returns (slots: seq<Slot>)
    ensures slots == SlotsOf(FirstSpecs(specs), bad, intOf)
  {
    slots := [];
    var seen: set<string> := {};
    var first := FirstSpecs(specs);
    for i := 0 to |first|
      invariant slots == SlotsOf(first[..i], bad, intOf) && seen == SlotNames(slots)
    {
      OneMoreSpec(first, i, bad, intOf);
      var slot := CoerceSlot(first[i], bad, intOf);
      if slot.None? || slot.value.name in seen { continue; }
      slots := slots + [slot.value];
      seen := seen + {slot.value.name};
    }
    assert first[..|first|] == first;
  }

  function DynTask(id: string, slots: seq<Slot>): Task {
    Task(id, DYNAMIC, DYNAMIC, DYN_ANSWERS, [DEFAULT_ROLE], slots)
  }

  /** The schema made of a reply; `None` where the source raises. */
  function Generated(reply: Reply<Json>, id: string, bad: set<string>, intOf: string -> Option<int>): Option<Task> {
    if !reply.Answer? || "slots" !in reply.m || !reply.m["slots"].Arr? then None
    else
      var slots := SlotsOf(FirstSpecs(reply.m["slots"].items), bad, intOf);
      if slots == [] then None else Some(DynTask(id, slots))
  }

  // ---- well-formed -------------------------------------------------------

  ghost predicate SlotOk(s: Slot, bad: set<string>) {
    && IsDynName(s.name) && s.name !in bad && !s.required
    && match s.kind
       case Enum(allowed) =>
         2 <= |allowed| <= DYN_MAX_ENUM && Distinct(allowed) && forall v :: v in allowed ==> IsDynLabel(v)
       case Range(lo, hi) => lo <= hi
       case Flag => true
  }

  lemma {:induction false} LabelsAre(items: seq<Json>)
    ensures Distinct(LabelsOf(items)) && forall v :: v in LabelsOf(items) ==> IsDynLabel(v)
  {
    if items != [] { LabelsAre(items[..|items| - 1]); }
  }

  lemma CoercedOk(spec: Json, bad: set<string>, intOf: string -> Option<int>)
    ensures CoerceSlot(spec, bad, intOf).Some? ==> SlotOk(CoerceSlot(spec, bad, intOf).value, bad)
  {
    if spec.Obj? {
      var allowed := Lookup(spec.fields, "allowed");
      if allowed.Some? && allowed.value.Arr? { LabelsAre(allowed.value.items); }
    }
  }

  lemma {:induction false} SlotsAre(specs: seq<Json>, bad: set<string>, intOf: string -> Option<int>)
    ensures DistinctNames(SlotsOf(specs, bad, intOf)) && |SlotsOf(specs, bad, intOf)| <= |specs|
    ensures forall s :: s in SlotsOf(specs, bad, intOf) ==> SlotOk(s, bad)
  {
    if specs != [] {
      SlotsAre(specs[..|specs| - 1], bad, intOf);
      CoercedOk(specs[|specs| - 1], bad, intOf);
    }
  }

  /** Every schema that comes out is well formed, whatever was proposed: at most eight
      slots, of distinct names that are neither structural nor forbidden in the audit
      log, with two to twelve distinct labels or ordered bounds. */
  lemma GeneratedWellFormed(reply: Reply<Json>, id: string, bad: set<string>, intOf: string -> Option<int>, task: Task)
    requires Generated(reply, id, bad, intOf) == Some(task)
    ensures task == DynTask(id, task.slots) && 0 < |task.slots| <= DYN_MAX_SLOTS && DistinctNames(task.slots)
    ensures forall s :: s in task.slots ==> SlotOk(s, bad)
  {
    SlotsAre(FirstSpecs(reply.m["slots"].items), bad, intOf);
  }

  // ---- what is extracted with it -----------------------------------------

  /** `_vocab_for`: the vocabulary with the schema's own names. */
  function MergedVocab(vocab: Vocab, task: Task): Vocab {
    Vocab(vocab.tasks + {task.id}, vocab.domains + {task.domain}, vocab.templates + {task.template})
  }

  /** Lower case as far as ASCII goes. */
  ghost predicate AsciiLower(f: Lowering) {
    && (forall c :: IsSnake(c) ==> f(c) == [c])
    && (forall c :: IsUpper(c) ==> |f(c)| == 1)
    && f('\n') == "\n"
  }

  lemma {:induction false} LowerSnake(s: string, f: Lowering)
    requires AsciiLower(f) && AllSnake(s)
    ensures Lower(s, f) == s
  {
    if s != "" {
      LowerSnake(s[1..], f);
      assert IsSnake(s[0]) && f(s[0]) == [s[0]];
      assert [s[0]] + s[1..] == s;
    }
  }

  /** A line break at the end stays. */
  lemma LowerBroken(s: string, f: Lowering)
    requires AsciiLower(f)
    ensures Lower(s, f) == Lower(Unbroken(s), f) + if Unbroken(s) == s then "" else "\n"
  {
    if Unbroken(s) != s {
      assert s == Unbroken(s) + ['\n'];
      LowerConcat(Unbroken(s), ['\n'], f);
      LowerOne('\n', f);
    }
  }

  lemma LowerLabel(k: string, f: Lowering)
    requires AsciiLower(f) && IsLabel(k)
    ensures SecondToLast(Lower(k, f), '_')
  {
    var p, x := k[..|k| - 2], k[|k| - 1];
    assert k == p + ['_'] + [x];
    LowerConcat(p + ['_'], [x], f);
    LowerConcat(p, ['_'], f);
    LowerOne('_', f);
    LowerOne(x, f);
  }

  lemma LowerOne(c: char, f: Lowering)
    ensures Lower([c], f) == f(c)
  {
    assert [c][1..] == "";
  }

  predicate SecondToLast(x: string, c: char) {
    |x| >= 2 && x[|x| - 2] == c
  }

  lemma NoForbiddenLabel()
    ensures forall x :: x in FORBIDDEN_LOG_KEYS ==> !SecondToLast(x, '_') && Unbroken(x) == x
  {
  }

  const FRAME_KEYS: set<string> := STRUCTURAL_KEYS + {"key_points", "conclusion"}

  lemma FrameNotForbidden()
    ensures FRAME_KEYS !! FORBIDDEN_LOG_KEYS
  {
  }

  lemma FrameIsSnake()
    ensures forall k :: k in FRAME_KEYS ==> AllSnake(k)
  {
  }

  /** Lowering a name changes nothing. */
  lemma LowerName(k: string, f: Lowering)
    requires AsciiLower(f) && AllSnake(Unbroken(k))
    ensures Lower(k, f) == k
  {
    LowerBroken(k, f);
    LowerSnake(Unbroken(k), f);
  }

  lemma LoweredLabelFree(low: string, bad: set<string>)
    requires SecondToLast(low, '_') && forall x :: x in bad ==> !SecondToLast(x, '_') && Unbroken(x) == x
    ensures low !in bad && low + "\n" !in bad
  {
    assert Unbroken(low + "\n") == low;
  }

  lemma LabelNotForbidden(k: string, f: Lowering)
    requires AsciiLower(f) && IsRefLabel(k)
    ensures !Forbidden(k, FORBIDDEN_LOG_KEYS, f)
  {
    LowerLabel(Unbroken(k), f);
    LowerBroken(k, f);
    NoForbiddenLabel();
    LoweredLabelFree(Lower(Unbroken(k), f), FORBIDDEN_LOG_KEYS);
  }

  lemma FrameKeyNotForbidden(k: string, f: Lowering)
    requires AsciiLower(f) && k in FRAME_KEYS
    ensures !Forbidden(k, FORBIDDEN_LOG_KEYS, f)
  {
    FrameNotForbidden();
    FrameIsSnake();
    LowerSnake(k, f);
  }

  lemma KeyNotForbidden(k: string, f: Lowering)
    requires AsciiLower(f)
    requires k in FRAME_KEYS || IsRefLabel(k) || (IsDynName(k) && k !in FORBIDDEN_LOG_KEYS)
    ensures !Forbidden(k, FORBIDDEN_LOG_KEYS, f)
  {
    if k in FRAME_KEYS {
      FrameKeyNotForbidden(k, f);
    } else if IsRefLabel(k) {
      LabelNotForbidden(k, f);
    } else {
      LowerName(k, f);
    }
  }

  /** The keys of a payload of a dynamic schema. */
  lemma DynKeys(task: Task, bad: set<string>, payload: Json, k: string)
    requires task == DynTask(task.id, task.slots) && forall s :: s in task.slots ==> SlotOk(s, bad)
    requires SchemaPassed(payload, task) && k in KeysOf(payload)
    ensures k in FRAME_KEYS || IsRefLabel(k) || (IsDynName(k) && k !in bad)
  {
    if k in SlotNames(task.slots) {
      var s :| s in task.slots && s.name == k;
      assert SlotOk(s, bad);
    }
  }

  // ---- and how big it is -------------------------------------------------

  lemma {:induction false} PutSize(fields: seq<Field>, key: string, value: Json)
    ensures |Put(fields, key, value)| <= |fields| + 1
  {
    if fields != [] && fields[0].key != key { PutSize(fields[1..], key, value); }
  }

  lemma {:induction false} AssembledCount(raw: map<string, Json>, slots: seq<Slot>, env: Env)
    ensures |Assembled(raw, slots, env)| <= |slots|
  {
    if slots != [] {
      var front, slot := Assembled(raw, slots[..|slots| - 1], env), slots[|slots| - 1];
      AssembledCount(raw, slots[..|slots| - 1], env);
      if Slotted(raw, slot, env).Some? { PutSize(front, slot.name, Slotted(raw, slot, env).value); }
    }
  }

  lemma OneMoreTimes(n: nat, each: nat)
    ensures n * each + each == (n + 1) * each
  {
  }

  /** Fields whose values have at most `each` values in all. */
  lemma {:induction false} FieldsSize(fields: seq<Field>, each: nat)
    requires forall f :: f in fields ==> Size(f.value) <= each
    ensures SizeOfFields(fields) <= |fields| * each
  {
    if fields != [] {
      FieldsSize(fields[1..], each);
      OneMoreTimes(|fields| - 1, each);
      assert fields[0] in fields;
    }
  }

  lemma {:induction false} EntitiesSize(assigns: seq<Assignment>, facts: seq<Field>)
    ensures SizeOfItems(Entities(assigns, facts)) <= 3 * |assigns|
  {
    if assigns != [] {
      EntitiesSize(assigns[1..], facts);
      if assigns[0].ref in Keys(facts) {
        EntitySize(assigns[0], Entities(assigns[1..], facts));
      } else {
        assert Entities(assigns, facts) == Entities(assigns[1..], facts);
      }
    }
  }

  lemma EntitySize(a: Assignment, rest: seq<Json>)
    ensures SizeOfItems([EntityObject(a)] + rest) == 3 + SizeOfItems(rest)
  {
    var e := EntityObject(a);
    assert ([e] + rest)[1..] == rest;
    FieldsSize(e.fields, 1);
    assert e.fields[1..] == [Field("role", Str(a.role))] && e.fields[1..][1..] == [];
  }

  lemma {:induction false} FactsCount(assigns: seq<Assignment>, filled: seq<seq<Field>>, n: nat, most: nat)
    requires n <= |assigns| && n <= |filled| && forall d :: 0 <= d < |filled| ==> |filled[d]| <= most
    ensures |FactsOf(assigns, filled, n)| <= n
    ensures forall f :: f in FactsOf(assigns, filled, n) ==> f.value.Obj? && |f.value.fields| <= most
  {
    if n > 0 {
      FactsCount(assigns, filled, n - 1, most);
      PutSize(FactsOf(assigns, filled, n - 1), assigns[n - 1].ref, Obj(filled[n - 1]));
      PutIs(FactsOf(assigns, filled, n - 1), assigns[n - 1].ref, Obj(filled[n - 1]));
    }
  }

  lemma FactSize(slots: seq<Slot>, labels: set<string>, f: Field, most: nat)
    requires FactFits(slots, labels, f) && |f.value.fields| <= most
    ensures Size(f.value) <= 1 + most
  {
    forall g | g in f.value.fields ensures Size(g.value) <= 1 { assert FitsSome(slots, g); }
    FieldsSize(f.value.fields, 1);
  }

  lemma FactsSize(slots: seq<Slot>, labels: set<string>, facts: seq<Field>, most: nat)
    requires FactsFit(slots, labels, facts) && forall f :: f in facts ==> f.value.Obj? && |f.value.fields| <= most
    ensures SizeOfFields(facts) <= |facts| * (1 + most)
  {
    forall f | f in facts ensures Size(f.value) <= 1 + most {
      assert FactFits(slots, labels, f);
      FactSize(slots, labels, f, most);
    }
    FieldsSize(facts, 1 + most);
  }

  lemma DynFieldSize(task: Task, assigns: seq<Assignment>, facts: seq<Field>, f: Field, each: nat)
    requires f in BuildPayload(task, assigns, facts).fields
    requires SizeOfItems(Entities(assigns, facts)) < each && SizeOfFields(facts) < each
    requires SizeOfFields(AnswerFormat(task.answers)) < each
    ensures Size(f.value) <= each
  {
  }

  lemma DynPayloadSize(task: Task, assigns: seq<Assignment>, facts: seq<Field>)
    requires task.answers == DYN_ANSWERS && |assigns| <= MAX_REFS && SizeOfFields(facts) <= 9 * MAX_REFS
    ensures Size(BuildPayload(task, assigns, facts)) <= 10000
  {
    var each, payload := 9 * MAX_REFS + 1, BuildPayload(task, assigns, facts);
    EntitiesSize(assigns, facts);
    FieldsSize(AnswerFormat(task.answers), 1);
    forall f | f in payload.fields ensures Size(f.value) <= each { DynFieldSize(task, assigns, facts, f, each); }
    FieldsSize(payload.fields, each);
    assert |payload.fields| == 6;
  }

  /** With one role only, as many documents as there are suffixes. */
  lemma {:induction false} OneRoleCount(i: nat)
    ensures RoleCount([DEFAULT_ROLE], DEFAULT_ROLE, i) == i
  {
    if i > 0 { OneRoleCount(i - 1); }
  }

  lemma DynDocuments(chunks: seq<Chunk>, upper: string -> string)
    requires Assigned(chunks, [DEFAULT_ROLE], upper).Some?
    ensures |Assigned(chunks, [DEFAULT_ROLE], upper).value| <= MAX_REFS
  {
    var n := |Assigned(chunks, [DEFAULT_ROLE], upper).value|;
    if n > 0 {
      OneRoleCount(n);
      assert NumberOf([DEFAULT_ROLE], n - 1) == n;
    }
  }

  lemma MergedFrameOk(task: Task, vocab: Vocab)
    ensures FrameOk(task, MergedVocab(vocab, task))
  {
  }

  lemma DynKeysAllowed(task: Task, payload: Json, f: Lowering)
    requires task == DynTask(task.id, task.slots) && AsciiLower(f) && SchemaPassed(payload, task)
    requires forall s :: s in task.slots ==> SlotOk(s, STRUCTURAL_KEYS + FORBIDDEN_LOG_KEYS)
    ensures NoneForbidden(KeysOf(payload), FORBIDDEN_LOG_KEYS, f)
  {
    forall k | k in KeysOf(payload) ensures !Forbidden(k, FORBIDDEN_LOG_KEYS, f) {
      DynKeys(task, STRUCTURAL_KEYS + FORBIDDEN_LOG_KEYS, payload, k);
      KeyNotForbidden(k, f);
    }
  }

  /** Whatever the model proposed and whatever it then filled in, a payload extracted with
      a generated schema passes stages 1 and 2 under the merged vocabulary, and the audit
      log accepts it. */
  lemma DynamicPayloadPasses(reply: Reply<Json>, id: string, intOf: string -> Option<int>, task: Task, vocab: Vocab,
                             chunks: seq<Chunk>, ask: Answers, env: Env, e: Outcome)
    requires Generated(reply, id, STRUCTURAL_KEYS + FORBIDDEN_LOG_KEYS, intOf) == Some(task) && AsciiLower(env.lower)
    requires e == ExtractionOf(chunks, task, ask, env) && e.Extraction?
    ensures SchemaPassed(e.payload, task) && VocabPassed(e.payload, task, MergedVocab(vocab, task))
    ensures Size(e.payload) <= 10000 && NoneForbidden(KeysOf(e.payload), FORBIDDEN_LOG_KEYS, env.lower)
  {
    GeneratedWellFormed(reply, id, STRUCTURAL_KEYS + FORBIDDEN_LOG_KEYS, intOf, task);
    MergedFrameOk(task, vocab);
    ExtractionPasses(chunks, task, ask, env, MergedVocab(vocab, task), e);
    DynKeysAllowed(task, e.payload, env.lower);
    DynSize(chunks, task, ask, env, e);
  }

  lemma DynSize(chunks: seq<Chunk>, task: Task, ask: Answers, env: Env, e: Outcome)
    requires task == DynTask(task.id, task.slots) && |task.slots| <= DYN_MAX_SLOTS
    requires e == ExtractionOf(chunks, task, ask, env) && e.Extraction?
    ensures Size(e.payload) <= 10000
  {
    ExtractionShape(chunks, task, ask, env, e);
    SizeOfShape(chunks, task, ask, env, e.assigns, e.facts);
  }

  lemma SizeOfShape(chunks: seq<Chunk>, task: Task, ask: Answers, env: Env, assigns: seq<Assignment>, facts: seq<Field>)
    requires task == DynTask(task.id, task.slots) && |task.slots| <= DYN_MAX_SLOTS
    requires Assigned(chunks, task.roles, env.upper) == Some(assigns) && FactsFit(task.slots, RefsOf(assigns), facts)
    requires facts == FactsOf(assigns, FilledAll(ask, |assigns|, task.slots, env), |assigns|)
    ensures Size(BuildPayload(task, assigns, facts)) <= 10000
  {
    DynDocuments(chunks, env.upper);
    DynFactsSize(task.slots, assigns, facts, ask, env);
    DynPayloadSize(task, assigns, facts);
  }

  lemma DynFactsSize(slots: seq<Slot>, assigns: seq<Assignment>, facts: seq<Field>, ask: Answers, env: Env)
    requires |slots| <= DYN_MAX_SLOTS && |assigns| <= MAX_REFS && FactsFit(slots, RefsOf(assigns), facts)
    requires facts == FactsOf(assigns, FilledAll(ask, |assigns|, slots, env), |assigns|)
    ensures SizeOfFields(facts) <= 9 * MAX_REFS
  {
    var n, filled := |assigns|, FilledAll(ask, |assigns|, slots, env);
    forall d | 0 <= d < |filled| ensures |filled[d]| <= DYN_MAX_SLOTS { FilledCount(ask, d, slots, env); }
    FactsCount(assigns, filled, n, DYN_MAX_SLOTS);
    FactsSize(slots, RefsOf(assigns), facts, DYN_MAX_SLOTS);
    assert |facts| * (1 + DYN_MAX_SLOTS) <= 9 * MAX_REFS;
  }

  lemma FilledCount(ask: Answers, d: nat, slots: seq<Slot>, env: Env)
    ensures |FilledBy(ask, d, slots, env)| <= |slots|
  {
    var batches := Batches(slots);
    AssembledCount(Merged(ask, Calls(d, |batches|), batches, |batches|), slots, env);
  }

  lemma SnakeHasNoDot(s: string)
    requires AllSnake(Unbroken(s))
    ensures '.' !in s
  {
    assert !IsSnake('.');
    forall i | 0 <= i < |s| ensures s[i] != '.' {
      if i < |Unbroken(s)| { assert s[i] in Unbroken(s); }
    }
  }

  lemma DynWellNamed(task: Task, bad: set<string>)
    requires DistinctNames(task.slots) && STRUCTURAL_KEYS <= bad && forall s :: s in task.slots ==> SlotOk(s, bad)
    ensures WellNamed(task.slots)
  {
    forall s | s in task.slots ensures '.' !in s.name && s.name !in STRUCTURAL_KEYS {
      assert SlotOk(s, bad);
      SnakeHasNoDot(s.name);
    }
  }

  lemma AnswerTails()
    ensures Tail("key_points") == "key_points" && Tail("conclusion") == "conclusion"
  {
    assert '.' !in "key_points" && '.' !in "conclusion";
  }

  /** The form of names does not keep a slot from being called like a key of the fixed
      answer format. */
  ghost predicate AnswerNamesAreEnums(slots: seq<Slot>) {
    forall s :: s in slots && (s.name == "key_points" || s.name == "conclusion") ==> s.kind.Enum?
  }

  lemma DynAnswersIff(task: Task)
    requires task.answers == DYN_ANSWERS
    ensures AnswersAreEnums(task) <==> AnswerNamesAreEnums(task.slots)
  {
    AnswerTails();
    var k, c := DYN_ANSWERS[0], DYN_ANSWERS[1];
    assert k in DYN_ANSWERS && c in DYN_ANSWERS;
    assert Tail(k.key) == "key_points" && Tail(c.key) == "conclusion";
    forall e | e in task.answers ensures e == k || e == c { }
  }

  /** Stage 3, then: passed exactly when every integer is within its slot's bounds and a
      slot called `key_points` or `conclusion`, if there is one, is an enum. An integer or
      boolean slot of that name fails every payload of its schema. */
  lemma DynamicRangesIff(reply: Reply<Json>, id: string, intOf: string -> Option<int>, task: Task,
                         chunks: seq<Chunk>, ask: Answers, env: Env, e: Outcome)
    requires Generated(reply, id, STRUCTURAL_KEYS + FORBIDDEN_LOG_KEYS, intOf) == Some(task)
    requires e == ExtractionOf(chunks, task, ask, env) && e.Extraction?
    ensures RangesPassed(e.payload, task) <==> AllInBounds(task.slots, e.facts) && AnswerNamesAreEnums(task.slots)
  {
    GeneratedWellFormed(reply, id, STRUCTURAL_KEYS + FORBIDDEN_LOG_KEYS, intOf, task);
    DynWellNamed(task, STRUCTURAL_KEYS + FORBIDDEN_LOG_KEYS);
    ExtractionShape(chunks, task, ask, env, e);
    RangeStageNamed(task, e.assigns, e.facts);
    DynAnswersIff(task);
  }

  lemma SnakeWords()
    ensures AllSnake("key_points") && AllSnake("conclusion")
  {
  }

  /** Both names have the form that is asked for, and neither is reserved. */
  lemma AnswerNamesAllowed()
    ensures IsDynName("key_points") && "key_points" !in STRUCTURAL_KEYS + FORBIDDEN_LOG_KEYS
    ensures IsDynName("conclusion") && "conclusion" !in STRUCTURAL_KEYS + FORBIDDEN_LOG_KEYS
  {
    SnakeWords();
    FrameNotForbidden();
    assert "key_points" in FRAME_KEYS && "conclusion" in FRAME_KEYS;
  }
}
