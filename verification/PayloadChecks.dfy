/** What the assembling side puts together against what the checking side goes over: for
    every answer of the in-zone model, the outcome of stages 1 to 3. */
module PayloadChecks {
  import opened Schemas
  import opened JsonValues
  import opened Vocabularies
  import opened Assembling
  import opened Labels
  import opened Batching
  import opened Validating
  import opened Extracting

  // ---- what assembled facts are ------------------------------------------

  /** A label and an object of slots with fitting values. */
  ghost predicate FactFits(slots: seq<Slot>, labels: set<string>, f: Field) {
    f.key in labels && f.value.Obj? && forall g :: g in f.value.fields ==> FitsSome(slots, g)
  }

  ghost predicate FactsFit(slots: seq<Slot>, labels: set<string>, facts: seq<Field>) {
    forall f :: f in facts ==> FactFits(slots, labels, f)
  }

  function RefsOf(assigns: seq<Assignment>): set<string> {
    set a | a in assigns :: a.ref
  }

  lemma {:induction false} FactsOfFit(assigns: seq<Assignment>, filled: seq<seq<Field>>, n: nat, slots: seq<Slot>)
    requires n <= |assigns| && n <= |filled|
    requires forall d, g :: 0 <= d < n && g in filled[d] ==> FitsSome(slots, g)
    ensures FactsFit(slots, RefsOf(assigns), FactsOf(assigns, filled, n))
  {
    if n > 0 {
      FactsOfFit(assigns, filled, n - 1, slots);
      PutIs(FactsOf(assigns, filled, n - 1), assigns[n - 1].ref, Obj(filled[n - 1]));
      assert assigns[n - 1] in assigns;
      assert FactFits(slots, RefsOf(assigns), Field(assigns[n - 1].ref, Obj(filled[n - 1])));
    }
  }

  lemma FilledFit(ask: Answers, d: nat, slots: seq<Slot>, env: Env)
    ensures forall g :: g in FilledBy(ask, d, slots, env) ==> FitsSome(slots, g)
  {
    var batches := Batches(slots);
    AssembledFits(Merged(ask, Calls(d, |batches|), batches, |batches|), slots, env);
  }

  /** Assignments as `assign_refs` makes them. */
  ghost predicate AssignsFit(roles: seq<string>, assigns: seq<Assignment>) {
    forall a :: a in assigns ==> IsRefLabel(a.ref) && a.role in RolesOf(roles)
  }

  lemma AssignedFit(chunks: seq<Chunk>, roles: seq<string>, upper: string -> string)
    requires Assigned(chunks, roles, upper).Some?
    ensures AssignsFit(roles, Assigned(chunks, roles, upper).value)
  {
    var assigns, used := Assigned(chunks, roles, upper).value, RolesOf(roles);
    forall a | a in assigns ensures IsRefLabel(a.ref) && a.role in used {
      var i: nat :| i < |assigns| && assigns[i] == a;
      RefIsLabel(used, i, upper);
    }
  }

  // ---- stage 1 -----------------------------------------------------------

  lemma {:induction false} EntityKeys(assigns: seq<Assignment>, facts: seq<Field>, k: string)
    requires k in KeysOfItems(Entities(assigns, facts))
    ensures k == "ref" || k == "role"
  {
    var rest := Entities(assigns[1..], facts);
    if assigns[0].ref in Keys(facts) {
      var e := EntityObject(assigns[0]);
      assert Entities(assigns, facts) == [e] + rest;
      assert ([e] + rest)[1..] == rest;
      KeysOfParts(e.fields, k);
      if k in KeysOfItems(rest) { EntityKeys(assigns[1..], facts, k); }
    } else {
      assert Entities(assigns, facts) == rest;
      EntityKeys(assigns[1..], facts, k);
    }
  }

  lemma FactKeys(slots: seq<Slot>, labels: set<string>, facts: seq<Field>, k: string)
    requires FactsFit(slots, labels, facts) && k in KeysOfFields(facts)
    ensures k in labels || k in SlotNames(slots)
  {
    KeysOfParts(facts, k);
    var f :| f in facts && (f.key == k || k in KeysOf(f.value));
    assert FactFits(slots, labels, f);
    if f.key != k {
      KeysOfParts(f.value.fields, k);
      var g :| g in f.value.fields && (g.key == k || k in KeysOf(g.value));
      assert FitsSome(slots, g);
    }
  }

  lemma AnswerKeys(answers: seq<Vocabularies.Entry>, k: string)
    requires k in KeysOfFields(AnswerFormat(answers))
    ensures k in set e | e in answers :: e.key
  {
    KeysOfParts(AnswerFormat(answers), k);
    var f :| f in AnswerFormat(answers) && (f.key == k || k in KeysOf(f.value));
    var i :| 0 <= i < |answers| && AnswerFormat(answers)[i] == f;
    assert answers[i] in answers;
  }

  lemma InnerKeys(task: Task, assigns: seq<Assignment>, facts: seq<Field>, f: Field, k: string)
    requires AssignsFit(task.roles, assigns) && FactsFit(task.slots, RefsOf(assigns), facts)
    requires f in BuildPayload(task, assigns, facts).fields && k in KeysOf(f.value)
    ensures k in AllowedKeys(task) || IsRefLabel(k)
  {
    if f.key == "entities" {
      EntityKeys(assigns, facts, k);
    } else if f.key == "facts" {
      FactKeys(task.slots, RefsOf(assigns), facts, k);
    } else {
      AnswerKeys(task.answers, k);
    }
  }

  /** Stage 1 passes on every assembled payload. */
  lemma SchemaStagePasses(task: Task, assigns: seq<Assignment>, facts: seq<Field>)
    requires AssignsFit(task.roles, assigns) && FactsFit(task.slots, RefsOf(assigns), facts)
    ensures SchemaPassed(BuildPayload(task, assigns, facts), task)
  {
    var payload := BuildPayload(task, assigns, facts);
    forall f | f in payload.fields ensures f.key in STRUCTURAL_KEYS && f.key != EXCERPTS_KEY { }
    forall k | k in KeysOf(payload) ensures k in AllowedKeys(task) || IsRefLabel(k) {
      KeysOfParts(payload.fields, k);
      var f :| f in payload.fields && (f.key == k || k in KeysOf(f.value));
      if f.key != k { InnerKeys(task, assigns, facts, f, k); }
    }
  }

  // ---- stage 2 -----------------------------------------------------------

  lemma {:induction false} EntityStrings(assigns: seq<Assignment>, facts: seq<Field>, s: string)
    requires LeafOfItems(Entities(assigns, facts), s)
    ensures exists a :: a in assigns && a.ref in Keys(facts) && (s == a.ref || s == a.role)
  {
    var rest := Entities(assigns[1..], facts);
    var a := assigns[0];
    if a.ref in Keys(facts) {
      var e := EntityObject(a);
      assert Entities(assigns, facts) == [e] + rest && ([e] + rest)[1..] == rest;
      LeavesOfFields(e.fields, s);
      if LeafOfItems(rest, s) { EntityStrings(assigns[1..], facts, s); }
    } else {
      assert Entities(assigns, facts) == rest;
      EntityStrings(assigns[1..], facts, s);
    }
  }

  lemma FactStrings(slots: seq<Slot>, labels: set<string>, facts: seq<Field>, s: string)
    requires FactsFit(slots, labels, facts) && LeafOfFields(facts, s)
    ensures exists slot :: slot in slots && slot.kind.Enum? && s in slot.kind.allowed
  {
    LeavesOfFields(facts, s);
    var f :| f in facts && (f.value == Str(s) || Leaf(f.value, s));
    assert FactFits(slots, labels, f);
    LeavesOfFields(f.value.fields, s);
    var g :| g in f.value.fields && (g.value == Str(s) || Leaf(g.value, s));
    assert FitsSome(slots, g);
  }

  lemma AnswerStrings(answers: seq<Vocabularies.Entry>, s: string)
    requires LeafOfFields(AnswerFormat(answers), s)
    ensures s in set e | e in answers :: e.text
  {
    LeavesOfFields(AnswerFormat(answers), s);
    var f :| f in AnswerFormat(answers) && (f.value == Str(s) || Leaf(f.value, s));
    var i :| 0 <= i < |answers| && AnswerFormat(answers)[i] == f;
    assert answers[i] in answers;
  }

  /** The strings of the frame: registered, or let through by their form. */
  predicate FrameOk(task: Task, vocab: Vocab) {
    OkString(task.id, task, vocab) && OkString(task.domain, task, vocab) && OkString(task.template, task, vocab)
  }

  /** Every other string of a payload is a label, a role or from the vocabulary. */
  lemma InnerStrings(task: Task, vocab: Vocab, assigns: seq<Assignment>, facts: seq<Field>, f: Field, s: string)
    requires AssignsFit(task.roles, assigns) && FactsFit(task.slots, RefsOf(assigns), facts)
    requires f in BuildPayload(task, assigns, facts).fields && Leaf(f.value, s)
    ensures OkString(s, task, vocab) || (s == DEFAULT_ROLE && task.roles == [])
  {
    if f.key == "entities" {
      EntityStrings(assigns, facts, s);
    } else if f.key == "facts" {
      FactStrings(task.slots, RefsOf(assigns), facts, s);
    } else {
      AnswerStrings(task.answers, s);
    }
  }

  /** Stage 2 passes exactly when the frame's strings do and a schema without roles is
      not given the default one, unless that is registered too. */
  lemma VocabStageIff(task: Task, vocab: Vocab, assigns: seq<Assignment>, facts: seq<Field>)
    requires AssignsFit(task.roles, assigns) && FactsFit(task.slots, RefsOf(assigns), facts) && facts != []
    ensures VocabPassed(BuildPayload(task, assigns, facts), task, vocab) <==>
      FrameOk(task, vocab) && (task.roles == [] ==> OkString(DEFAULT_ROLE, task, vocab))
  {
    var payload := BuildPayload(task, assigns, facts);
    forall s ensures s in AllStrings(payload) <==> LeafOfFields(payload.fields, s) { WalkFindsLeaves(payload, "", s); }
    FrameStrings(task, assigns, facts);
    if task.roles == [] { DefaultRoleIn(task, assigns, facts); }
    if FrameOk(task, vocab) && (task.roles == [] ==> OkString(DEFAULT_ROLE, task, vocab)) {
      forall s | LeafOfFields(payload.fields, s) ensures OkString(s, task, vocab) {
        PayloadString(task, vocab, assigns, facts, s);
      }
    }
  }

  lemma PayloadString(task: Task, vocab: Vocab, assigns: seq<Assignment>, facts: seq<Field>, s: string)
    requires AssignsFit(task.roles, assigns) && FactsFit(task.slots, RefsOf(assigns), facts) && FrameOk(task, vocab)
    requires LeafOfFields(BuildPayload(task, assigns, facts).fields, s)
    ensures OkString(s, task, vocab) || (s == DEFAULT_ROLE && task.roles == [])
  {
    var fields := BuildPayload(task, assigns, facts).fields;
    LeavesOfFields(fields, s);
    var f :| f in fields && (f.value == Str(s) || Leaf(f.value, s));
    if f.value == Str(s) {
      FrameVisit(task, assigns, facts, f);
    } else {
      InnerStrings(task, vocab, assigns, facts, f, s);
    }
  }

  /** The frame's strings are in the payload. */
  lemma FrameStrings(task: Task, assigns: seq<Assignment>, facts: seq<Field>)
    ensures var fields := BuildPayload(task, assigns, facts).fields;
      LeafOfFields(fields, task.id) && LeafOfFields(fields, task.domain) && LeafOfFields(fields, task.template)
  {
    var fields := BuildPayload(task, assigns, facts).fields;
    LeavesOfFields(fields, task.id);
    LeavesOfFields(fields, task.domain);
    LeavesOfFields(fields, task.template);
    assert fields[0].value == Str(task.id) && fields[1].value == Str(task.domain) && fields[2].value == Str(task.template);
  }

  /** Where a schema has no roles, a document with facts brings in the default one. */
  lemma DefaultRoleIn(task: Task, assigns: seq<Assignment>, facts: seq<Field>)
    requires AssignsFit(task.roles, assigns) && FactsFit(task.slots, RefsOf(assigns), facts)
    requires facts != [] && task.roles == []
    ensures LeafOfFields(BuildPayload(task, assigns, facts).fields, DEFAULT_ROLE)
  {
    var fields := BuildPayload(task, assigns, facts).fields;
    assert FactFits(task.slots, RefsOf(assigns), facts[0]);
    var a :| a in assigns && a.ref == facts[0].key;
    EntityRoleIn(assigns, facts, a);
    LeavesOfFields(fields, a.role);
    assert fields[3].value == Arr(Entities(assigns, facts));
    assert Leaf(fields[3].value, a.role);
  }

  lemma {:induction false} EntityRoleIn(assigns: seq<Assignment>, facts: seq<Field>, a: Assignment)
    requires a in assigns && a.ref in Keys(facts)
    ensures LeafOfItems(Entities(assigns, facts), a.role)
  {
    var rest := Entities(assigns[1..], facts);
    var b := assigns[0];
    if b.ref in Keys(facts) {
      var e := EntityObject(b);
      assert Entities(assigns, facts) == [e] + rest && ([e] + rest)[1..] == rest;
      if a == b {
        LeavesOfFields(e.fields, a.role);
        assert e.fields[1].value == Str(a.role);
      } else {
        EntityRoleIn(assigns[1..], facts, a);
      }
    } else {
      assert Entities(assigns, facts) == rest;
      EntityRoleIn(assigns[1..], facts, a);
    }
  }

  // ---- stage 3 -----------------------------------------------------------

  /** What stage 3 makes of a scalar at a path that ends in `name`. */
  predicate Accepts(slots: seq<Slot>, name: string, v: Json) {
    match FindSlot(slots, name) case Some(slot) => EntryOk(slot, v) case None => true
  }

  /** Stage 3 lets any string stand at a path that ends in `name`. */
  predicate TextFits(slots: seq<Slot>, name: string) {
    match FindSlot(slots, name) case Some(slot) => slot.kind.Enum? case None => true
  }

  ghost predicate FactsAccepted(slots: seq<Slot>, facts: seq<Field>) {
    forall f, g :: f in facts && f.value.Obj? && g in f.value.fields ==> Accepts(slots, Tail(g.key), g.value)
  }

  ghost predicate AnswersAccepted(task: Task) {
    forall e :: e in task.answers ==> TextFits(task.slots, Tail(e.key))
  }

  /** No slot other than an enum takes its name from the frame. */
  predicate FrameAccepted(slots: seq<Slot>, hasEntities: bool) {
    && TextFits(slots, "task") && TextFits(slots, "domain") && TextFits(slots, "question_template")
    && (hasEntities ==> TextFits(slots, "ref") && TextFits(slots, "role"))
  }

  lemma {:induction false} FoundIsSlot(slots: seq<Slot>, name: string)
    ensures FindSlot(slots, name).None? <==> name !in SlotNames(slots)
    ensures FindSlot(slots, name).Some? ==> FindSlot(slots, name).value in slots && FindSlot(slots, name).value.name == name
  {
    if slots != [] {
      FoundIsSlot(slots[1..], name);
      assert slots == [slots[0]] + slots[1..];
    }
  }

  lemma VisitOkIff(x: Visit, task: Task)
    ensures VisitOk(x, task) <==> (IsScalar(x.1) ==> Accepts(task.slots, Tail(x.0), x.1))
    ensures x.1.Str? ==> (VisitOk(x, task) <==> TextFits(task.slots, Tail(x.0)))
  {
    FoundIsSlot(task.slots, Tail(x.0));
  }

  /** Where an assembled value stands in the payload. */
  function FactPath(f: Field, g: Field): string {
    ChildPath(ChildPath("facts", f.key), g.key)
  }

  lemma FactVisitOk(task: Task, f: Field, g: Field)
    requires FitsSome(task.slots, g)
    ensures VisitOk((FactPath(f, g), g.value), task) <==> Accepts(task.slots, Tail(g.key), g.value)
  {
    TailOfChild(ChildPath("facts", f.key), g.key);
    VisitOkIff((FactPath(f, g), g.value), task);
  }

  lemma FactVisits(slots: seq<Slot>, labels: set<string>, facts: seq<Field>, x: Visit)
    requires FactsFit(slots, labels, facts)
    ensures x in WalkFields(facts, "facts") && IsScalar(x.1) <==>
      exists f, g :: f in facts && f.value.Obj? && g in f.value.fields && x == (FactPath(f, g), g.value)
  {
    VisitsOfFields(facts, "facts", x);
    forall f | f in facts
      ensures x in Walk(f.value, ChildPath("facts", f.key))
          <==> exists g :: g in f.value.fields && x == (FactPath(f, g), g.value)
    {
      assert FactFits(slots, labels, f);
      FlatVisits(slots, f.value.fields, ChildPath("facts", f.key), x);
    }
    forall f, g | f in facts && f.value.Obj? && g in f.value.fields ensures IsScalar(g.value) {
      assert FactFits(slots, labels, f);
      assert FitsSome(slots, g);
    }
    forall f | f in facts ensures f.value.Obj? { assert FactFits(slots, labels, f); }
  }

  /** The values of one document have nothing below them. */
  lemma FlatVisits(slots: seq<Slot>, fields: seq<Field>, path: string, x: Visit)
    requires forall g :: g in fields ==> FitsSome(slots, g)
    ensures x in WalkFields(fields, path) <==> exists g :: g in fields && x == (ChildPath(path, g.key), g.value)
  {
    VisitsOfFields(fields, path, x);
    forall g | g in fields ensures Walk(g.value, ChildPath(path, g.key)) == [] { assert FitsSome(slots, g); }
  }

  lemma {:induction false} EntityIsObject(assigns: seq<Assignment>, facts: seq<Field>, e: Json)
    requires e in Entities(assigns, facts)
    ensures exists a: Assignment :: e == EntityObject(a)
  {
    if e !in Entities(assigns[1..], facts) {
      assert e == EntityObject(assigns[0]);
    } else {
      EntityIsObject(assigns[1..], facts, e);
    }
  }

  lemma ObjectVisits(a: Assignment, path: string, x: Visit)
    ensures x in Walk(EntityObject(a), path) <==>
      x == (ChildPath(path, "ref"), Str(a.ref)) || x == (ChildPath(path, "role"), Str(a.role))
  {
    var fields := EntityObject(a).fields;
    VisitsOfFields(fields, path, x);
    assert fields[0] == Field("ref", Str(a.ref)) && fields[1] == Field("role", Str(a.role));
  }

  /** The scalars below the entities are strings under `ref` and `role`. */
  lemma EntityVisits(assigns: seq<Assignment>, facts: seq<Field>, x: Visit)
    requires x in WalkItems(Entities(assigns, facts), "entities", 0) && IsScalar(x.1)
    ensures Entities(assigns, facts) != [] && x.1.Str? && (Tail(x.0) == "ref" || Tail(x.0) == "role")
  {
    var items := Entities(assigns, facts);
    var i := VisitedItem(items, "entities", x);
    EntityIsObject(assigns, facts, items[i]);
    var a: Assignment :| items[i] == EntityObject(a);
    ObjectVisitTails(a, ItemPath("entities", i), x);
  }

  lemma VisitedItem(items: seq<Json>, path: string, x: Visit) returns (i: nat)
    requires x in WalkItems(items, path, 0)
    ensures i < |items| && (x == (ItemPath(path, i), items[i]) || x in Walk(items[i], ItemPath(path, i)))
  {
    VisitsOfItems(items, path, 0, x);
    i :| ItemVisit(items, path, 0, i, x);
  }

  lemma ObjectVisitTails(a: Assignment, path: string, x: Visit)
    requires x == (path, EntityObject(a)) || x in Walk(EntityObject(a), path)
    ensures IsScalar(x.1) ==> x.1.Str? && (Tail(x.0) == "ref" || Tail(x.0) == "role")
  {
    ObjectVisits(a, path, x);
    TailOfChild(path, "ref");
    TailOfChild(path, "role");
    assert Tail("ref") == "ref" && Tail("role") == "role";
  }

  /** And where there is an entity, both are met. */
  lemma EntitiesVisited(assigns: seq<Assignment>, facts: seq<Field>) returns (ref: Visit, role: Visit)
    requires Entities(assigns, facts) != []
    ensures ref in WalkItems(Entities(assigns, facts), "entities", 0) && ref.1.Str? && Tail(ref.0) == "ref"
    ensures role in WalkItems(Entities(assigns, facts), "entities", 0) && role.1.Str? && Tail(role.0) == "role"
  {
    var items, path := Entities(assigns, facts), ItemPath("entities", 0);
    EntityIsObject(assigns, facts, items[0]);
    var a: Assignment :| items[0] == EntityObject(a);
    ref, role := (ChildPath(path, "ref"), Str(a.ref)), (ChildPath(path, "role"), Str(a.role));
    ObjectVisits(a, path, ref);
    ObjectVisits(a, path, role);
    FirstItemVisited(items, "entities", ref);
    FirstItemVisited(items, "entities", role);
    TailOfChild(path, "ref");
    TailOfChild(path, "role");
    assert Tail("ref") == "ref" && Tail("role") == "role";
  }

  lemma FirstItemVisited(items: seq<Json>, path: string, x: Visit)
    requires items != [] && x in Walk(items[0], ItemPath(path, 0))
    ensures x in WalkItems(items, path, 0)
  {
  }

  lemma AnswerVisits(answers: seq<Vocabularies.Entry>, x: Visit)
    requires x in WalkFields(AnswerFormat(answers), "answer_format")
    ensures x.1.Str? && exists e :: e in answers && Tail(x.0) == Tail(e.key)
  {
    var fields := AnswerFormat(answers);
    VisitsOfFields(fields, "answer_format", x);
    var f :| f in fields && (x == (ChildPath("answer_format", f.key), f.value) || x in Walk(f.value, ChildPath("answer_format", f.key)));
    var i :| 0 <= i < |answers| && fields[i] == f;
    assert answers[i] in answers;
    TailOfChild("answer_format", f.key);
  }

  lemma AnswerVisited(task: Task, assigns: seq<Assignment>, facts: seq<Field>, e: Vocabularies.Entry)
    requires e in task.answers
    ensures (ChildPath("answer_format", e.key), Str(e.text)) in Walk(BuildPayload(task, assigns, facts), "")
  {
    var answers := AnswerFormat(task.answers);
    var x := (ChildPath("answer_format", e.key), Str(e.text));
    assert x in WalkFields(answers, "answer_format") by {
      var i :| 0 <= i < |task.answers| && task.answers[i] == e;
      assert answers[i] == Field(e.key, Str(e.text)) && answers[i] in answers;
      VisitsOfFields(answers, "answer_format", x);
    }
    PayloadVisits(task, assigns, facts, x);
  }

  /** The walk over a payload: its frame, its entities, its facts and its answer format. */
  lemma PayloadVisits(task: Task, assigns: seq<Assignment>, facts: seq<Field>, x: Visit)
    ensures x in Walk(BuildPayload(task, assigns, facts), "") <==>
      || (exists f :: f in BuildPayload(task, assigns, facts).fields && x == (f.key, f.value))
      || x in WalkItems(Entities(assigns, facts), "entities", 0)
      || x in WalkFields(facts, "facts")
      || x in WalkFields(AnswerFormat(task.answers), "answer_format")
  {
    var payload := BuildPayload(task, assigns, facts);
    TopVisits(payload.fields, x);
    PartsVisited(task, assigns, facts);
    if x in Walk(payload, "") {
      var f :| f in payload.fields && (x == (f.key, f.value) || x in Walk(f.value, f.key));
      if x in Walk(f.value, f.key) { PartVisits(task, assigns, facts, f, x); }
    }
  }

  lemma TopVisits(fields: seq<Field>, x: Visit)
    ensures x in Walk(Obj(fields), "") <==> exists f :: f in fields && (x == (f.key, f.value) || x in Walk(f.value, f.key))
  {
    VisitsOfFields(fields, "", x);
    forall f | f in fields ensures ChildPath("", f.key) == f.key { }
  }

  lemma PartVisits(task: Task, assigns: seq<Assignment>, facts: seq<Field>, f: Field, x: Visit)
    requires f in BuildPayload(task, assigns, facts).fields && x in Walk(f.value, f.key)
    ensures || x in WalkItems(Entities(assigns, facts), "entities", 0) || x in WalkFields(facts, "facts")
            || x in WalkFields(AnswerFormat(task.answers), "answer_format")
  {
  }

  lemma PartsVisited(task: Task, assigns: seq<Assignment>, facts: seq<Field>)
    ensures var fields := BuildPayload(task, assigns, facts).fields;
      && Field("entities", Arr(Entities(assigns, facts))) in fields
      && Field("facts", Obj(facts)) in fields
      && Field("answer_format", Obj(AnswerFormat(task.answers))) in fields
  {
    var fields := BuildPayload(task, assigns, facts).fields;
    assert fields[3] in fields && fields[4] in fields && fields[5] in fields;
  }

  lemma FrameTails()
    ensures Tail("task") == "task" && Tail("domain") == "domain" && Tail("question_template") == "question_template"
  {
    assert '.' !in "task" && '.' !in "domain" && '.' !in "question_template";
  }

  /** The scalars of the frame itself. */
  lemma FrameVisit(task: Task, assigns: seq<Assignment>, facts: seq<Field>, f: Field)
    requires f in BuildPayload(task, assigns, facts).fields && IsScalar(f.value)
    ensures || f == Field("task", Str(task.id)) || f == Field("domain", Str(task.domain))
            || f == Field("question_template", Str(task.template))
  {
  }

  lemma FrameVisited(task: Task, assigns: seq<Assignment>, facts: seq<Field>)
    ensures var walk := Walk(BuildPayload(task, assigns, facts), "");
      ("task", Str(task.id)) in walk && ("domain", Str(task.domain)) in walk
      && ("question_template", Str(task.template)) in walk
  {
    var fields := BuildPayload(task, assigns, facts).fields;
    assert fields[0] == Field("task", Str(task.id)) && fields[1] == Field("domain", Str(task.domain));
    assert fields[2] == Field("question_template", Str(task.template));
    PayloadVisits(task, assigns, facts, ("task", Str(task.id)));
    PayloadVisits(task, assigns, facts, ("domain", Str(task.domain)));
    PayloadVisits(task, assigns, facts, ("question_template", Str(task.template)));
  }

  lemma VisitAccepted(task: Task, labels: set<string>, assigns: seq<Assignment>, facts: seq<Field>, x: Visit)
    requires FactsFit(task.slots, labels, facts) && FactsAccepted(task.slots, facts) && AnswersAccepted(task)
    requires FrameAccepted(task.slots, Entities(assigns, facts) != [])
    requires x in Walk(BuildPayload(task, assigns, facts), "") && IsScalar(x.1)
    ensures VisitOk(x, task)
  {
    PayloadVisits(task, assigns, facts, x);
    VisitOkIff(x, task);
    if x in WalkItems(Entities(assigns, facts), "entities", 0) {
      EntityVisits(assigns, facts, x);
    } else if x in WalkFields(facts, "facts") {
      FactVisits(task.slots, labels, facts, x);
      var f, g :| f in facts && f.value.Obj? && g in f.value.fields && x == (FactPath(f, g), g.value);
      assert FactFits(task.slots, labels, f);
      FactVisitOk(task, f, g);
    } else if x in WalkFields(AnswerFormat(task.answers), "answer_format") {
      AnswerVisits(task.answers, x);
    } else {
      var f :| f in BuildPayload(task, assigns, facts).fields && x == (f.key, f.value);
      FrameVisit(task, assigns, facts, f);
      FrameTails();
    }
  }

  lemma FactsPassed(task: Task, labels: set<string>, assigns: seq<Assignment>, facts: seq<Field>)
    requires FactsFit(task.slots, labels, facts) && RangesPassed(BuildPayload(task, assigns, facts), task)
    ensures FactsAccepted(task.slots, facts)
  {
    forall f, g | f in facts && f.value.Obj? && g in f.value.fields ensures Accepts(task.slots, Tail(g.key), g.value) {
      var x := (FactPath(f, g), g.value);
      assert FactFits(task.slots, labels, f);
      FactVisits(task.slots, labels, facts, x);
      PayloadVisits(task, assigns, facts, x);
      FactVisitOk(task, f, g);
    }
  }

  lemma FramePassed(task: Task, assigns: seq<Assignment>, facts: seq<Field>)
    requires RangesPassed(BuildPayload(task, assigns, facts), task)
    ensures FrameAccepted(task.slots, Entities(assigns, facts) != [])
  {
    FrameVisited(task, assigns, facts);
    FrameTails();
    VisitOkIff(("task", Str(task.id)), task);
    VisitOkIff(("domain", Str(task.domain)), task);
    VisitOkIff(("question_template", Str(task.template)), task);
    if Entities(assigns, facts) != [] {
      var ref, role := EntitiesVisited(assigns, facts);
      PayloadVisits(task, assigns, facts, ref);
      PayloadVisits(task, assigns, facts, role);
      VisitOkIff(ref, task);
      VisitOkIff(role, task);
    }
  }

  lemma AnswersPassed(task: Task, assigns: seq<Assignment>, facts: seq<Field>)
    requires RangesPassed(BuildPayload(task, assigns, facts), task)
    ensures AnswersAccepted(task)
  {
    forall e | e in task.answers ensures TextFits(task.slots, Tail(e.key)) {
      AnswerVisited(task, assigns, facts, e);
      TailOfChild("answer_format", e.key);
      VisitOkIff((ChildPath("answer_format", e.key), Str(e.text)), task);
    }
  }

  /** Stage 3 on an assembled payload, whatever the names of its slots: the value of every
      fact must suit the slot its path ends in, and no slot but an enum may take its name
      from the frame, from the entities or from the end of an answer key. */
  lemma RangeStageIff(task: Task, assigns: seq<Assignment>, facts: seq<Field>)
    requires FactsFit(task.slots, RefsOf(assigns), facts)
    ensures RangesPassed(BuildPayload(task, assigns, facts), task) <==>
      && FactsAccepted(task.slots, facts)
      && FrameAccepted(task.slots, Entities(assigns, facts) != [])
      && AnswersAccepted(task)
  {
    if RangesPassed(BuildPayload(task, assigns, facts), task) {
      FactsPassed(task, RefsOf(assigns), assigns, facts);
      FramePassed(task, assigns, facts);
      AnswersPassed(task, assigns, facts);
    } else {
      var x :| x in Walk(BuildPayload(task, assigns, facts), "") && !VisitOk(x, task);
      if FactsAccepted(task.slots, facts) && FrameAccepted(task.slots, Entities(assigns, facts) != []) && AnswersAccepted(task) {
        VisitAccepted(task, RefsOf(assigns), assigns, facts, x);
      }
    }
  }

  /** Slot names are distinct, without a dot and not keys of the frame. */
  ghost predicate WellNamed(slots: seq<Slot>) {
    DistinctNames(slots) && forall s :: s in slots ==> '.' !in s.name && s.name !in STRUCTURAL_KEYS
  }

  ghost predicate InBounds(slots: seq<Slot>, g: Field) {
    forall s :: s in slots && s.name == g.key && s.kind.Range? && g.value.Int? ==> s.kind.min <= g.value.n <= s.kind.max
  }

  ghost predicate AllInBounds(slots: seq<Slot>, facts: seq<Field>) {
    forall f, g :: f in facts && f.value.Obj? && g in f.value.fields ==> InBounds(slots, g)
  }

  /** Every slot that an answer key ends in is an enum. */
  ghost predicate AnswersAreEnums(task: Task) {
    forall e, s :: e in task.answers && s in task.slots && s.name == Tail(e.key) ==> s.kind.Enum?
  }

  lemma InBoundsIff(slots: seq<Slot>, g: Field)
    requires WellNamed(slots) && FitsSome(slots, g)
    ensures Accepts(slots, Tail(g.key), g.value) <==> InBounds(slots, g)
  {
    var slot :| slot in slots && slot.name == g.key && Fits(slot, g.value);
    FindSlotIs(slots, slot);
    forall s | s in slots && s.name == g.key ensures s == slot { FindSlotIs(slots, s); }
  }

  lemma EnumsIff(task: Task)
    requires DistinctNames(task.slots)
    ensures AnswersAccepted(task) <==> AnswersAreEnums(task)
  {
    forall e, s | e in task.answers && s in task.slots && s.name == Tail(e.key)
      ensures TextFits(task.slots, Tail(e.key)) <==> s.kind.Enum?
    {
      FindSlotIs(task.slots, s);
    }
    forall e | e in task.answers && Tail(e.key) !in SlotNames(task.slots) ensures TextFits(task.slots, Tail(e.key)) {
      FoundIsSlot(task.slots, Tail(e.key));
    }
  }

  lemma FrameIsFree(slots: seq<Slot>, hasEntities: bool)
    requires WellNamed(slots)
    ensures FrameAccepted(slots, hasEntities)
  {
    forall k | k in STRUCTURAL_KEYS ensures TextFits(slots, k) { FoundIsSlot(slots, k); }
    assert "task" in STRUCTURAL_KEYS && "domain" in STRUCTURAL_KEYS && "question_template" in STRUCTURAL_KEYS;
    assert "ref" in STRUCTURAL_KEYS && "role" in STRUCTURAL_KEYS;
  }

  /** With well chosen names: every integer within its slot's bounds, and no slot but an
      enum named like the end of an answer key. */
  lemma RangeStageNamed(task: Task, assigns: seq<Assignment>, facts: seq<Field>)
    requires WellNamed(task.slots) && FactsFit(task.slots, RefsOf(assigns), facts)
    ensures RangesPassed(BuildPayload(task, assigns, facts), task)
       <==> AllInBounds(task.slots, facts) && AnswersAreEnums(task)
  {
    RangeStageIff(task, assigns, facts);
    FrameIsFree(task.slots, Entities(assigns, facts) != []);
    EnumsIff(task);
    forall f, g | f in facts && f.value.Obj? && g in f.value.fields
      ensures Accepts(task.slots, Tail(g.key), g.value) <==> InBounds(task.slots, g)
    {
      assert FactFits(task.slots, RefsOf(assigns), f);
      InBoundsIff(task.slots, g);
    }
  }

  /** In particular an answer key that ends in the name of an integer or boolean slot fails
      stage 3 whatever was assembled. */
  lemma AnswerKeyClash(task: Task, assigns: seq<Assignment>, facts: seq<Field>, e: Vocabularies.Entry, slot: Slot)
    requires e in task.answers && slot in task.slots && Tail(e.key) == slot.name
    requires DistinctNames(task.slots) && !slot.kind.Enum?
    ensures !RangesPassed(BuildPayload(task, assigns, facts), task)
  {
    FindSlotIs(task.slots, slot);
    if RangesPassed(BuildPayload(task, assigns, facts), task) { AnswersPassed(task, assigns, facts); }
  }

  // ---- extraction as a whole ---------------------------------------------

  lemma ExtractionShape(chunks: seq<Chunk>, task: Task, ask: Answers, env: Env, e: Outcome)
    requires e == ExtractionOf(chunks, task, ask, env) && e.Extraction?
    ensures Assigned(chunks, task.roles, env.upper) == Some(e.assigns)
    ensures e.payload == BuildPayload(task, e.assigns, e.facts) && e.facts != []
    ensures e.facts == FactsOf(e.assigns, FilledAll(ask, |e.assigns|, task.slots, env), |e.assigns|)
    ensures AssignsFit(task.roles, e.assigns) && FactsFit(task.slots, RefsOf(e.assigns), e.facts)
  {
    var filled := FilledAll(ask, |e.assigns|, task.slots, env);
    AssignedFit(chunks, task.roles, env.upper);
    forall d | 0 <= d < |filled| ensures forall g :: g in filled[d] ==> FitsSome(task.slots, g) {
      FilledFit(ask, d, task.slots, env);
    }
    FactsOfFit(e.assigns, filled, |e.assigns|, task.slots);
  }

  /** Whatever the model answers, a payload that `extract` returns passes stage 1; passes
      stage 2 exactly when the frame's strings do and no unregistered default role is
      brought in; and stage 3 exactly when facts, frame and answer keys suit the slots
      that stage 3 takes them for. */
  lemma ExtractionPasses(chunks: seq<Chunk>, task: Task, ask: Answers, env: Env, vocab: Vocab, e: Outcome)
    requires e == ExtractionOf(chunks, task, ask, env) && e.Extraction?
    ensures SchemaPassed(e.payload, task)
    ensures VocabPassed(e.payload, task, vocab) <==>
      FrameOk(task, vocab) && (task.roles == [] ==> OkString(DEFAULT_ROLE, task, vocab))
    ensures RangesPassed(e.payload, task) <==>
      FactsAccepted(task.slots, e.facts) && FrameAccepted(task.slots, true) && AnswersAccepted(task)
  {
    ExtractionShape(chunks, task, ask, env, e);
    ShapePasses(task, e.assigns, e.facts, vocab);
  }

  lemma ShapePasses(task: Task, assigns: seq<Assignment>, facts: seq<Field>, vocab: Vocab)
    requires AssignsFit(task.roles, assigns) && FactsFit(task.slots, RefsOf(assigns), facts) && facts != []
    ensures var payload := BuildPayload(task, assigns, facts);
      && SchemaPassed(payload, task)
      && (VocabPassed(payload, task, vocab) <==>
            FrameOk(task, vocab) && (task.roles == [] ==> OkString(DEFAULT_ROLE, task, vocab)))
      && (RangesPassed(payload, task) <==>
            FactsAccepted(task.slots, facts) && FrameAccepted(task.slots, true) && AnswersAccepted(task))
  {
    SchemaStagePasses(task, assigns, facts);
    VocabStageIff(task, vocab, assigns, facts);
    RangeStageIff(task, assigns, facts);
    assert FactFits(task.slots, RefsOf(assigns), facts[0]);
    var a :| a in assigns && a.ref == facts[0].key;
    EntityRoleIn(assigns, facts, a);
  }

  /** Calls made: one per document and batch of twelve slots. */
  lemma CallsMade(chunks: seq<Chunk>, task: Task, ask: Answers, env: Env)
    requires ExtractionOf(chunks, task, ask, env).Extraction?
    ensures ExtractionOf(chunks, task, ask, env).calls
         == |chunks| * ((|task.slots| + 11) / 12)
  {
    BatchCount(task.slots);
    Ordering.SortedSize(chunks, ChunkLe);
    CallsAre(|chunks|, |Batches(task.slots)|);
  }

  /** Every required slot has a fitting value in some document. */
  lemma RequiredAreFilled(chunks: seq<Chunk>, task: Task, ask: Answers, env: Env, slot: Slot)
    requires ExtractionOf(chunks, task, ask, env).Extraction? && slot in task.slots && slot.required
    ensures exists f, g ::
      && f in ExtractionOf(chunks, task, ask, env).facts && f.value.Obj? && g in f.value.fields
      && g.key == slot.name && FitsSome(task.slots, g)
  {
    var e := ExtractionOf(chunks, task, ask, env);
    ExtractionShape(chunks, task, ask, env, e);
    assert slot.name in RequiredSlots(task.slots);
    FilledInIs(e.facts, slot.name);
    var f, g :| f in e.facts && f.value.Obj? && g in f.value.fields && g.key == slot.name;
    assert FactFits(task.slots, RefsOf(e.assigns), f);
  }

  lemma {:induction false} FilledInIs(facts: seq<Field>, name: string)
    requires name in FilledIn(facts)
    ensures exists f, g :: f in facts && f.value.Obj? && g in f.value.fields && g.key == name
  {
    if name in FilledIn(facts[1..]) {
      FilledInIs(facts[1..], name);
    } else {
      assert facts[0] in facts;
    }
  }

  // ---- labels of facts and of entities -----------------------------------

  function KeyList(facts: seq<Field>): seq<string> {
    seq(|facts|, i requires 0 <= i < |facts| => facts[i].key)
  }

  /** The labels of the entities, in order. */
  function EntityRefs(assigns: seq<Assignment>, facts: seq<Field>): seq<string> {
    if assigns == [] then []
    else (if assigns[0].ref in Keys(facts) then [assigns[0].ref] else []) + EntityRefs(assigns[1..], facts)
  }

  ghost predicate RefsDistinct(assigns: seq<Assignment>) {
    forall i, j :: 0 <= i < j < |assigns| ==> assigns[i].ref != assigns[j].ref
  }

  /** The labels of those of the first `n` documents that have facts. */
  function FilledRefs(assigns: seq<Assignment>, filled: seq<seq<Field>>, n: nat): seq<string>
    requires n <= |assigns| && n <= |filled|
  {
    if n == 0 then []
    else FilledRefs(assigns, filled, n - 1) + if filled[n - 1] == [] then [] else [assigns[n - 1].ref]
  }

  lemma {:induction false} FactLabels(assigns: seq<Assignment>, filled: seq<seq<Field>>, n: nat, f: Field)
    requires n <= |assigns| && n <= |filled| && f in FactsOf(assigns, filled, n)
    ensures exists i :: 0 <= i < n && assigns[i].ref == f.key && filled[i] != []
  {
    var front := FactsOf(assigns, filled, n - 1);
    if filled[n - 1] != [] { PutIs(front, assigns[n - 1].ref, Obj(filled[n - 1])); }
    if f in front { FactLabels(assigns, filled, n - 1, f); }
  }

  /** With distinct labels the facts stand in the order of the documents. */
  lemma {:induction false} KeysInOrder(assigns: seq<Assignment>, filled: seq<seq<Field>>, n: nat)
    requires n <= |assigns| && n <= |filled| && RefsDistinct(assigns)
    ensures KeyList(FactsOf(assigns, filled, n)) == FilledRefs(assigns, filled, n)
  {
    if n > 0 {
      KeysInOrder(assigns, filled, n - 1);
      if filled[n - 1] != [] {
        var front, ref := FactsOf(assigns, filled, n - 1), assigns[n - 1].ref;
        forall f | f in front ensures f.key != ref { FactLabels(assigns, filled, n - 1, f); }
        PutAppends(front, ref, Obj(filled[n - 1]));
        KeyListSnoc(front, Field(ref, Obj(filled[n - 1])));
      }
    }
  }

  lemma KeyListSnoc(facts: seq<Field>, f: Field)
    ensures KeyList(facts + [f]) == KeyList(facts) + [f.key]
  {
  }

  lemma {:induction false} EntityRefsSnoc(assigns: seq<Assignment>, a: Assignment, facts: seq<Field>)
    ensures EntityRefs(assigns + [a], facts) == EntityRefs(assigns, facts) + if a.ref in Keys(facts) then [a.ref] else []
  {
    if assigns == [] {
      assert assigns + [a] == [a] && [a][1..] == [];
    } else {
      assert (assigns + [a])[1..] == assigns[1..] + [a];
      EntityRefsSnoc(assigns[1..], a, facts);
    }
  }

  /** A document has an entity just if it has facts. */
  lemma {:induction false} RefsInOrder(assigns: seq<Assignment>, filled: seq<seq<Field>>, n: nat, facts: seq<Field>)
    requires n <= |assigns| == |filled|
    requires forall i :: 0 <= i < |assigns| ==> (assigns[i].ref in Keys(facts) <==> filled[i] != [])
    ensures EntityRefs(assigns[..n], facts) == FilledRefs(assigns, filled, n)
  {
    if n > 0 {
      RefsInOrder(assigns, filled, n - 1, facts);
      EntityRefsSnoc(assigns[..n - 1], assigns[n - 1], facts);
      assert assigns[..n] == assigns[..n - 1] + [assigns[n - 1]];
    }
  }

  lemma {:induction false} FilledIsListed(assigns: seq<Assignment>, filled: seq<seq<Field>>, n: nat, i: nat)
    requires i < n <= |assigns| && n <= |filled| && filled[i] != []
    ensures assigns[i].ref in Keys(FactsOf(assigns, filled, n))
  {
    var front, ref := FactsOf(assigns, filled, n - 1), assigns[n - 1].ref;
    PutIs(front, ref, Obj(filled[n - 1]));
    if i < n - 1 {
      FilledIsListed(assigns, filled, n - 1, i);
      var f :| f in front && f.key == assigns[i].ref;
      assert f.key == ref || f in Put(front, ref, Obj(filled[n - 1]));
    }
  }

  /** The labels are read off the entities. */
  lemma {:induction false} EntitiesCarryRefs(assigns: seq<Assignment>, facts: seq<Field>)
    ensures RefsRead(Entities(assigns, facts), EntityRefs(assigns, facts))
  {
    if assigns != [] {
      var rest := Entities(assigns[1..], facts);
      EntitiesCarryRefs(assigns[1..], facts);
      if assigns[0].ref in Keys(facts) {
        var refs := EntityRefs(assigns[1..], facts);
        OneMoreRead(assigns[0], rest, refs);
      } else {
        assert Entities(assigns, facts) == rest;
      }
    }
  }

  /** Each item is an object whose `ref` is the label. */
  ghost predicate RefsRead(items: seq<Json>, refs: seq<string>) {
    |items| == |refs| && forall i :: 0 <= i < |items| ==> Labelled(items[i], refs[i])
  }

  ghost predicate Labelled(item: Json, ref: string) {
    item.Obj? && Lookup(item.fields, "ref") == Some(Str(ref))
  }

  lemma OneMoreRead(a: Assignment, items: seq<Json>, refs: seq<string>)
    requires RefsRead(items, refs)
    ensures RefsRead([EntityObject(a)] + items, [a.ref] + refs)
  {
    assert Labelled(EntityObject(a), a.ref);
    forall i | 0 <= i < |items| + 1 ensures Labelled(([EntityObject(a)] + items)[i], ([a.ref] + refs)[i]) {
      if i > 0 { assert Labelled(items[i - 1], refs[i - 1]); }
    }
  }

  lemma RefsMatchKeys(assigns: seq<Assignment>, filled: seq<seq<Field>>)
    requires |assigns| == |filled| && RefsDistinct(assigns)
    ensures EntityRefs(assigns, FactsOf(assigns, filled, |assigns|)) == KeyList(FactsOf(assigns, filled, |assigns|))
  {
    var n, facts := |assigns|, FactsOf(assigns, filled, |assigns|);
    forall i | 0 <= i < n ensures assigns[i].ref in Keys(facts) <==> filled[i] != [] {
      if filled[i] != [] { FilledIsListed(assigns, filled, n, i); }
      if assigns[i].ref in Keys(facts) {
        var f :| f in facts && f.key == assigns[i].ref;
        FactLabels(assigns, filled, n, f);
      }
    }
    RefsInOrder(assigns, filled, n, facts);
    assert assigns[..n] == assigns;
    KeysInOrder(assigns, filled, n);
  }

  /** With distinct labels the payload's entities are objects labelled like the facts, in
      the same order, and as many. */
  lemma EntitiesMatchFacts(chunks: seq<Chunk>, task: Task, ask: Answers, env: Env, e: Outcome)
    requires e == ExtractionOf(chunks, task, ask, env) && e.Extraction? && RefsDistinct(e.assigns)
    ensures e.payload.Obj? && Lookup(e.payload.fields, "facts") == Some(Obj(e.facts))
    ensures var entities := Lookup(e.payload.fields, "entities");
      entities.Some? && entities.value.Arr? && RefsRead(entities.value.items, KeyList(e.facts))
  {
    ExtractionShape(chunks, task, ask, env, e);
    RefsMatchKeys(e.assigns, FilledAll(ask, |e.assigns|, task.slots, env));
    EntitiesCarryRefs(e.assigns, e.facts);
    PayloadParts(task, e.assigns, e.facts);
  }

  lemma PayloadParts(task: Task, assigns: seq<Assignment>, facts: seq<Field>)
    ensures var fields := BuildPayload(task, assigns, facts).fields;
      && Lookup(fields, "entities") == Some(Arr(Entities(assigns, facts)))
      && Lookup(fields, "facts") == Some(Obj(facts))
  {
    var fields := BuildPayload(task, assigns, facts).fields;
    assert fields[1..][1..][1..] == fields[3..] && fields[3..][1..] == fields[4..];
    assert fields[0].key == "task" && fields[1].key == "domain" && fields[2].key == "question_template";
    assert fields[3] == Field("entities", Arr(Entities(assigns, facts))) && fields[4] == Field("facts", Obj(facts));
    LookupFrom(fields, "entities", 3);
    LookupFrom(fields, "facts", 4);
  }

  lemma {:induction false} LookupFrom(fields: seq<Field>, key: string, i: nat)
    requires i < |fields| && fields[i].key == key && forall j :: 0 <= j < i ==> fields[j].key != key
    ensures Lookup(fields, key) == Some(fields[i].value)
  {
    if i > 0 { LookupFrom(fields[1..], key, i - 1); }
  }

  /** Labels are distinct just if the roles in use have distinct prefixes. */
  lemma DistinctIff(chunks: seq<Chunk>, roles: seq<string>, upper: string -> string)
    requires Assigned(chunks, roles, upper).Some?
    ensures RefsDistinct(Assigned(chunks, roles, upper).value) <==>
      PrefixesApart(RolesOf(roles), |Assigned(chunks, roles, upper).value|, upper)
  {
    var assigns, used := Assigned(chunks, roles, upper).value, RolesOf(roles);
    RefsApartIff(used, |assigns|, upper);
    forall i: nat | i < |assigns| ensures assigns[i].ref == RefAt(used, i, upper) { }
  }

  // ---- facts and what the model said ----------------------------------------

  /** A fact is some document's, under its label. */
  lemma {:induction false} FactIsFilled(assigns: seq<Assignment>, filled: seq<seq<Field>>, n: nat, f: Field)
    requires n <= |assigns| && n <= |filled| && f in FactsOf(assigns, filled, n)
    ensures exists d: nat :: d < n && filled[d] != [] && f == Field(assigns[d].ref, Obj(filled[d]))
  {
    var front := FactsOf(assigns, filled, n - 1);
    if filled[n - 1] != [] { PutIs(front, assigns[n - 1].ref, Obj(filled[n - 1])); }
    if f in front { FactIsFilled(assigns, filled, n - 1, f); }
  }

  /** With distinct labels every document that has any is there. */
  lemma {:induction false} FilledIsFact(assigns: seq<Assignment>, filled: seq<seq<Field>>, n: nat, d: nat)
    requires d < n <= |assigns| && n <= |filled| && RefsDistinct(assigns) && filled[d] != []
    ensures Field(assigns[d].ref, Obj(filled[d])) in FactsOf(assigns, filled, n)
  {
    var front := FactsOf(assigns, filled, n - 1);
    if filled[n - 1] != [] { PutIs(front, assigns[n - 1].ref, Obj(filled[n - 1])); }
    if d < n - 1 { FilledIsFact(assigns, filled, n - 1, d); }
  }

  /** Every value under `facts` is what the model said of that slot in answer to a call for
      the document of that label. */
  lemma FactsAreTold(chunks: seq<Chunk>, task: Task, ask: Answers, env: Env, e: Outcome, f: Field, g: Field)
    requires e == ExtractionOf(chunks, task, ask, env) && e.Extraction?
    requires f in e.facts && f.value.Obj? && g in f.value.fields
    ensures exists d: nat, slot :: (d < |e.assigns| && e.assigns[d].ref == f.key
      && slot in task.slots && slot.name == g.key && Told(ask, d, task.slots, env, slot, g.value))
  {
    ExtractionShape(chunks, task, ask, env, e);
    var filled := FilledAll(ask, |e.assigns|, task.slots, env);
    FactIsFilled(e.assigns, filled, |e.assigns|, f);
    var d: nat :| d < |e.assigns| && filled[d] != [] && f == Field(e.assigns[d].ref, Obj(filled[d]));
    FilledTold(ask, d, task.slots, env, g);
  }

  /** And with distinct names and labels everything it said of a slot is there. */
  lemma ToldAreFacts(chunks: seq<Chunk>, task: Task, ask: Answers, env: Env, e: Outcome, d: nat, slot: Slot, w: Json)
    requires e == ExtractionOf(chunks, task, ask, env) && e.Extraction? && RefsDistinct(e.assigns)
    requires DistinctNames(task.slots) && slot in task.slots && d < |e.assigns| && Told(ask, d, task.slots, env, slot, w)
    ensures exists f :: f in e.facts && f.key == e.assigns[d].ref && f.value.Obj? && Field(slot.name, w) in f.value.fields
  {
    ExtractionShape(chunks, task, ask, env, e);
    var filled := FilledAll(ask, |e.assigns|, task.slots, env);
    FilledIff(ask, d, task.slots, env, slot, w);
    FilledIsFact(e.assigns, filled, |e.assigns|, d);
    assert Field(e.assigns[d].ref, Obj(filled[d])) in e.facts;
  }

  // ---- what was not asked for does not matter ----------------------------

  lemma FilledAlike(ask: Answers, other: Answers, docs: nat, slots: seq<Slot>, env: Env)
    requires Alike(ask, other, docs, Batches(slots))
    ensures FilledAll(ask, docs, slots, env) == FilledAll(other, docs, slots, env)
  {
    forall d: nat | d < docs ensures FilledBy(ask, d, slots, env) == FilledBy(other, d, slots, env) {
      MergedAlike(ask, other, docs, d, Batches(slots), |Batches(slots)|);
    }
  }

  lemma ConcludedAlike(task: Task, assigns: seq<Assignment>, facts: seq<Field>, d: int, d': int, calls: nat)
    ensures var e, o := Concluded(task, assigns, facts, d, calls), Concluded(task, assigns, facts, d', calls);
      if e.Raised? then o == e else o == e.(dropped := d')
  {
  }

  /** Keys outside the requested batch change nothing but the drop count. */
  lemma OutsideKeysIgnored(chunks: seq<Chunk>, task: Task, ask: Answers, other: Answers, env: Env, e: Outcome, o: Outcome)
    requires Alike(ask, other, |Ordering.Sorted(chunks, ChunkLe)|, Batches(task.slots))
    requires e == ExtractionOf(chunks, task, ask, env) && o == ExtractionOf(chunks, task, other, env)
    ensures if e.Raised? then o == e else o.Extraction? && o == e.(dropped := o.dropped)
  {
    var labelled := Assigned(chunks, task.roles, env.upper);
    if labelled.Some? {
      var assigns, batches := labelled.value, Batches(task.slots);
      FilledAlike(ask, other, |assigns|, task.slots, env);
      var facts := FactsOf(assigns, FilledAll(ask, |assigns|, task.slots, env), |assigns|);
      ConcludedAlike(task, assigns, facts, AllDropped(ask, |assigns|, batches), AllDropped(other, |assigns|, batches),
                     Calls(|assigns|, |batches|));
    }
  }
}
