/** src/mesh/extractor.py, `extract` and `build_payload`: every document is put to the
    in-zone model in batches of slots. The model is an oracle that may answer anything;
    `ask(i)` is its answer to the i-th call. */
module Extracting {
  import opened Schemas
  import opened Whitespace
  import opened JsonValues
  import opened Vocabularies
  import opened Assembling
  import opened Labels
  import opened Batching

  const EXTRACT_MAX_CHARS: nat := 12000

  /** `build_document` of one document. */
  function Document(c: Chunk): string {
    "--- document 1 ---\n" + (if |c.text| > EXTRACT_MAX_CHARS
                              then c.text[..EXTRACT_MAX_CHARS] + "\n[... truncated ...]" else c.text)
  }

  /** The source skips a blank document; because of the heading none is. */
  lemma DocumentNotBlank(c: Chunk)
    ensures Strip(Document(c)) != ""
  {
    var d := Document(c);
    assert d[0] == '-' && StripLeft(d) == d;
    StripRightHolds(d);
  }

  /** The model is shown the first twelve thousand characters, and told if there are more. */
  lemma DocumentIs(c: Chunk)
    ensures var k := if |c.text| < 12000 then |c.text| else 12000;
      Document(c) == "--- document 1 ---\n" + c.text[..k] + if k < |c.text| then "\n[... truncated ...]" else ""
  {
    assert c.text[..|c.text|] == c.text;
  }

  lemma {:induction false} StripRightHolds(s: string)
    requires s != "" && !IsSpace(s[0])
    ensures StripRight(s) != ""
  {
    if IsSpace(s[|s| - 1]) { StripRightHolds(s[..|s| - 1]); }
  }

  type Answers = Oracle<Json>

  // ---- all documents -----------------------------------------------------

  /** The facts of one document. */
  function FilledBy(ask: Answers, d: nat, slots: seq<Slot>, env: Env): seq<Field> {
    var batches := Batches(slots);
    Assembled(Merged(ask, Calls(d, |batches|), batches, |batches|), slots, env)
  }

  /** The answer to some call for document `d` says `w` of a slot of that name. */
  ghost predicate Told(ask: Answers, d: nat, slots: seq<Slot>, env: Env, slot: Slot, w: Json) {
    exists b: nat, v :: ToldAt(ask, d, slots, env, slot, w, b, v)
  }

  ghost predicate ToldAt(ask: Answers, d: nat, slots: seq<Slot>, env: Env, slot: Slot, w: Json, b: nat, v: Json) {
    && Brings(ask, Calls(d, |Batches(slots)|), Batches(slots), b, slot.name, v)
    && !(v.Str? && Stripped(v.s, "__unknown__")) && Says(v, slot.kind, w, env)
  }

  /** Every fact of a document is what the model said in answer to a call for it. */
  lemma FilledTold(ask: Answers, d: nat, slots: seq<Slot>, env: Env, f: Field)
    requires f in FilledBy(ask, d, slots, env)
    ensures exists slot :: slot in slots && slot.name == f.key && Told(ask, d, slots, env, slot, f.value)
  {
    var batches := Batches(slots);
    var at := Calls(d, |batches|);
    var raw := Merged(ask, at, batches, |batches|);
    AssembledSays(raw, slots, env, f);
    var slot :| slot in slots && slot.name == f.key && Given(raw, f.key) && Says(raw[f.key], slot.kind, f.value, env);
    MergedBrought(ask, at, batches, |batches|, f.key);
    var b: nat :| b < |batches| && Brings(ask, at, batches, b, f.key, raw[f.key]);
    assert ToldAt(ask, d, slots, env, slot, f.value, b, raw[f.key]);
  }

  /** With distinct names everything it said is one. */
  lemma FilledIff(ask: Answers, d: nat, slots: seq<Slot>, env: Env, slot: Slot, w: Json)
    requires DistinctNames(slots) && slot in slots
    ensures Field(slot.name, w) in FilledBy(ask, d, slots, env) <==> Told(ask, d, slots, env, slot, w)
  {
    if Field(slot.name, w) in FilledBy(ask, d, slots, env) {
      FilledTold(ask, d, slots, env, Field(slot.name, w));
      var other :| other in slots && other.name == slot.name && Told(ask, d, slots, env, other, w);
      FindSlotIs(slots, slot);
      FindSlotIs(slots, other);
    }
    if Told(ask, d, slots, env, slot, w) {
      var b: nat, v :| ToldAt(ask, d, slots, env, slot, w, b, v);
      ToldFilled(ask, d, slots, env, slot, w, b, v);
    }
  }

  lemma ToldFilled(ask: Answers, d: nat, slots: seq<Slot>, env: Env, slot: Slot, w: Json, b: nat, v: Json)
    requires DistinctNames(slots) && slot in slots && ToldAt(ask, d, slots, env, slot, w, b, v)
    ensures Field(slot.name, w) in FilledBy(ask, d, slots, env)
  {
    var batches := Batches(slots);
    var at, n := Calls(d, |batches|), |batches|;
    forall j | b < j < n ensures slot.name !in SlotNames(batches[j]) {
      if slot.name in SlotNames(batches[j]) { OneBatch(slots, b, j, slot.name); }
    }
    BroughtMerged(ask, at, batches, n, b, slot.name, v);
    AssembledIff(Merged(ask, at, batches, n), slots, env, slot, w);
  }

  function FilledAll(ask: Answers, docs: nat, slots: seq<Slot>, env: Env): seq<seq<Field>> {
    seq(docs, d requires 0 <= d < docs => FilledBy(ask, d, slots, env))
  }

  /** The facts of the first `n` documents, under their labels; a document without any
      has no entry. */
  function FactsOf(assigns: seq<Assignment>, filled: seq<seq<Field>>, n: nat): seq<Field>
    requires n <= |assigns| && n <= |filled|
  {
    if n == 0 then []
    else Noted(FactsOf(assigns, filled, n - 1), assigns[n - 1].ref, filled[n - 1])
  }

  function Noted(facts: seq<Field>, ref: string, filled: seq<Field>): seq<Field> {
    if filled == [] then facts else Put(facts, ref, Obj(filled))
  }

  function Keys(fields: seq<Field>): set<string> {
    set f | f in fields :: f.key
  }

  /** The slots filled in any document. */
  function FilledIn(facts: seq<Field>): set<string> {
    if facts == [] then {}
    else FilledIn(facts[1..]) + if facts[0].value.Obj? then Keys(facts[0].value.fields) else {}
  }

  function EntityObject(a: Assignment): Json {
    Obj([Field("ref", Str(a.ref)), Field("role", Str(a.role))])
  }

  function Entities(assigns: seq<Assignment>, facts: seq<Field>): seq<Json> {
    if assigns == [] then []
    else
      (if assigns[0].ref in Keys(facts) then [EntityObject(assigns[0])] else [])
      + Entities(assigns[1..], facts)
  }

  function AnswerFormat(answers: seq<Entry>): seq<Field> {
    seq(|answers|, i requires 0 <= i < |answers| => Field(answers[i].key, Str(answers[i].text)))
  }

  function BuildPayload(task: Task, assigns: seq<Assignment>, facts: seq<Field>): Json {
    Obj([
      Field("task", Str(task.id)),
      Field("domain", Str(task.domain)),
      Field("question_template", Str(task.template)),
      Field("entities", Arr(Entities(assigns, facts))),
      Field("facts", Obj(facts)),
      Field("answer_format", Obj(AnswerFormat(task.answers)))
    ])
  }

  datatype Failure = NoLabels | CallFailed | NothingFilled | RequiredMissing

  datatype Outcome =
    | Raised(why: Failure)
    | Extraction(payload: Json, assigns: seq<Assignment>, facts: seq<Field>, dropped: int, calls: nat)

  /** Required slots are filled over all documents together. */
  function Concluded(task: Task, assigns: seq<Assignment>, facts: seq<Field>, dropped: int, calls: nat): Outcome {
    if facts == [] then Raised(NothingFilled)
    else if !(RequiredSlots(task.slots) <= FilledIn(facts)) then Raised(RequiredMissing)
    else Extraction(BuildPayload(task, assigns, facts), assigns, facts, dropped, calls)
  }

  function ExtractionOf(chunks: seq<Chunk>, task: Task, ask: Answers, env: Env): Outcome {
    match Assigned(chunks, task.roles, env.upper)
    case None => Raised(NoLabels)
    case Some(assigns) =>
      var batches := Batches(task.slots);
      var calls := Calls(|assigns|, |batches|);
      if !Answered(ask, 0, calls) then Raised(CallFailed)
      else Concluded(task, assigns, FactsOf(assigns, FilledAll(ask, |assigns|, task.slots, env), |assigns|),
                     AllDropped(ask, |assigns|, batches), calls)
  }

  /** One document: its calls and what they fill. */
  method FillOne(d: nat, at: nat, batches: seq<seq<Slot>>, slots: seq<Slot>, ask: Answers, env: Env)
    returns (ok: bool, filled: seq<Field>, lost: int)
    requires at == Calls(d, |batches|) && batches == Batches(slots)
    ensures ok <==> Answered(ask, at, at + |batches|)
    ensures ok ==> filled == FilledBy(ask, d, slots, env) && lost == Dropped(ask, at, batches, |batches|)
  {
    var merged;
    ok, merged, lost := FillDocument(ask, at, batches);
    filled := [];
    if ok { filled := Assemble(Some(merged), slots, env); }
  }

  /** What is known after the first `d` documents. */
  datatype Progress = Progress(facts: seq<Field>, dropped: int, calls: nat)

  function ProgressOf(assigns: seq<Assignment>, slots: seq<Slot>, ask: Answers, env: Env, d: nat): Progress
    requires d <= |assigns|
  {
    var batches := Batches(slots);
    Progress(FactsOf(assigns, FilledAll(ask, |assigns|, slots, env), d), AllDropped(ask, d, batches), Calls(d, |batches|))
  }

  /** One document more. */
  lemma ProgressMore(assigns: seq<Assignment>, slots: seq<Slot>, ask: Answers, env: Env, d: nat)
    requires d < |assigns|
    ensures var p, batches := ProgressOf(assigns, slots, ask, env, d), Batches(slots);
      ProgressOf(assigns, slots, ask, env, d + 1) == Progress(
        Noted(p.facts, assigns[d].ref, FilledBy(ask, d, slots, env)),
        p.dropped + Dropped(ask, p.calls, batches, |batches|), p.calls + |batches|)
  {
  }

  method AddDocument(assigns: seq<Assignment>, batches: seq<seq<Slot>>, slots: seq<Slot>, ask: Answers, env: Env, d: nat,
                     p: Progress)
    returns (ok: bool, p': Progress)
    requires d < |assigns| && batches == Batches(slots) && p == ProgressOf(assigns, slots, ask, env, d)
    ensures ok <==> Answered(ask, p.calls, p.calls + |batches|)
    ensures ok ==> p' == ProgressOf(assigns, slots, ask, env, d + 1)
  {
    var filled, lost;
    ok, filled, lost := FillOne(d, p.calls, batches, slots, ask, env);
    ProgressMore(assigns, slots, ask, env, d);
    p' := if ok then Progress(Noted(p.facts, assigns[d].ref, filled), p.dropped + lost, p.calls + |batches|) else p;
  }

  /** The loop over the documents. */
  method FillAll(assigns: seq<Assignment>, slots: seq<Slot>, ask: Answers, env: Env) returns (ok: bool, p: Progress)
    ensures ok <==> Answered(ask, 0, Calls(|assigns|, |Batches(slots)|))
    ensures ok ==> p == ProgressOf(assigns, slots, ask, env, |assigns|)
  {
    var batches := Batches(slots);
    ghost var k := |batches|;
    p := Progress([], 0, 0);
    for d := 0 to |assigns|
      invariant p == ProgressOf(assigns, slots, ask, env, d) && Answered(ask, 0, Calls(d, k))
    {
      assert Calls(d, k) + k == Calls(d + 1, k) <= Calls(|assigns|, k) by { CallsGrow(d + 1, |assigns|, k); }
      ok, p := AddDocument(assigns, batches, slots, ask, env, d, p);
      if !ok { return; }
    }
    ok := true;
  }

  method Extract(chunks: seq<Chunk>, task: Task, ask: Answers, env: Env) returns (r: Outcome)
    ensures r == ExtractionOf(chunks, task, ask, env)
  {
    var labelled := AssignRefs(chunks, task.roles, env.upper);
    if labelled.None? { return Raised(NoLabels); }
    var ok, p := FillAll(labelled.value, task.slots, ask, env);
    r := if ok then Concluded(task, labelled.value, p.facts, p.dropped, p.calls) else Raised(CallFailed);
  }
}
