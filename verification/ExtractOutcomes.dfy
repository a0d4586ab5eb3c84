/** src/mesh/extractor.py, `extract`: which outcome it has, and how many keys it drops, said
    of the documents and of the model's answers alone. */
module ExtractOutcomes {
  import opened Schemas
  import opened Ordering
  import opened JsonValues
  import opened Vocabularies
  import opened Assembling
  import opened Labels
  import opened Batching
  import opened Extracting
  import opened PayloadChecks

  // ---- the outcome ---------------------------------------------------------

  /** Some call for document `d` says something of the slot. */
  ghost predicate SaidOf(ask: Answers, d: nat, task: Task, env: Env, slot: Slot) {
    exists w :: Told(ask, d, task.slots, env, slot, w)
  }

  lemma {:induction false} FilledInIff(facts: seq<Field>, name: string)
    ensures name in FilledIn(facts) <==>
      exists f, g :: f in facts && f.value.Obj? && g in f.value.fields && g.key == name
  {
    if facts != [] {
      FilledInIff(facts[1..], name);
      assert forall f :: f in facts <==> f == facts[0] || f in facts[1..];
    }
  }

  ghost function FactsFrom(assigns: seq<Assignment>, task: Task, ask: Answers, env: Env): seq<Field> {
    FactsOf(assigns, FilledAll(ask, |assigns|, task.slots, env), |assigns|)
  }

  lemma FilledWasSaid(assigns: seq<Assignment>, task: Task, ask: Answers, env: Env, slot: Slot, f: Field, g: Field)
    requires DistinctNames(task.slots) && slot in task.slots
    requires f in FactsFrom(assigns, task, ask, env) && f.value.Obj? && g in f.value.fields && g.key == slot.name
    ensures exists d :: 0 <= d < |assigns| && SaidOf(ask, d, task, env, slot)
  {
    var n, filled := |assigns|, FilledAll(ask, |assigns|, task.slots, env);
    FactIsFilled(assigns, filled, n, f);
    var d: nat :| d < n && filled[d] != [] && f == Field(assigns[d].ref, Obj(filled[d]));
    FilledIff(ask, d, task.slots, env, slot, g.value);
    assert SaidOf(ask, d, task, env, slot);
  }

  lemma SaidIsFilled(assigns: seq<Assignment>, task: Task, ask: Answers, env: Env, slot: Slot, d: nat)
    requires DistinctNames(task.slots) && RefsDistinct(assigns) && slot in task.slots
    requires d < |assigns| && SaidOf(ask, d, task, env, slot)
    ensures slot.name in FilledIn(FactsFrom(assigns, task, ask, env))
  {
    var n, filled := |assigns|, FilledAll(ask, |assigns|, task.slots, env);
    var w :| Told(ask, d, task.slots, env, slot, w);
    FilledIff(ask, d, task.slots, env, slot, w);
    assert Field(slot.name, w) in filled[d];
    FilledIsFact(assigns, filled, n, d);
    FilledInIff(FactsFrom(assigns, task, ask, env), slot.name);
  }

  /** A slot is filled in the facts just when some document is said to have it. */
  lemma FilledIffSaid(assigns: seq<Assignment>, task: Task, ask: Answers, env: Env, slot: Slot)
    requires DistinctNames(task.slots) && RefsDistinct(assigns) && slot in task.slots
    ensures slot.name in FilledIn(FactsFrom(assigns, task, ask, env)) <==>
      exists d :: 0 <= d < |assigns| && SaidOf(ask, d, task, env, slot)
  {
    var facts := FactsFrom(assigns, task, ask, env);
    if slot.name in FilledIn(facts) {
      FilledInIff(facts, slot.name);
      var f, g :| f in facts && f.value.Obj? && g in f.value.fields && g.key == slot.name;
      FilledWasSaid(assigns, task, ask, env, slot, f, g);
    }
    if d :| 0 <= d < |assigns| && SaidOf(ask, d, task, env, slot) {
      SaidIsFilled(assigns, task, ask, env, slot, d);
    }
  }

  /** There are facts just when some document is said to have some slot. */
  lemma AnyIffSaid(assigns: seq<Assignment>, task: Task, ask: Answers, env: Env)
    requires DistinctNames(task.slots) && RefsDistinct(assigns)
    ensures FactsFrom(assigns, task, ask, env) != [] <==> SomethingSaid(ask, |assigns|, task, env)
  {
    var n, filled, facts := |assigns|, FilledAll(ask, |assigns|, task.slots, env), FactsFrom(assigns, task, ask, env);
    if facts != [] {
      FactIsFilled(assigns, filled, n, facts[0]);
      var d: nat :| d < n && filled[d] != [] && facts[0] == Field(assigns[d].ref, Obj(filled[d]));
      var g := filled[d][0];
      FilledTold(ask, d, task.slots, env, g);
      var slot :| slot in task.slots && slot.name == g.key && Told(ask, d, task.slots, env, slot, g.value);
      assert SaidOf(ask, d, task, env, slot);
    }
    if d, slot :| 0 <= d < n && slot in task.slots && SaidOf(ask, d, task, env, slot) {
      SaidIsFilled(assigns, task, ask, env, slot, d);
    }
  }

  /** A call was not answered by an object. */
  ghost predicate SomeFails(ask: Answers, calls: nat) {
    exists i :: 0 <= i < calls && !Call(ask, i).Answer?
  }

  ghost predicate SomethingSaid(ask: Answers, docs: nat, task: Task, env: Env) {
    exists d, slot :: 0 <= d < docs && slot in task.slots && SaidOf(ask, d, task, env, slot)
  }

  ghost predicate AllRequiredSaid(ask: Answers, docs: nat, task: Task, env: Env) {
    forall slot :: slot in task.slots && slot.required ==> exists d :: 0 <= d < docs && SaidOf(ask, d, task, env, slot)
  }

  ghost function BatchesFor(task: Task): nat {
    (|task.slots| + 11) / 12
  }

  /** One call per document and twelve slots. */
  ghost function CallsFor(chunks: seq<Chunk>, task: Task): nat {
    |chunks| * BatchesFor(task)
  }

  lemma BatchesNeeded(task: Task)
    ensures |Batches(task.slots)| == BatchesFor(task)
  {
    BatchCount(task.slots);
  }

  lemma AssignedSize(chunks: seq<Chunk>, roles: seq<string>, upper: string -> string)
    requires Assigned(chunks, roles, upper).Some?
    ensures |Assigned(chunks, roles, upper).value| == |chunks|
  {
    SortedSize(chunks, ChunkLe);
  }

  lemma CallsNeeded(chunks: seq<Chunk>, task: Task, env: Env)
    requires Assigned(chunks, task.roles, env.upper).Some?
    ensures |Assigned(chunks, task.roles, env.upper).value| == |chunks|
    ensures Calls(|chunks|, |Batches(task.slots)|) == CallsFor(chunks, task)
  {
    AssignedSize(chunks, task.roles, env.upper);
    BatchesNeeded(task);
    CallsAre(|chunks|, BatchesFor(task));
  }

  lemma RequiredIff(assigns: seq<Assignment>, task: Task, ask: Answers, env: Env)
    requires DistinctNames(task.slots) && RefsDistinct(assigns)
    ensures var facts := FactsFrom(assigns, task, ask, env);
      RequiredSlots(task.slots) <= FilledIn(facts) <==> AllRequiredSaid(ask, |assigns|, task, env)
  {
    var facts := FactsFrom(assigns, task, ask, env);
    forall slot | slot in task.slots
      ensures slot.name in FilledIn(facts) <==> exists d :: 0 <= d < |assigns| && SaidOf(ask, d, task, env, slot)
    {
      FilledIffSaid(assigns, task, ask, env, slot);
    }
    if RequiredSlots(task.slots) <= FilledIn(facts) {
      forall slot | slot in task.slots && slot.required ensures exists d :: 0 <= d < |assigns| && SaidOf(ask, d, task, env, slot) {
        assert slot.name in RequiredSlots(task.slots);
      }
    }
  }

  /** What comes of it, once the documents have labels. */
  ghost function Expected(chunks: seq<Chunk>, task: Task, ask: Answers, env: Env): Option<Failure> {
    if SomeFails(ask, CallsFor(chunks, task)) then Some(CallFailed)
    else if !SomethingSaid(ask, |chunks|, task, env) then Some(NothingFilled)
    else if !AllRequiredSaid(ask, |chunks|, task, env) then Some(RequiredMissing)
    else None
  }

  lemma LabelledOutcome(chunks: seq<Chunk>, task: Task, ask: Answers, env: Env, assigns: seq<Assignment>)
    requires Assigned(chunks, task.roles, env.upper) == Some(assigns)
    requires DistinctNames(task.slots) && RefsDistinct(assigns)
    ensures match Expected(chunks, task, ask, env)
      case Some(why) => ExtractionOf(chunks, task, ask, env) == Raised(why)
      case None => ExtractionOf(chunks, task, ask, env).Extraction?
  {
    CallsNeeded(chunks, task, env);
    AnyIffSaid(assigns, task, ask, env);
    RequiredIff(assigns, task, ask, env);
  }

  /** Extraction fails without labels; else when a call fails; else when nothing at all is said
      of any slot; else when nothing is said of a required one; and otherwise succeeds. With
      distinct names and labels. */
  lemma ExtractFailsIff(chunks: seq<Chunk>, task: Task, ask: Answers, env: Env)
    requires DistinctNames(task.slots)
    requires Assigned(chunks, task.roles, env.upper).Some? ==> RefsDistinct(Assigned(chunks, task.roles, env.upper).value)
    ensures ExtractionOf(chunks, task, ask, env) == Raised(NoLabels) <==> Assigned(chunks, task.roles, env.upper).None?
    ensures Assigned(chunks, task.roles, env.upper).Some? ==>
      match Expected(chunks, task, ask, env)
      case Some(why) => ExtractionOf(chunks, task, ask, env) == Raised(why)
      case None => ExtractionOf(chunks, task, ask, env).Extraction?
  {
    if Assigned(chunks, task.roles, env.upper).Some? {
      LabelledOutcome(chunks, task, ask, env, Assigned(chunks, task.roles, env.upper).value);
    }
  }

  // ---- what is dropped -------------------------------------------------------

  /** A key of the answer to a call: that for batch `batch` of document `doc`. */
  datatype Key = Key(doc: nat, batch: nat, name: string)

  /** The answer brings a key that its batch did not ask for. */
  ghost predicate Outside<V>(ask: Oracle<V>, batches: seq<seq<Slot>>, k: Key) {
    && k.batch < |batches|
    && Call(ask, k.doc * |batches| + k.batch).Answer? && k.name in Call(ask, k.doc * |batches| + k.batch).m
    && k.name !in SlotNames(batches[k.batch])
  }

  ghost function OutsideOf<V>(ask: Oracle<V>, batches: seq<seq<Slot>>, d: nat, b: nat): set<Key>
    requires b < |batches|
  {
    set name | name in Body(Call(ask, Calls(d, |batches|) + b)) && name !in SlotNames(batches[b]) :: Key(d, b, name)
  }

  ghost function OutsideIn<V>(ask: Oracle<V>, batches: seq<seq<Slot>>, d: nat, n: nat): set<Key>
    requires n <= |batches|
  {
    if n == 0 then {} else OutsideIn(ask, batches, d, n - 1) + OutsideOf(ask, batches, d, n - 1)
  }

  /** All such keys of the first `docs` documents. */
  ghost function OutsideKeys<V>(ask: Oracle<V>, batches: seq<seq<Slot>>, docs: nat): set<Key> {
    if docs == 0 then {} else OutsideKeys(ask, batches, docs - 1) + OutsideIn(ask, batches, docs - 1, |batches|)
  }

  lemma OutsideOfIs<V>(ask: Oracle<V>, batches: seq<seq<Slot>>, d: nat, b: nat, k: Key)
    requires b < |batches|
    ensures k in OutsideOf(ask, batches, d, b) <==> k.doc == d && k.batch == b && Outside(ask, batches, k)
  {
    CallsAre(d, |batches|);
    assert k == Key(k.doc, k.batch, k.name);
  }

  lemma {:induction false} OutsideInIs<V>(ask: Oracle<V>, batches: seq<seq<Slot>>, d: nat, n: nat, k: Key)
    requires n <= |batches|
    ensures k in OutsideIn(ask, batches, d, n) <==> k.doc == d && k.batch < n && Outside(ask, batches, k)
  {
    if n > 0 {
      OutsideInIs(ask, batches, d, n - 1, k);
      OutsideOfIs(ask, batches, d, n - 1, k);
    }
  }

  lemma {:induction false} OutsideKeysAre<V>(ask: Oracle<V>, batches: seq<seq<Slot>>, docs: nat, k: Key)
    ensures k in OutsideKeys(ask, batches, docs) <==> k.doc < docs && Outside(ask, batches, k)
  {
    if docs > 0 {
      OutsideKeysAre(ask, batches, docs - 1, k);
      OutsideInIs(ask, batches, docs - 1, |batches|, k);
    }
  }

  lemma {:induction false} KeysSize(names: set<string>, d: nat, b: nat)
    ensures |set name | name in names :: Key(d, b, name)| == |names|
  {
    if names != {} {
      var x :| x in names;
      KeysSize(names - {x}, d, b);
      assert (set name | name in names :: Key(d, b, name))
          == (set name | name in names - {x} :: Key(d, b, name)) + {Key(d, b, x)};
    }
  }

  lemma LostIs<V>(m: map<string, V>, batch: seq<Slot>)
    ensures Lost(m, batch) == |set name | name in m && name !in SlotNames(batch)|
  {
    var outside := set name | name in m && name !in SlotNames(batch);
    assert m.Keys == Kept(m, batch).Keys + outside && Kept(m, batch).Keys !! outside;
    assert |m| == |m.Keys| && |Kept(m, batch)| == |Kept(m, batch).Keys|;
  }

  lemma LostHere<V>(ask: Oracle<V>, batches: seq<seq<Slot>>, d: nat, b: nat)
    requires b < |batches|
    ensures Lost(Body(Call(ask, Calls(d, |batches|) + b)), batches[b]) == |OutsideOf(ask, batches, d, b)|
  {
    var m, batch := Body(Call(ask, Calls(d, |batches|) + b)), batches[b];
    var outside := set name | name in m && name !in SlotNames(batch);
    LostIs(m, batch);
    KeysSize(outside, d, b);
    assert OutsideOf(ask, batches, d, b) == set name | name in outside :: Key(d, b, name);
  }

  lemma ApartSize<T>(a: set<T>, b: set<T>)
    requires a !! b
    ensures |a + b| == |a| + |b|
  {
  }

  lemma OneBatchMore<V>(ask: Oracle<V>, batches: seq<seq<Slot>>, d: nat, n: nat)
    requires n < |batches|
    ensures |OutsideIn(ask, batches, d, n + 1)| == |OutsideIn(ask, batches, d, n)| + |OutsideOf(ask, batches, d, n)|
  {
    var before, here := OutsideIn(ask, batches, d, n), OutsideOf(ask, batches, d, n);
    forall k ensures !(k in before && k in here) {
      OutsideInIs(ask, batches, d, n, k);
      OutsideOfIs(ask, batches, d, n, k);
    }
    ApartSize(before, here);
  }

  lemma OneDocMore<V>(ask: Oracle<V>, batches: seq<seq<Slot>>, docs: nat)
    ensures |OutsideKeys(ask, batches, docs + 1)| == |OutsideKeys(ask, batches, docs)| + |OutsideIn(ask, batches, docs, |batches|)|
  {
    var before, here := OutsideKeys(ask, batches, docs), OutsideIn(ask, batches, docs, |batches|);
    forall k ensures !(k in before && k in here) {
      OutsideKeysAre(ask, batches, docs, k);
      OutsideInIs(ask, batches, docs, |batches|, k);
    }
    ApartSize(before, here);
  }

  lemma DroppedMore<V>(ask: Oracle<V>, d: nat, batches: seq<seq<Slot>>, n: nat)
    requires n < |batches|
    ensures Dropped(ask, Calls(d, |batches|), batches, n + 1)
         == Dropped(ask, Calls(d, |batches|), batches, n) + |OutsideOf(ask, batches, d, n)|
  {
    LostHere(ask, batches, d, n);
  }

  lemma DroppedIs<V>(ask: Oracle<V>, d: nat, batches: seq<seq<Slot>>, n: nat)
    requires n <= |batches|
    ensures Dropped(ask, Calls(d, |batches|), batches, n) == |OutsideIn(ask, batches, d, n)|
  {
    for i := 0 to n
      invariant Dropped(ask, Calls(d, |batches|), batches, i) == |OutsideIn(ask, batches, d, i)|
    {
      OneBatchMore(ask, batches, d, i);
      DroppedMore(ask, d, batches, i);
    }
  }

  lemma AllDroppedIs<V>(ask: Oracle<V>, docs: nat, batches: seq<seq<Slot>>)
    ensures AllDropped(ask, docs, batches) == |OutsideKeys(ask, batches, docs)|
  {
    for d := 0 to docs
      invariant AllDropped(ask, d, batches) == |OutsideKeys(ask, batches, d)|
    {
      OneDocMore(ask, batches, d);
      DroppedIs(ask, d, batches, |batches|);
    }
  }

  lemma DropsKept(task: Task, assigns: seq<Assignment>, facts: seq<Field>, dropped: int, calls: nat)
    requires Concluded(task, assigns, facts, dropped, calls).Extraction?
    ensures Concluded(task, assigns, facts, dropped, calls).dropped == dropped
  {
  }

  lemma ExtractionDropped(chunks: seq<Chunk>, task: Task, ask: Answers, env: Env, assigns: seq<Assignment>)
    requires Assigned(chunks, task.roles, env.upper) == Some(assigns) && ExtractionOf(chunks, task, ask, env).Extraction?
    ensures ExtractionOf(chunks, task, ask, env).dropped == AllDropped(ask, |assigns|, Batches(task.slots))
  {
    var batches := Batches(task.slots);
    DropsKept(task, assigns, FactsFrom(assigns, task, ask, env), AllDropped(ask, |assigns|, batches),
              Calls(|assigns|, |batches|));
  }

  /** The drop count is the number of keys, over all calls, that the call did not ask for. */
  lemma DropCountIs(chunks: seq<Chunk>, task: Task, ask: Answers, env: Env)
    requires ExtractionOf(chunks, task, ask, env).Extraction?
    ensures ExtractionOf(chunks, task, ask, env).dropped == |OutsideKeys(ask, Batches(task.slots), |chunks|)|
    ensures forall k ::
      k in OutsideKeys(ask, Batches(task.slots), |chunks|) <==> k.doc < |chunks| && Outside(ask, Batches(task.slots), k)
  {
    AssignedSize(chunks, task.roles, env.upper);
    ExtractionDropped(chunks, task, ask, env, Assigned(chunks, task.roles, env.upper).value);
    AllDroppedIs(ask, |chunks|, Batches(task.slots));
    OutsideKeysAll(ask, Batches(task.slots), |chunks|);
  }

  lemma OutsideKeysAll<V>(ask: Oracle<V>, batches: seq<seq<Slot>>, docs: nat)
    ensures forall k :: k in OutsideKeys(ask, batches, docs) <==> k.doc < docs && Outside(ask, batches, k)
  {
    forall k ensures k in OutsideKeys(ask, batches, docs) <==> k.doc < docs && Outside(ask, batches, k) {
      OutsideKeysAre(ask, batches, docs, k);
    }
  }
}
