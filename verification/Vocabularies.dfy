/** src/mesh/schemas.py: slots, task schemas and the vocabulary of what may cross. */
module Vocabularies {
  import opened Schemas

  datatype Kind = Enum(allowed: seq<string>) | Range(min: int, max: int) | Flag
  datatype Slot = Slot(name: string, kind: Kind, required: bool)
  datatype Entry = Entry(key: string, text: string)

  datatype Task = Task(id: string, domain: string, template: string, answers: seq<Entry>,
                       roles: seq<string>, slots: seq<Slot>)

  datatype Vocab = Vocab(tasks: set<string>, domains: set<string>, templates: set<string>)

  const STRUCTURAL_KEYS: set<string> := {
    "task", "domain", "entities", "ref", "role", "facts", "question_template", "answer_format"
  }

  function SlotNames(slots: seq<Slot>): set<string> {
    set s | s in slots :: s.name
  }

  function RequiredSlots(slots: seq<Slot>): set<string> {
    set s | s in slots && s.required :: s.name
  }

  /** The first slot of that name. */
  function FindSlot(slots: seq<Slot>, name: string): Option<Slot> {
    if slots == [] then None
    else if slots[0].name == name then Some(slots[0])
    else FindSlot(slots[1..], name)
  }

  ghost predicate DistinctNames(slots: seq<Slot>) {
    forall i, j :: 0 <= i < j < |slots| ==> slots[i].name != slots[j].name
  }

  lemma {:induction false} FindSlotIs(slots: seq<Slot>, s: Slot)
    requires DistinctNames(slots) && s in slots
    ensures FindSlot(slots, s.name) == Some(s)
  {
    if slots[0] != s {
      assert s in slots[1..];
      FindSlotIs(slots[1..], s);
    }
  }
}
