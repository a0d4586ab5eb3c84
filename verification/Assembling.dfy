/** src/mesh/extractor.py: a model's answer is forced into slot types and only slots are
    taken from it - the schema is gone through, never the answer. */
module Assembling {
  import opened Schemas
  import opened Whitespace
  import opened Normalizing
  import opened JsonValues
  import opened Vocabularies

  const UNKNOWN := "__unknown__"
  const TRUE_WORDS := {"true", "yes", "y", "t"}
  const FALSE_WORDS := {"false", "no", "n", "f"}

  /** The character tables and the one pattern the model does not spell out. */
  datatype Env = Env(lower: Lowering, upper: string -> string, intOf: string -> Option<int>)

  /** `None` is the source's `DROP`. */
  function CoerceFlag(v: Json, env: Env): Option<Json> {
    match v
    case Bool(_) => Some(v)
    case Int(n) => if n == 0 || n == 1 then Some(Bool(n == 1)) else None
    case Str(s) =>
      var word := Lower(Strip(s), env.lower);
      if word in TRUE_WORDS then Some(Bool(true)) else if word in FALSE_WORDS then Some(Bool(false)) else None
    case _ => None
  }

  function CoerceInt(v: Json, env: Env): Option<Json> {
    match v
    case Int(_) => Some(v)
    case Real(r) => if r.Floor as real == r then Some(Int(r.Floor)) else None
    case Str(s) => (match env.intOf(s) case Some(n) => Some(Int(n)) case None => None)
    case _ => None
  }

  /** No near matches. */
  function CoerceEnum(v: Json, allowed: seq<string>): Option<Json> {
    if v.Str? && Strip(v.s) in allowed then Some(Str(Strip(v.s))) else None
  }

  function Coerce(v: Json, slot: Slot, env: Env): Option<Json> {
    match slot.kind
    case Flag => CoerceFlag(v, env)
    case Range(_, _) => CoerceInt(v, env)
    case Enum(allowed) => CoerceEnum(v, allowed)
  }

  /** The slot's type, and for an enum one of its values; not the bounds. */
  predicate Fits(slot: Slot, v: Json) {
    match slot.kind
    case Flag => v.Bool?
    case Range(_, _) => v.Int?
    case Enum(allowed) => v.Str? && v.s in allowed && Strip(v.s) == v.s
  }

  lemma {:induction false} StripRightTwice(s: string)
    ensures StripRight(StripRight(s)) == StripRight(s)
  {
    if s != "" && IsSpace(s[|s| - 1]) { StripRightTwice(s[..|s| - 1]); }
  }

  lemma {:induction false} StripRightKeepsStart(s: string)
    requires s == "" || !IsSpace(s[0])
    ensures StripRight(s) == "" || !IsSpace(StripRight(s)[0])
  {
    if s != "" && IsSpace(s[|s| - 1]) { StripRightKeepsStart(s[..|s| - 1]); }
  }

  lemma {:induction false} StripLeftStart(s: string)
    ensures StripLeft(s) == "" || !IsSpace(StripLeft(s)[0])
  {
    if s != "" && IsSpace(s[0]) { StripLeftStart(s[1..]); }
  }

  lemma StripTwice(s: string)
    ensures Strip(Strip(s)) == Strip(s)
  {
    StripLeftStart(s);
    StripRightKeepsStart(StripLeft(s));
    StripRightTwice(StripLeft(s));
  }

  /** A value is kept just if it can be made to fit; what fits is left as it is, so
      coercing again changes nothing. */
  lemma CoerceFits(v: Json, slot: Slot, env: Env)
    ensures Coerce(v, slot, env).Some? ==>
      Fits(slot, Coerce(v, slot, env).value)
      && Coerce(Coerce(v, slot, env).value, slot, env) == Coerce(v, slot, env)
    ensures Fits(slot, v) ==> Coerce(v, slot, env) == Some(v)
  {
    if v.Str? { StripTwice(v.s); }
  }

  // ---- what a value says ---------------------------------------------------

  /** The words for yes and for no. */
  predicate WordFor(b: bool, word: string) {
    if b then word == "true" || word == "yes" || word == "y" || word == "t"
    else word == "false" || word == "no" || word == "n" || word == "f"
  }

  ghost predicate SaysFlag(v: Json, b: bool, env: Env) {
    || v == Bool(b) || v == Int(if b then 1 else 0)
    || (v.Str? && exists t :: Stripped(v.s, t) && WordFor(b, Lower(t, env.lower)))
  }

  ghost predicate SaysInt(v: Json, n: int, env: Env) {
    v == Int(n) || v == Real(n as real) || (v.Str? && env.intOf(v.s) == Some(n))
  }

  /** What the answer `v` says about a slot. */
  ghost predicate Says(v: Json, kind: Kind, w: Json, env: Env) {
    match kind
    case Flag => w.Bool? && SaysFlag(v, w.b, env)
    case Range(_, _) => w.Int? && SaysInt(v, w.n, env)
    case Enum(allowed) => v.Str? && w.Str? && Stripped(v.s, w.s) && w.s in allowed
  }

  lemma WordsApart(word: string)
    ensures word in TRUE_WORDS <==> WordFor(true, word)
    ensures word in FALSE_WORDS <==> WordFor(false, word)
    ensures !(WordFor(true, word) && WordFor(false, word))
  {
  }

  lemma FlagWordIff(s: string, b: bool, env: Env)
    ensures CoerceFlag(Str(s), env) == Some(Bool(b)) <==> exists t :: Stripped(s, t) && WordFor(b, Lower(t, env.lower))
  {
    WordsApart(Lower(Strip(s), env.lower));
    StripIs(s);
    forall t | Stripped(s, t) ensures t == Strip(s) { OneStripped(s, t); }
  }

  lemma FlagIff(v: Json, b: bool, env: Env)
    ensures CoerceFlag(v, env) == Some(Bool(b)) <==> SaysFlag(v, b, env)
    ensures CoerceFlag(v, env).Some? ==> CoerceFlag(v, env).value.Bool?
  {
    if v.Str? { FlagWordIff(v.s, b, env); }
  }

  lemma IntIff(v: Json, n: int, env: Env)
    ensures CoerceInt(v, env) == Some(Int(n)) <==> SaysInt(v, n, env)
    ensures CoerceInt(v, env).Some? ==> CoerceInt(v, env).value.Int?
  {
  }

  lemma EnumIff(v: Json, s: string, allowed: seq<string>)
    ensures CoerceEnum(v, allowed) == Some(Str(s)) <==> v.Str? && Stripped(v.s, s) && s in allowed
    ensures CoerceEnum(v, allowed).Some? ==> CoerceEnum(v, allowed).value.Str?
  {
    if v.Str? {
      StripIs(v.s);
      if Stripped(v.s, s) { OneStripped(v.s, s); }
    }
  }

  /** Coercion gives exactly what the answer says about the slot, and nothing else. */
  lemma CoerceIff(v: Json, slot: Slot, env: Env, w: Json)
    ensures Coerce(v, slot, env) == Some(w) <==> Says(v, slot.kind, w, env)
  {
    match slot.kind
    case Flag => FlagIff(v, w.Bool? && w.b, env);
    case Range(_, _) => IntIff(v, if w.Int? then w.n else 0, env);
    case Enum(allowed) => EnumIff(v, if w.Str? then w.s else "", allowed);
  }

  /** The answer gives a value, and not the word for not knowing. */
  ghost predicate Given(raw: map<string, Json>, name: string) {
    name in raw && !(raw[name].Str? && Stripped(raw[name].s, "__unknown__"))
  }

  lemma SlottedIff(raw: map<string, Json>, slot: Slot, env: Env, w: Json)
    ensures Slotted(raw, slot, env) == Some(w) <==> Given(raw, slot.name) && Says(raw[slot.name], slot.kind, w, env)
  {
    if slot.name in raw {
      var v := raw[slot.name];
      CoerceIff(v, slot, env, w);
      if v.Str? {
        StripIs(v.s);
        if Stripped(v.s, "__unknown__") { OneStripped(v.s, "__unknown__"); }
      }
    }
  }

  // ---- assembling --------------------------------------------------------

  /** Python's `d[key] = value`. */
  function Put(fields: seq<Field>, key: string, value: Json): seq<Field> {
    if fields == [] then [Field(key, value)]
    else if fields[0].key == key then [Field(key, value)] + fields[1..]
    else [fields[0]] + Put(fields[1..], key, value)
  }

  lemma {:induction false} PutIs(fields: seq<Field>, key: string, value: Json)
    ensures forall f :: f in Put(fields, key, value) ==> f == Field(key, value) || f in fields
    ensures Field(key, value) in Put(fields, key, value)
    ensures forall f :: f in fields && f.key != key ==> f in Put(fields, key, value)
  {
    if fields != [] && fields[0].key != key {
      PutIs(fields[1..], key, value);
      assert fields == [fields[0]] + fields[1..];
    }
  }

  /** An entry of that key, the first, is replaced where it stands. */
  lemma {:induction false} PutReplaces(fields: seq<Field>, key: string, value: Json, i: nat)
    requires i < |fields| && fields[i].key == key && forall j :: 0 <= j < i ==> fields[j].key != key
    ensures Put(fields, key, value) == fields[i := Field(key, value)]
  {
    if i > 0 {
      assert forall j :: 0 <= j < i - 1 ==> fields[1..][j] == fields[j + 1];
      PutReplaces(fields[1..], key, value, i - 1);
    }
  }

  /** Without one it comes last. */
  lemma {:induction false} PutAppends(fields: seq<Field>, key: string, value: Json)
    requires forall f :: f in fields ==> f.key != key
    ensures Put(fields, key, value) == fields + [Field(key, value)]
  {
    if fields != [] {
      PutAppends(fields[1..], key, value);
      assert fields == [fields[0]] + fields[1..];
    }
  }

  predicate IsUnknown(v: Json) {
    v.Str? && Strip(v.s) == UNKNOWN
  }

  /** What one slot gets out of an answer. */
  function Slotted(raw: map<string, Json>, slot: Slot, env: Env): Option<Json> {
    if slot.name !in raw || IsUnknown(raw[slot.name]) then None else Coerce(raw[slot.name], slot, env)
  }

  function Assembled(raw: map<string, Json>, slots: seq<Slot>, env: Env): seq<Field> {
    if slots == [] then []
    else
      var front, slot := Assembled(raw, slots[..|slots| - 1], env), slots[|slots| - 1];
      match Slotted(raw, slot, env)
      case None => front
      case Some(v) => Put(front, slot.name, v)
  }

  /** An answer that is not an object gives nothing. */
  method Assemble(raw: Option<map<string, Json>>, slots: seq<Slot>, env: Env) returns (out: seq<Field>)
    ensures out == if raw.None? then [] else Assembled(raw.value, slots, env)
  {
    out := [];
    if raw.None? { return; }
    for i := 0 to |slots|
      invariant out == Assembled(raw.value, slots[..i], env)
    {
      assert slots[..i + 1][..i] == slots[..i];
      var slot := slots[i];
      if slot.name !in raw.value { continue; }
      var value := raw.value[slot.name];
      if IsUnknown(value) { continue; }
      var coerced := Coerce(value, slot, env);
      if coerced.None? { continue; }
      out := Put(out, slot.name, coerced.value);
    }
    assert slots[..|slots|] == slots;
  }

  ghost predicate FitsSome(slots: seq<Slot>, f: Field) {
    exists s :: s in slots && s.name == f.key && Fits(s, f.value)
  }

  /** Whatever the answer, only slots come out, each with a value that fits it. */
  lemma {:induction false} AssembledFits(raw: map<string, Json>, slots: seq<Slot>, env: Env)
    ensures forall f :: f in Assembled(raw, slots, env) ==> FitsSome(slots, f)
  {
    if slots != [] {
      var front, slot := slots[..|slots| - 1], slots[|slots| - 1];
      AssembledFits(raw, front, env);
      assert slots == front + [slot];
      assert forall f :: FitsSome(front, f) ==> FitsSome(slots, f);
      if Slotted(raw, slot, env).Some? {
        CoerceFits(raw[slot.name], slot, env);
        PutIs(Assembled(raw, front, env), slot.name, Slotted(raw, slot, env).value);
      }
    }
  }

  /** A slot is filled exactly when the answer gives it something that can be made to
      fit. */
  lemma {:induction false} AssembledFills(raw: map<string, Json>, slots: seq<Slot>, env: Env, slot: Slot)
    requires DistinctNames(slots) && slot in slots
    ensures match Slotted(raw, slot, env)
      case Some(v) => Field(slot.name, v) in Assembled(raw, slots, env)
      case None => forall f :: f in Assembled(raw, slots, env) ==> f.key != slot.name
  {
    var front, last := slots[..|slots| - 1], slots[|slots| - 1];
    AssembledFits(raw, front, env);
    var before := Assembled(raw, front, env);
    if Slotted(raw, last, env).Some? { PutIs(before, last.name, Slotted(raw, last, env).value); }
    if slot == last {
      forall f | f in before ensures f.key != slot.name { }
    } else {
      assert slot in front;
      AssembledFills(raw, front, env, slot);
    }
  }

  /** Two answers that agree on the slots assemble alike. */
  lemma {:induction false} OnlySlotsMatter(raw: map<string, Json>, other: map<string, Json>, slots: seq<Slot>, env: Env)
    requires forall s :: s in slots ==> (s.name in raw <==> s.name in other) && (s.name in raw ==> raw[s.name] == other[s.name])
    ensures Assembled(raw, slots, env) == Assembled(other, slots, env)
  {
    if slots != [] { OnlySlotsMatter(raw, other, slots[..|slots| - 1], env); }
  }

  /** Every value that is assembled is what the answer says about its slot. */
  lemma {:induction false} AssembledSays(raw: map<string, Json>, slots: seq<Slot>, env: Env, f: Field)
    requires f in Assembled(raw, slots, env)
    ensures exists slot :: slot in slots && slot.name == f.key && Given(raw, f.key) && Says(raw[f.key], slot.kind, f.value, env)
  {
    var front, last := slots[..|slots| - 1], slots[|slots| - 1];
    assert slots == front + [last];
    if Slotted(raw, last, env).Some? {
      var w := Slotted(raw, last, env).value;
      SlottedIff(raw, last, env, w);
      PutIs(Assembled(raw, front, env), last.name, w);
    }
    if f in Assembled(raw, front, env) { AssembledSays(raw, front, env, f); }
  }

  /** And with distinct names everything it says is assembled. */
  lemma AssembledIff(raw: map<string, Json>, slots: seq<Slot>, env: Env, slot: Slot, w: Json)
    requires DistinctNames(slots) && slot in slots
    ensures Field(slot.name, w) in Assembled(raw, slots, env) <==> Given(raw, slot.name) && Says(raw[slot.name], slot.kind, w, env)
  {
    SlottedIff(raw, slot, env, w);
    AssembledFills(raw, slots, env, slot);
    if Field(slot.name, w) in Assembled(raw, slots, env) {
      AssembledSays(raw, slots, env, Field(slot.name, w));
      var other :| other in slots && other.name == slot.name && Given(raw, slot.name) && Says(raw[slot.name], other.kind, w, env);
      FindSlotIs(slots, slot);
      FindSlotIs(slots, other);
    }
  }
}
