/** src/mesh/extractor.py, `_coerce_dyn_slot` and `generate_dynamic_schema`: exactly which
    proposals become slots, said of the proposals alone. */
module DynamicForms {
  import opened Schemas
  import opened Ordering
  import opened JsonValues
  import opened Vocabularies
  import opened Labels
  import opened Batching
  import opened Validating
  import opened Dynamic

  type IntOf = string -> Option<int>

  // ---- the form of names and labels ---------------------------------------

  /** A lower-case letter, a digit or an underscore. */
  ghost predicate SnakeChar(c: char) {
    'a' <= c <= 'z' || c in "0123456789_"
  }

  /** Two to forty such characters, a letter first, and perhaps a line break after them. */
  ghost predicate NameForm(s: string) {
    exists t :: (s == t || s == t + "\n") && 2 <= |t| <= 40 && 'a' <= t[0] <= 'z' && forall c :: c in t ==> SnakeChar(c)
  }

  /** One to forty, an underscore not first. */
  ghost predicate LabelForm(s: string) {
    exists t :: (s == t || s == t + "\n") && 1 <= |t| <= 40 && t[0] != '_' && forall c :: c in t ==> SnakeChar(c)
  }

  lemma SnakeIs(c: char)
    ensures IsSnake(c) <==> SnakeChar(c)
  {
    if '0' <= c <= '9' { DigitIn(c); }
  }

  lemma DigitIn(c: char)
    requires '0' <= c <= '9'
    ensures c in "0123456789_"
  {
    var k := c as int - '0' as int;
    assert "0123456789_"[k] == c;
  }

  lemma AllSnakeIs(t: string)
    ensures AllSnake(t) <==> forall c :: c in t ==> SnakeChar(c)
  {
    forall c ensures IsSnake(c) <==> SnakeChar(c) { SnakeIs(c); }
  }

  /** A text of such characters has no line break that could be dropped. */
  lemma UnbrokenIs(s: string, t: string)
    requires (s == t || s == t + "\n") && forall c :: c in t ==> SnakeChar(c)
    ensures Unbroken(s) == t
  {
    if s == t && s != "" { assert s[|s| - 1] in t; }
  }

  lemma NameIff(s: string)
    ensures IsDynName(s) <==> NameForm(s)
  {
    var u := Unbroken(s);
    AllSnakeIs(u);
    assert s == u || s == u + "\n";
    if t :| (s == t || s == t + "\n") && 2 <= |t| <= 40 && 'a' <= t[0] <= 'z' && forall c :: c in t ==> SnakeChar(c) {
      UnbrokenIs(s, t);
    }
  }

  lemma LabelIff(s: string)
    ensures IsDynLabel(s) <==> LabelForm(s)
  {
    var u := Unbroken(s);
    AllSnakeIs(u);
    assert s == u || s == u + "\n";
    if t :| (s == t || s == t + "\n") && 1 <= |t| <= 40 && t[0] != '_' && forall c :: c in t ==> SnakeChar(c) {
      UnbrokenIs(s, t);
    }
  }

  // ---- the labels of an enum ------------------------------------------------

  /** Item `k` is this label, for the first time. */
  ghost predicate FirstAt(items: seq<Json>, v: string, k: nat) {
    k < |items| && items[k] == Str(v) && LabelForm(v) && forall j :: 0 <= j < k ==> items[j] != Str(v)
  }

  ghost predicate ComesIn(items: seq<Json>, v: string) {
    exists k: nat :: FirstAt(items, v, k)
  }

  /** Every label of the items, each once, in the order in which they first come. */
  ghost predicate LabelsInOrder(items: seq<Json>, vals: seq<string>) {
    && (forall v :: v in vals <==> ComesIn(items, v))
    && (forall i, j :: 0 <= i < j < |vals| ==> FirstBefore(items, vals[i], vals[j]))
  }

  ghost predicate FirstBefore(items: seq<Json>, v: string, w: string) {
    exists a: nat, b: nat :: a < b && FirstAt(items, v, a) && FirstAt(items, w, b)
  }

  lemma FirstGrows(items: seq<Json>, v: string)
    requires items != []
    ensures var last := |items| - 1;
      && (forall k: nat :: k < last ==> (FirstAt(items, v, k) <==> FirstAt(items[..last], v, k)))
      && (FirstAt(items, v, last) <==> items[last] == Str(v) && LabelForm(v) && !ComesIn(items[..last], v))
  {
    var last := |items| - 1;
    var front := items[..last];
    if items[last] == Str(v) && LabelForm(v) && !ComesIn(front, v) {
      NowhereYet(front, v);
    }
    if k: nat :| FirstAt(front, v, k) { assert items[k] == Str(v); }
  }

  lemma NowhereYet(items: seq<Json>, v: string)
    requires LabelForm(v) && !ComesIn(items, v)
    ensures forall j :: 0 <= j < |items| ==> items[j] != Str(v)
  {
    for j := 0 to |items|
      invariant forall i :: 0 <= i < j ==> items[i] != Str(v)
    {
      assert !FirstAt(items, v, j);
    }
  }

  lemma {:induction false} LabelsOfAre(items: seq<Json>)
    ensures LabelsInOrder(items, LabelsOf(items))
  {
    if items != [] {
      LabelsOfAre(items[..|items| - 1]);
      LabelsOneMore(items, LabelsOf(items[..|items| - 1]));
    }
  }

  lemma LabelsOneMore(items: seq<Json>, front: seq<string>)
    requires items != [] && LabelsInOrder(items[..|items| - 1], front)
    ensures var last := items[|items| - 1];
      LabelsInOrder(items, if last.Str? && IsDynLabel(last.s) && last.s !in front then front + [last.s] else front)
  {
    var n, last := |items| - 1, items[|items| - 1];
    var taken := last.Str? && IsDynLabel(last.s) && last.s !in front;
    var vals := if taken then front + [last.s] else front;
    if last.Str? { LabelIff(last.s); }
    forall v ensures v in vals <==> ComesIn(items, v) {
      MemberOneMore(items, front, v);
    }
    forall i, j | 0 <= i < j < |vals| ensures FirstBefore(items, vals[i], vals[j]) {
      if j < |front| {
        assert FirstBefore(items[..n], front[i], front[j]);
        BeforeGrows(items, vals[i], vals[j]);
      } else {
        LastLabel(items, front, vals[i], vals[j]);
      }
    }
  }

  lemma LastLabel(items: seq<Json>, front: seq<string>, v: string, w: string)
    requires items != [] && LabelsInOrder(items[..|items| - 1], front)
    requires v in front && w !in front && items[|items| - 1] == Str(w) && LabelForm(w)
    ensures FirstBefore(items, v, w)
  {
    var n := |items| - 1;
    FirstGrows(items, v);
    FirstGrows(items, w);
    assert ComesIn(items[..n], v) && !ComesIn(items[..n], w);
    var a: nat :| FirstAt(items[..n], v, a);
    assert FirstAt(items, v, a) && FirstAt(items, w, n);
  }

  lemma MemberOneMore(items: seq<Json>, front: seq<string>, v: string)
    requires items != [] && LabelsInOrder(items[..|items| - 1], front)
    ensures ComesIn(items, v) <==>
      v in front || (items[|items| - 1] == Str(v) && LabelForm(v))
  {
    FirstGrows(items, v);
    var n := |items| - 1;
    if v in front {
      assert ComesIn(items[..n], v);
      var k: nat :| FirstAt(items[..n], v, k);
      assert FirstAt(items, v, k);
    }
    if ComesIn(items, v) && !(items[n] == Str(v) && LabelForm(v)) {
      var k: nat :| FirstAt(items, v, k);
      assert FirstAt(items[..n], v, k);
    }
    if items[n] == Str(v) && LabelForm(v) && !ComesIn(items[..n], v) { assert FirstAt(items, v, n); }
  }

  lemma BeforeGrows(items: seq<Json>, v: string, w: string)
    requires items != [] && FirstBefore(items[..|items| - 1], v, w)
    ensures FirstBefore(items, v, w)
  {
    FirstGrows(items, v);
    FirstGrows(items, w);
    var front := items[..|items| - 1];
    var a: nat, b: nat :| a < b && FirstAt(front, v, a) && FirstAt(front, w, b);
    assert FirstAt(items, v, a) && FirstAt(items, w, b);
  }

  lemma BeforeOneWay(items: seq<Json>, v: string, w: string)
    requires FirstBefore(items, v, w)
    ensures !FirstBefore(items, w, v)
  {
    var a: nat, b: nat :| a < b && FirstAt(items, v, a) && FirstAt(items, w, b);
    forall c: nat, d: nat | FirstAt(items, w, c) && FirstAt(items, v, d) ensures c == b && d == a { }
  }

  /** A list of the labels in order holds nothing twice. */
  lemma OrderedOnce(items: seq<Json>, vals: seq<string>, i: nat, j: nat)
    requires LabelsInOrder(items, vals) && i < |vals| && j < |vals| && vals[i] == vals[j]
    ensures i == j
  {
    if i < j { BeforeOneWay(items, vals[i], vals[j]); }
    if j < i { BeforeOneWay(items, vals[j], vals[i]); }
  }

  /** Where two lists of the labels in order have agreed they go on to agree. */
  lemma NextAgrees(items: seq<Json>, vals: seq<string>, others: seq<string>, i: nat)
    requires LabelsInOrder(items, vals) && LabelsInOrder(items, others)
    requires i < |vals| && i <= |others| && vals[..i] == others[..i]
    ensures i < |others| && vals[i] == others[i]
  {
    assert ComesIn(items, vals[i]);
    var p :| 0 <= p < |others| && others[p] == vals[i];
    if p < i {
      assert vals[p] == vals[..i][p] == others[..i][p] == others[p];
      OrderedOnce(items, vals, p, i);
    }
    assert ComesIn(items, others[i]);
    var q :| 0 <= q < |vals| && vals[q] == others[i];
    if q < i {
      assert vals[q] == vals[..i][q] == others[..i][q] == others[q];
      OrderedOnce(items, others, q, i);
    }
    if p > i && q > i { BeforeOneWay(items, others[i], others[p]); }
  }

  lemma OneOrder(items: seq<Json>, vals: seq<string>, others: seq<string>)
    requires LabelsInOrder(items, vals) && LabelsInOrder(items, others)
    ensures vals == others
  {
    StartsAlike(items, vals, others, |vals|);
    StartsAlike(items, others, vals, |others|);
    assert vals[..|vals|] == vals && others[..|others|] == others;
  }

  lemma {:induction false} StartsAlike(items: seq<Json>, vals: seq<string>, others: seq<string>, n: nat)
    requires LabelsInOrder(items, vals) && LabelsInOrder(items, others) && n <= |vals|
    ensures n <= |others| && vals[..n] == others[..n]
  {
    if n > 0 {
      StartsAlike(items, vals, others, n - 1);
      NextAgrees(items, vals, others, n - 1);
      assert vals[..n] == vals[..n - 1] + [vals[n - 1]] && others[..n] == others[..n - 1] + [others[n - 1]];
    }
  }

  // ---- bounds ------------------------------------------------------------------

  /** What Python's `int` makes of a value: a number, a truth value as one or zero, a real
      without its fraction, or a text that reads as a number. */
  ghost predicate Reads(v: Json, n: int, intOf: IntOf) {
    match v
    case Int(m) => n == m
    case Bool(b) => (b && n == 1) || (!b && n == 0)
    case Real(r) =>
      (r >= 0.0 && n as real <= r < n as real + 1.0) || (r < 0.0 && n as real - 1.0 < r <= n as real)
    case Str(s) => intOf(s) == Some(n)
    case _ => false
  }

  lemma ToIntIff(v: Json, n: int, intOf: IntOf)
    ensures ToInt(v, intOf) == Some(n) <==> Reads(v, n, intOf)
  {
    if v.Real? { TowardsZero(v.r, n); }
  }

  lemma TowardsZero(r: real, n: int)
    ensures (if r >= 0.0 then r.Floor else -((-r).Floor)) == n <==>
      (r >= 0.0 && n as real <= r < n as real + 1.0) || (r < 0.0 && n as real - 1.0 < r <= n as real)
  {
    var k := if r >= 0.0 then r.Floor else (-r).Floor;
    assert k as real <= (if r >= 0.0 then r else -r) < k as real + 1.0;
  }

  /** The bound of that name, or the default when none is given. */
  ghost predicate BoundIs(fields: seq<Field>, key: string, default: int, n: int, intOf: IntOf) {
    match Lookup(fields, key)
    case None => n == default
    case Some(v) => Reads(v, n, intOf)
  }

  lemma BoundIff(fields: seq<Field>, key: string, default: int, n: int, intOf: IntOf)
    ensures Bound(fields, key, default, intOf) == Some(n) <==> BoundIs(fields, key, default, n, intOf)
  {
    if Lookup(fields, key).Some? { ToIntIff(Lookup(fields, key).value, n, intOf); }
  }

  // ---- one proposal --------------------------------------------------------------

  /** Two to twelve of the labels, the first ones. */
  ghost predicate EnumFits(items: seq<Json>, vals: seq<string>) {
    exists all :: LabelsInOrder(items, all) && Front(all, vals)
  }

  ghost predicate RangeFits(fields: seq<Field>, lo: int, hi: int, intOf: IntOf) {
    lo <= hi &&
    ((BoundIs(fields, "min", 0, lo, intOf) && BoundIs(fields, "max", 1000000, hi, intOf))
     || (BoundIs(fields, "min", 0, hi, intOf) && BoundIs(fields, "max", 1000000, lo, intOf)))
  }

  ghost predicate KindFits(fields: seq<Field>, kind: Kind, intOf: IntOf) {
    match kind
    case Enum(vals) =>
      Lookup(fields, "kind") == Some(Str("enum"))
      && Lookup(fields, "allowed").Some? && Lookup(fields, "allowed").value.Arr?
      && EnumFits(Lookup(fields, "allowed").value.items, vals)
    case Range(lo, hi) => Lookup(fields, "kind") == Some(Str("int")) && RangeFits(fields, lo, hi, intOf)
    case Flag => Lookup(fields, "kind") == Some(Str("bool"))
  }

  /** The proposal is an object that proposes this slot. */
  ghost predicate Proposes(spec: Json, bad: set<string>, intOf: IntOf, slot: Slot) {
    && spec.Obj? && Lookup(spec.fields, "name") == Some(Str(slot.name))
    && NameForm(slot.name) && slot.name !in bad && !slot.required
    && KindFits(spec.fields, slot.kind, intOf)
  }

  ghost predicate Front(all: seq<string>, vals: seq<string>) {
    vals <= all && 2 <= |vals| <= 12 && (|vals| < 12 ==> vals == all)
  }

  lemma FrontIs(all: seq<string>, vals: seq<string>)
    ensures Front(all, vals) <==> |vals| >= 2 && vals == if |all| > 12 then all[..12] else all
  {
    if vals <= all { assert vals == all[..|vals|]; }
    assert all[..|all|] == all;
  }

  lemma EnumOfAll(items: seq<Json>, vals: seq<string>, all: seq<string>)
    requires LabelsInOrder(items, all)
    ensures EnumFits(items, vals) <==> Front(all, vals)
  {
    if EnumFits(items, vals) {
      var other :| LabelsInOrder(items, other) && Front(other, vals);
      OneOrder(items, all, other);
    }
  }

  lemma EnumIff(items: seq<Json>, vals: seq<string>)
    ensures CoerceAllowed(Some(Arr(items))) == Some(Enum(vals)) <==> EnumFits(items, vals)
  {
    LabelsOfAre(items);
    EnumOfAll(items, vals, LabelsOf(items));
    FrontIs(LabelsOf(items), vals);
  }

  lemma RangeIff(fields: seq<Field>, lo: int, hi: int, intOf: IntOf)
    ensures CoerceBounds(fields, intOf) == Some(Range(lo, hi)) <==> RangeFits(fields, lo, hi, intOf)
  {
    BoundIff(fields, "min", 0, lo, intOf);
    BoundIff(fields, "min", 0, hi, intOf);
    BoundIff(fields, "max", 1000000, lo, intOf);
    BoundIff(fields, "max", 1000000, hi, intOf);
  }

  lemma KindsApart()
    ensures Str("enum") != Str("int") && Str("enum") != Str("bool") && Str("int") != Str("bool")
  {
    assert "enum"[0] != "int"[0] && "enum"[0] != "bool"[0] && "int"[0] != "bool"[0];
  }

  lemma KindIff(fields: seq<Field>, kind: Kind, intOf: IntOf)
    ensures CoerceKind(fields, intOf) == Some(kind) <==> KindFits(fields, kind, intOf)
  {
    KindsApart();
    var allowed := Lookup(fields, "allowed");
    if kind.Enum? && allowed.Some? && allowed.value.Arr? { EnumIff(allowed.value.items, kind.allowed); }
    if kind.Range? { RangeIff(fields, kind.min, kind.max, intOf); }
  }

  /** A proposal becomes a slot just when it proposes that slot in the right form. */
  lemma SlotIff(spec: Json, bad: set<string>, intOf: IntOf, slot: Slot)
    ensures CoerceSlot(spec, bad, intOf) == Some(slot) <==> Proposes(spec, bad, intOf, slot)
  {
    if spec.Obj? {
      KindIff(spec.fields, slot.kind, intOf);
      NameIff(slot.name);
    }
  }

  // ---- the schema -----------------------------------------------------------------

  /** Which slots an item proposes. */
  type Offer = (Json, Slot) -> bool

  ghost predicate Offers(p: Offer, spec: Json, slot: Slot) {
    p(spec, slot)
  }

  ghost function Proposal(bad: set<string>, intOf: IntOf): Offer {
    (spec, slot) => Proposes(spec, bad, intOf, slot)
  }

  /** Proposal `i` proposes the slot, and no earlier one a slot of that name. */
  ghost predicate FirstToOffer(specs: seq<Json>, p: Offer, slot: Slot, i: nat) {
    i < |specs| && Offers(p, specs[i], slot) && !NamedEarlier(specs, p, slot.name, i)
  }

  ghost predicate NamedEarlier(specs: seq<Json>, p: Offer, name: string, i: nat)
    requires i <= |specs|
  {
    exists j, other :: 0 <= j < i && Offers(p, specs[j], other) && other.name == name
  }

  ghost predicate OfferedIn(specs: seq<Json>, p: Offer, slot: Slot) {
    exists i: nat :: FirstToOffer(specs, p, slot, i)
  }

  ghost predicate OfferedBefore(specs: seq<Json>, p: Offer, a: Slot, b: Slot) {
    exists i: nat, j: nat :: i < j && FirstToOffer(specs, p, a, i) && FirstToOffer(specs, p, b, j)
  }

  /** The slots proposed, of each name the first, in that order. */
  ghost predicate SlotsInOrder(specs: seq<Json>, p: Offer, slots: seq<Slot>) {
    && (forall s :: s in slots <==> OfferedIn(specs, p, s))
    && (forall a, b :: 0 <= a < b < |slots| ==> OfferedBefore(specs, p, slots[a], slots[b]))
  }

  lemma NamedStays(specs: seq<Json>, p: Offer, name: string, i: nat, n: nat)
    requires i <= n <= |specs|
    ensures NamedEarlier(specs, p, name, i) <==> NamedEarlier(specs[..n], p, name, i)
  {
    if j, other :| 0 <= j < i && Offers(p, specs[j], other) && other.name == name {
      assert specs[..n][j] == specs[j];
    }
  }

  lemma FirstStays(specs: seq<Json>, p: Offer, s: Slot, i: nat)
    requires i < |specs| - 1
    ensures FirstToOffer(specs, p, s, i) <==> FirstToOffer(specs[..|specs| - 1], p, s, i)
  {
    NamedStays(specs, p, s.name, i, |specs| - 1);
  }

  lemma FirstBack(specs: seq<Json>, p: Offer, s: Slot) returns (i: nat)
    requires specs != [] && OfferedIn(specs[..|specs| - 1], p, s)
    ensures i < |specs| - 1 && FirstToOffer(specs, p, s, i)
  {
    i :| FirstToOffer(specs[..|specs| - 1], p, s, i);
    FirstStays(specs, p, s, i);
  }

  lemma LastOffers(specs: seq<Json>, p: Offer, front: seq<Slot>, s: Slot)
    requires specs != [] && SlotsInOrder(specs[..|specs| - 1], p, front)
    ensures FirstToOffer(specs, p, s, |specs| - 1) <==>
      Offers(p, specs[|specs| - 1], s) && s.name !in SlotNames(front)
  {
    var n := |specs| - 1;
    if s.name !in SlotNames(front) && NamedEarlier(specs, p, s.name, n) {
      var j, other :| 0 <= j < n && Offers(p, specs[j], other) && other.name == s.name;
      NameTaken(specs[..n], p, front, j, other);
    }
    if s.name in SlotNames(front) {
      var other :| other in front && other.name == s.name;
      assert OfferedIn(specs[..n], p, other);
      var i := FirstBack(specs, p, other);
      assert NamedEarlier(specs, p, s.name, n);
    }
  }

  /** Whatever is proposed, a slot of that name is there. */
  lemma NameTaken(specs: seq<Json>, p: Offer, slots: seq<Slot>, j: nat, other: Slot)
    requires SlotsInOrder(specs, p, slots) && j < |specs| && Offers(p, specs[j], other)
    ensures other.name in SlotNames(slots)
    decreases j
  {
    if FirstToOffer(specs, p, other, j) {
      assert OfferedIn(specs, p, other);
    } else {
      var i, first :| 0 <= i < j && Offers(p, specs[i], first) && first.name == other.name;
      NameTaken(specs, p, slots, i, first);
    }
  }

  lemma OfferedOrLast(specs: seq<Json>, p: Offer, s: Slot)
    requires specs != []
    ensures OfferedIn(specs, p, s) <==>
      OfferedIn(specs[..|specs| - 1], p, s) || FirstToOffer(specs, p, s, |specs| - 1)
  {
    if OfferedIn(specs[..|specs| - 1], p, s) {
      var i := FirstBack(specs, p, s);
    }
    if OfferedIn(specs, p, s) {
      var i: nat :| FirstToOffer(specs, p, s, i);
      if i < |specs| - 1 { FirstStays(specs, p, s, i); }
    }
  }

  lemma BeforeStays(specs: seq<Json>, p: Offer, a: Slot, b: Slot)
    requires specs != [] && OfferedBefore(specs[..|specs| - 1], p, a, b)
    ensures OfferedBefore(specs, p, a, b)
  {
    var front := specs[..|specs| - 1];
    var i: nat, j: nat :| i < j && FirstToOffer(front, p, a, i) && FirstToOffer(front, p, b, j);
    FirstStays(specs, p, a, i);
    FirstStays(specs, p, b, j);
  }

  lemma BeforeLast(specs: seq<Json>, p: Offer, front: seq<Slot>, a: Slot, b: Slot)
    requires specs != [] && SlotsInOrder(specs[..|specs| - 1], p, front)
    requires a in front && b.name !in SlotNames(front) && Offers(p, specs[|specs| - 1], b)
    ensures OfferedBefore(specs, p, a, b)
  {
    assert OfferedIn(specs[..|specs| - 1], p, a);
    var i := FirstBack(specs, p, a);
    LastOffers(specs, p, front, b);
  }

  /** The slots of one proposal more. */
  ghost predicate OneMoreSlot(front: seq<Slot>, p: Offer, spec: Json, slots: seq<Slot>) {
    || (slots == front && forall s :: Offers(p, spec, s) ==> s.name in SlotNames(front))
    || (exists s :: slots == front + [s] && s.name !in SlotNames(front) && OnlyOffer(p, spec, s))
  }

  ghost predicate OnlyOffer(p: Offer, spec: Json, s: Slot) {
    forall other :: Offers(p, spec, other) <==> other == s
  }

  lemma OrderGrows(specs: seq<Json>, p: Offer, front: seq<Slot>, slots: seq<Slot>)
    requires specs != [] && SlotsInOrder(specs[..|specs| - 1], p, front)
    requires OneMoreSlot(front, p, specs[|specs| - 1], slots)
    ensures SlotsInOrder(specs, p, slots)
  {
    forall s ensures s in slots <==> OfferedIn(specs, p, s) {
      OfferedOrLast(specs, p, s);
      LastOffers(specs, p, front, s);
      assert s in front <==> OfferedIn(specs[..|specs| - 1], p, s);
    }
    forall a, b | 0 <= a < b < |slots| ensures OfferedBefore(specs, p, slots[a], slots[b]) {
      if b < |front| {
        assert OfferedBefore(specs[..|specs| - 1], p, front[a], front[b]);
        BeforeStays(specs, p, slots[a], slots[b]);
      } else {
        BeforeLast(specs, p, front, slots[a], slots[b]);
      }
    }
  }

  lemma SpecAdds(specs: seq<Json>, bad: set<string>, intOf: IntOf)
    requires specs != []
    ensures OneMoreSlot(SlotsOf(specs[..|specs| - 1], bad, intOf), Proposal(bad, intOf), specs[|specs| - 1],
                        SlotsOf(specs, bad, intOf))
  {
    var p, spec := Proposal(bad, intOf), specs[|specs| - 1];
    var made := CoerceSlot(spec, bad, intOf);
    forall s ensures Offers(p, spec, s) <==> made == Some(s) {
      SlotIff(spec, bad, intOf, s);
    }
    if made.Some? { assert OnlyOffer(p, spec, made.value); }
  }

  lemma {:induction false} SlotsOfAre(specs: seq<Json>, bad: set<string>, intOf: IntOf)
    ensures SlotsInOrder(specs, Proposal(bad, intOf), SlotsOf(specs, bad, intOf))
  {
    if specs != [] {
      var front := specs[..|specs| - 1];
      SlotsOfAre(front, bad, intOf);
      SpecAdds(specs, bad, intOf);
      OrderGrows(specs, Proposal(bad, intOf), SlotsOf(front, bad, intOf), SlotsOf(specs, bad, intOf));
    }
  }

  /** The first eight proposals of a reply. */
  ghost predicate Eight(reply: Reply<Json>, specs: seq<Json>) {
    && reply.Answer? && "slots" in reply.m && reply.m["slots"].Arr?
    && specs <= reply.m["slots"].items
    && |specs| == if |reply.m["slots"].items| < 8 then |reply.m["slots"].items| else 8
  }

  /** A schema is made just when one of the first eight proposals proposes a slot, and its
      slots are those they propose, of each name the first, in that order. */
  lemma GeneratedIff(reply: Reply<Json>, id: string, bad: set<string>, intOf: IntOf)
    ensures Generated(reply, id, bad, intOf).Some? <==>
      exists specs, i, slot :: Eight(reply, specs) && 0 <= i < |specs| && Proposes(specs[i], bad, intOf, slot)
    ensures Generated(reply, id, bad, intOf).Some? ==> var task := Generated(reply, id, bad, intOf).value;
      && task.id == id && task.domain == "dynamic" && task.template == "dynamic" && task.roles == ["our_component"]
      && task.answers == [Vocabularies.Entry("key_points", "string[]"), Vocabularies.Entry("conclusion", "string")]
      && forall specs :: Eight(reply, specs) ==> SlotsInOrder(specs, Proposal(bad, intOf), task.slots)
  {
    if reply.Answer? && "slots" in reply.m && reply.m["slots"].Arr? {
      var specs, p := FirstSpecs(reply.m["slots"].items), Proposal(bad, intOf);
      FirstEight(reply, specs);
      SlotsOfAre(specs, bad, intOf);
      var slots := SlotsOf(specs, bad, intOf);
      if slots != [] {
        assert OfferedIn(specs, p, slots[0]);
        var i: nat :| FirstToOffer(specs, p, slots[0], i);
        assert Proposes(specs[i], bad, intOf, slots[0]);
      }
      if i, slot :| 0 <= i < |specs| && Proposes(specs[i], bad, intOf, slot) {
        NameTaken(specs, p, slots, i, slot);
      }
    }
  }

  lemma FirstEight(reply: Reply<Json>, specs: seq<Json>)
    requires reply.Answer? && "slots" in reply.m && reply.m["slots"].Arr? && specs == FirstSpecs(reply.m["slots"].items)
    ensures Eight(reply, specs) && forall other :: Eight(reply, other) ==> other == specs
  {
    forall other | Eight(reply, other) ensures other == specs {
      assert other == reply.m["slots"].items[..|other|];
    }
  }

  // ---- the vocabulary of the call -----------------------------------------------

  /** The merged vocabulary lets through what the registered one does and the schema's own
      three names, and nothing else. */
  lemma MergedAllows(vocab: Vocab, task: Task, s: string)
    ensures OkString(s, task, MergedVocab(vocab, task)) <==>
      OkString(s, task, vocab) || s == task.id || s == task.domain || s == task.template
  {
    var merged := MergedVocab(vocab, task);
    assert s in merged.tasks || s in merged.domains || s in merged.templates <==>
      s in vocab.tasks || s in vocab.domains || s in vocab.templates || s == task.id || s == task.domain || s == task.template;
  }
}
