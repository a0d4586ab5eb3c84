/** The shared value types: tiers, the symbol table, the masking targets. */
module Schemas {
  import opened Ordering

  datatype Option<+T> = None | Some(value: T)

  function One(b: bool): nat {
    if b then 1 else 0
  }

  datatype Tier = Open | Internal | Secret {
    function Rank(): nat {
      match this case Open => 0 case Internal => 1 case Secret => 2
    }
  }

  function MaxTier(a: Tier, b: Tier): Tier {
    if b.Rank() > a.Rank() then b else a
  }

  /** A Python dict from placeholder to real name: the table and the order in which
      its keys were first inserted. */
  datatype Mapping = Mapping(order: seq<string>, table: map<string, string>) {
    ghost predicate Valid() {
      Distinct(order) && forall k :: k in order <==> k in table
    }

    function Put(key: string, value: string): Mapping {
      Mapping(if key in table then order else order + [key], table[key := value])
    }

    function KeysLongestFirst(): seq<string> {
      Sorted(order, LongerFirst)
    }
  }

  const EMPTY_MAPPING := Mapping([], map[])

  predicate LongerFirst(a: string, b: string) {
    |b| <= |a|
  }

  predicate LongerLiteralFirst(a: (string, string), b: (string, string)) {
    |b.1| <= |a.1|
  }

  /** Category prefix and its literals, in file order; and the technical terms
      that are never masked. */
  datatype Targets = Targets(targets: seq<(string, seq<string>)>, technical: set<string>) {

    /** `(prefix, literal)` pairs, longest literal first. */
    function AllLiterals(): seq<(string, string)> {
      Sorted(Pairs(targets), LongerLiteralFirst)
    }
  }

  function Pairs(targets: seq<(string, seq<string>)>): seq<(string, string)> {
    if targets == [] then []
    else
      seq(|targets[0].1|, i requires 0 <= i < |targets[0].1| => (targets[0].0, targets[0].1[i]))
      + Pairs(targets[1..])
  }

  lemma PutValid(m: Mapping, key: string, value: string)
    requires m.Valid()
    ensures m.Put(key, value).Valid()
  {
  }

  /** The keys come out longest first, each of them once, and none besides. */
  lemma KeysLongestFirstCovers(m: Mapping)
    requires m.Valid()
    ensures Distinct(m.KeysLongestFirst())
    ensures forall k :: k in m.KeysLongestFirst() <==> k in m.table
    ensures forall i, j :: 0 <= i < j < |m.KeysLongestFirst()| ==>
              |m.KeysLongestFirst()[j]| <= |m.KeysLongestFirst()[i]|
  {
    SortedKeeps(m.order, LongerFirst);
    SortedDistinct(m.order, LongerFirst);
    SameMembers(Sorted(m.order, LongerFirst), m.order);
    SortedAscends(m.order, LongerFirst);
    assert forall i, j :: 0 <= i < j < |m.KeysLongestFirst()| ==>
      LongerFirst(m.KeysLongestFirst()[i], m.KeysLongestFirst()[j]);
  }
}
