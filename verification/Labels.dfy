/** src/mesh/extractor.py, `assign_refs`: documents get a role and a label by tier and
    path; the label carries nothing of the document. */
module Labels {
  import opened Schemas
  import opened Ordering
  import opened Validating

  datatype Chunk = Chunk(id: string, tier: Option<Tier>, path: string, title: string, text: string)
  datatype Assignment = Assignment(ref: string, role: string, chunkId: string, title: string)

  const MAX_REFS: nat := 26
  const DEFAULT_ROLE := "our_component"

  function RankOf(c: Chunk): nat {
    match c.tier case None => Internal.Rank() case Some(t) => t.Rank()
  }

  /** Highest tier first, then path, then id. */
  predicate ChunkLe(a: Chunk, b: Chunk) {
    if RankOf(a) != RankOf(b) then RankOf(a) > RankOf(b)
    else if a.path != b.path then StringLe(a.path, b.path)
    else StringLe(a.id, b.id)
  }

  function KeepUpper(s: string): string {
    if s == "" then "" else (if IsUpper(s[0]) then [s[0]] else "") + KeepUpper(s[1..])
  }

  function RolePrefix(role: string, upper: string -> string): string {
    if role == "external_requirement" then "REQ"
    else if role == "our_component" then "COMP"
    else if role == "constraint" then "CONST"
    else if role == "goal" then "GOAL"
    else
      var letters := KeepUpper(upper(role));
      var cut := if |letters| > 6 then letters[..6] else letters;
      if |cut| >= 2 then cut else "ENT"
  }

  function Suffix(n: nat): string
    requires 1 <= n <= MAX_REFS
  {
    [('A' as int + n - 1) as char]
  }

  function RoleAt(roles: seq<string>, i: nat): string
    requires roles != []
  {
    roles[if i < |roles| then i else |roles| - 1]
  }

  /** How many of the first `n` documents have the role. */
  function RoleCount(roles: seq<string>, role: string, n: nat): nat
    requires roles != []
  {
    if n == 0 then 0 else RoleCount(roles, role, n - 1) + if RoleAt(roles, n - 1) == role then 1 else 0
  }

  function NumberOf(roles: seq<string>, i: nat): nat
    requires roles != []
  {
    RoleCount(roles, RoleAt(roles, i), i + 1)
  }

  predicate FewEnough(roles: seq<string>, n: nat)
    requires roles != []
  {
    forall i :: 0 <= i < n ==> NumberOf(roles, i) <= MAX_REFS
  }

  lemma {:induction false} NumberPositive(roles: seq<string>, i: nat)
    requires roles != []
    ensures NumberOf(roles, i) >= 1
  {
  }

  function RefAt(roles: seq<string>, i: nat, upper: string -> string): string
    requires roles != [] && NumberOf(roles, i) <= MAX_REFS
  {
    NumberPositive(roles, i);
    RolePrefix(RoleAt(roles, i), upper) + "_" + Suffix(NumberOf(roles, i))
  }

  function Assignments(ordered: seq<Chunk>, roles: seq<string>, upper: string -> string): seq<Assignment>
    requires roles != [] && FewEnough(roles, |ordered|)
  {
    seq(|ordered|, i requires 0 <= i < |ordered| => AssignmentAt(ordered[i], roles, i, upper))
  }

  function AssignmentAt(c: Chunk, roles: seq<string>, i: nat, upper: string -> string): Assignment
    requires roles != [] && NumberOf(roles, i) <= MAX_REFS
  {
    Assignment(RefAt(roles, i, upper), RoleAt(roles, i), c.id, c.title)
  }

  function Counted(counters: map<string, nat>, role: string): nat {
    if role in counters then counters[role] else 0
  }

  /** The counters hold how many of the first `n` documents have each role. */
  ghost predicate AreCounts(counters: map<string, nat>, roles: seq<string>, n: nat)
    requires roles != []
  {
    forall role :: Counted(counters, role) == RoleCount(roles, role, n)
  }

  lemma CountOneMore(counters: map<string, nat>, roles: seq<string>, i: nat)
    requires roles != [] && AreCounts(counters, roles, i)
    ensures var n := Counted(counters, RoleAt(roles, i)) + 1;
      n == NumberOf(roles, i) && AreCounts(counters[RoleAt(roles, i) := n], roles, i + 1)
  {
    var role := RoleAt(roles, i);
    assert Counted(counters, role) == RoleCount(roles, role, i);
    var after := counters[role := Counted(counters, role) + 1];
    forall x ensures Counted(after, x) == RoleCount(roles, x, i + 1) {
      assert Counted(counters, x) == RoleCount(roles, x, i);
    }
  }

  /** The roles of a schema, or the default. */
  function RolesOf(roles: seq<string>): (r: seq<string>)
    ensures r != []
  {
    if roles == [] then [DEFAULT_ROLE] else roles
  }

  /** `None` where the source raises: no documents, or more than 26 of one role. */
  function Assigned(chunks: seq<Chunk>, roles: seq<string>, upper: string -> string): Option<seq<Assignment>> {
    if chunks == [] || !FewEnough(RolesOf(roles), |Sorted(chunks, ChunkLe)|) then None
    else Some(Assignments(Sorted(chunks, ChunkLe), RolesOf(roles), upper))
  }

  lemma OneMoreLabel(ordered: seq<Chunk>, roles: seq<string>, i: nat, upper: string -> string)
    requires roles != [] && i < |ordered| && FewEnough(roles, i) && NumberOf(roles, i) <= MAX_REFS
    ensures FewEnough(roles, i + 1)
    ensures Assignments(ordered[..i + 1], roles, upper)
         == Assignments(ordered[..i], roles, upper) + [AssignmentAt(ordered[i], roles, i, upper)]
  {
  }

  lemma OneTooMany(roles: seq<string>, i: nat, n: nat)
    requires roles != [] && i < n && NumberOf(roles, i) > MAX_REFS
    ensures !FewEnough(roles, n)
  {
  }

  method AssignRefs(chunks: seq<Chunk>, given: seq<string>, upper: string -> string)
    returns (r: Option<seq<Assignment>>)
    ensures r == Assigned(chunks, given, upper)
  {
    if chunks == [] { return None; }
    var roles, ordered := RolesOf(given), Sorted(chunks, ChunkLe);
    var counters: map<string, nat> := map[];
    var out: seq<Assignment> := [];
    for i := 0 to |ordered|
      invariant FewEnough(roles, i) && AreCounts(counters, roles, i)
      invariant out == Assignments(ordered[..i], roles, upper)
    {
      var role := roles[if i < |roles| then i else |roles| - 1];
      CountOneMore(counters, roles, i);
      var n := Counted(counters, role) + 1;
      counters := counters[role := n];
      if n > MAX_REFS {
        OneTooMany(roles, i, |ordered|);
        return None;
      }
      OneMoreLabel(ordered, roles, i, upper);
      out := out + [Assignment(RolePrefix(role, upper) + "_" + Suffix(n), role, ordered[i].id, ordered[i].title)];
    }
    assert ordered[..|ordered|] == ordered;
    r := Some(out);
  }

  // ---- labels ------------------------------------------------------------

  lemma {:induction false} KeepUpperIs(s: string)
    ensures AllUpper(KeepUpper(s))
  {
    if s != "" { KeepUpperIs(s[1..]); }
  }

  lemma PrefixShape(role: string, upper: string -> string)
    ensures 2 <= |RolePrefix(role, upper)| <= 6 && AllUpper(RolePrefix(role, upper))
  {
    KeepUpperIs(upper(role));
  }

  /** Every label has the form that the schema stage lets through. */
  lemma RefIsLabel(roles: seq<string>, i: nat, upper: string -> string)
    requires roles != [] && NumberOf(roles, i) <= MAX_REFS
    ensures IsRefLabel(RefAt(roles, i, upper))
  {
    NumberPositive(roles, i);
    var ref, p := RefAt(roles, i, upper), RolePrefix(RoleAt(roles, i), upper);
    PrefixShape(RoleAt(roles, i), upper);
    assert ref[..|ref| - 2] == p && Unbroken(ref) == ref;
  }

  lemma {:induction false} CountGrows(roles: seq<string>, role: string, i: nat, j: nat)
    requires roles != [] && i <= j
    ensures RoleCount(roles, role, i) <= RoleCount(roles, role, j)
    decreases j - i
  {
    if i < j { CountGrows(roles, role, i, j - 1); }
  }

  /** Labels are the same just if prefix and number are. */
  lemma SameRef(roles: seq<string>, i: nat, j: nat, upper: string -> string)
    requires roles != [] && NumberOf(roles, i) <= MAX_REFS && NumberOf(roles, j) <= MAX_REFS
    ensures RefAt(roles, i, upper) == RefAt(roles, j, upper) <==>
      RolePrefix(RoleAt(roles, i), upper) == RolePrefix(RoleAt(roles, j), upper) && NumberOf(roles, i) == NumberOf(roles, j)
  {
    NumberPositive(roles, i);
    NumberPositive(roles, j);
    var a, b := RefAt(roles, i, upper), RefAt(roles, j, upper);
    assert a[..|a| - 2] == RolePrefix(RoleAt(roles, i), upper) && b[..|b| - 2] == RolePrefix(RoleAt(roles, j), upper);
    assert a[|a| - 1] == Suffix(NumberOf(roles, i))[0] && b[|b| - 1] == Suffix(NumberOf(roles, j))[0];
  }

  ghost predicate PrefixesApart(roles: seq<string>, n: nat, upper: string -> string)
    requires roles != []
  {
    forall i: nat, j: nat :: i < n && j < n && RoleAt(roles, i) != RoleAt(roles, j) ==>
      RolePrefix(RoleAt(roles, i), upper) != RolePrefix(RoleAt(roles, j), upper)
  }

  ghost predicate RefsApart(roles: seq<string>, n: nat, upper: string -> string)
    requires roles != [] && FewEnough(roles, n)
  {
    forall i: nat, j: nat :: i < j < n ==> RefAt(roles, i, upper) != RefAt(roles, j, upper)
  }

  lemma NumbersApart(roles: seq<string>, i: nat, j: nat)
    requires roles != [] && i < j && RoleAt(roles, i) == RoleAt(roles, j)
    ensures NumberOf(roles, i) < NumberOf(roles, j)
  {
    CountGrows(roles, RoleAt(roles, i), i + 1, j);
  }

  /** Labels are distinct exactly when the roles in use have distinct prefixes. */
  lemma RefsApartIff(roles: seq<string>, n: nat, upper: string -> string)
    requires roles != [] && FewEnough(roles, n)
    ensures RefsApart(roles, n, upper) <==> PrefixesApart(roles, n, upper)
  {
    if PrefixesApart(roles, n, upper) {
      forall i: nat, j: nat | i < j < n ensures RefAt(roles, i, upper) != RefAt(roles, j, upper) {
        SameRef(roles, i, j, upper);
        if RoleAt(roles, i) == RoleAt(roles, j) { NumbersApart(roles, i, j); }
      }
    }
    if RefsApart(roles, n, upper) {
      forall i: nat, j: nat | i < n && j < n && RoleAt(roles, i) != RoleAt(roles, j)
        ensures RolePrefix(RoleAt(roles, i), upper) != RolePrefix(RoleAt(roles, j), upper)
      {
        var a := FirstOf(roles, i);
        var b := FirstOf(roles, j);
        SameRef(roles, a, b, upper);
        if a > b { assert RefAt(roles, b, upper) != RefAt(roles, a, upper); }
      }
    }
  }

  /** The first document of a role is number one. */
  lemma {:induction false} FirstOf(roles: seq<string>, i: nat) returns (k: nat)
    requires roles != []
    ensures k <= i && RoleAt(roles, k) == RoleAt(roles, i) && NumberOf(roles, k) == 1
    decreases i
  {
    if j: nat :| j < i && RoleAt(roles, j) == RoleAt(roles, i) {
      k := FirstOf(roles, j);
    } else {
      k := i;
      NoneBefore(roles, RoleAt(roles, i), i);
    }
  }

  lemma {:induction false} NoneBefore(roles: seq<string>, role: string, n: nat)
    requires roles != [] && forall j: nat :: j < n ==> RoleAt(roles, j) != role
    ensures RoleCount(roles, role, n) == 0
  {
    if n > 0 { NoneBefore(roles, role, n - 1); }
  }

  // ---- which document gets which label -----------------------------------

  /** The role of document `i`: that of its position, the last one from then on. */
  ghost function RoleName(roles: seq<string>, i: nat): string {
    if roles == [] then "our_component" else if i < |roles| then roles[i] else roles[|roles| - 1]
  }

  /** The documents up to number `i` that share its role. */
  ghost function SameRole(roles: seq<string>, i: nat): set<nat> {
    set j: nat | j <= i && RoleName(roles, j) == RoleName(roles, i)
  }

  ghost function Weight(c: Chunk): nat {
    match c.tier case Some(Secret) => 2 case Some(Internal) => 1 case Some(Open) => 0 case None => 1
  }

  /** Higher tiers come first, an untiered document counts as internal; then paths, then ids. */
  ghost predicate Precedes(a: Chunk, b: Chunk) {
    || Weight(a) > Weight(b)
    || (Weight(a) == Weight(b) && a.path != b.path && StringLe(a.path, b.path))
    || (Weight(a) == Weight(b) && a.path == b.path && StringLe(a.id, b.id))
  }

  /** The known roles have their prefixes; of others the first six capitals are taken when
      there are two or more. */
  ghost predicate PrefixIs(role: string, upper: string -> string, p: string) {
    match role
    case "external_requirement" => p == "REQ"
    case "our_component" => p == "COMP"
    case "constraint" => p == "CONST"
    case "goal" => p == "GOAL"
    case _ =>
      var letters := KeepUpper(upper(role));
      if |letters| < 2 then p == "ENT" else p <= letters && |p| == if |letters| < 6 then |letters| else 6
  }

  /** Capitals are kept, everything else is left out. */
  lemma {:induction false} KeepUpperConcat(a: string, b: string)
    ensures KeepUpper(a + b) == KeepUpper(a) + KeepUpper(b)
  {
    if a == "" {
      assert a + b == b;
    } else {
      assert (a + b)[1..] == a[1..] + b;
      KeepUpperConcat(a[1..], b);
    }
  }

  lemma KeepUpperOne(c: char)
    ensures KeepUpper([c]) == if 'A' <= c <= 'Z' then [c] else ""
    ensures KeepUpper("") == ""
  {
    assert [c][1..] == "";
  }

  lemma PrefixIff(role: string, upper: string -> string, p: string)
    ensures RolePrefix(role, upper) == p <==> PrefixIs(role, upper, p)
  {
    var letters := KeepUpper(upper(role));
    if p <= letters { assert p == letters[..|p|]; }
    assert letters[..|letters|] == letters;
  }

  lemma ChunkOrder()
    ensures Total(ChunkLe) && Transitive(ChunkLe)
    ensures forall a, b :: ChunkLe(a, b) <==> Precedes(a, b)
  {
    StringLeLinear();
    forall a, b ensures ChunkLe(a, b) <==> Precedes(a, b) {
      assert RankOf(a) == Weight(a) && RankOf(b) == Weight(b);
    }
  }

  ghost function OfRole(roles: seq<string>, role: string, n: nat): set<nat> {
    set j: nat | j < n && RoleName(roles, j) == role
  }

  lemma OfRoleMore(roles: seq<string>, role: string, n: nat)
    ensures |OfRole(roles, role, n + 1)| == |OfRole(roles, role, n)| + if RoleName(roles, n) == role then 1 else 0
  {
    assert OfRole(roles, role, n + 1) == OfRole(roles, role, n) + if RoleName(roles, n) == role then {n} else {};
  }

  lemma RoleAtIs(roles: seq<string>, i: nat)
    ensures RoleAt(RolesOf(roles), i) == RoleName(roles, i)
  {
  }

  lemma CountIsSize(roles: seq<string>, role: string, n: nat)
    ensures RoleCount(RolesOf(roles), role, n) == |OfRole(roles, role, n)|
  {
    assert OfRole(roles, role, 0) == {};
    for i := 0 to n
      invariant RoleCount(RolesOf(roles), role, i) == |OfRole(roles, role, i)|
    {
      OfRoleMore(roles, role, i);
      RoleAtIs(roles, i);
    }
  }

  lemma NumberIs(roles: seq<string>, i: nat)
    ensures NumberOf(RolesOf(roles), i) == |SameRole(roles, i)|
  {
    CountIsSize(roles, RoleName(roles, i), i + 1);
    assert SameRole(roles, i) == OfRole(roles, RoleName(roles, i), i + 1);
    RoleAtIs(roles, i);
  }

  /** Document `i` in order has the `n`-th letter of its role, when it is the `n`-th of it. */
  ghost predicate LabelledAs(c: Chunk, roles: seq<string>, i: nat, upper: string -> string, a: Assignment) {
    && a.role == RoleName(roles, i) && a.chunkId == c.id && a.title == c.title
    && |a.ref| > 2 && PrefixIs(a.role, upper, a.ref[..|a.ref| - 2])
    && a.ref[|a.ref| - 2] == '_' && a.ref[|a.ref| - 1] as int == 'A' as int + |SameRole(roles, i)| - 1
  }

  lemma LabelIs(c: Chunk, roles: seq<string>, i: nat, upper: string -> string)
    requires NumberOf(RolesOf(roles), i) <= MAX_REFS
    ensures LabelledAs(c, roles, i, upper, AssignmentAt(c, RolesOf(roles), i, upper))
  {
    var a := AssignmentAt(c, RolesOf(roles), i, upper);
    NumberIs(roles, i);
    NumberPositive(RolesOf(roles), i);
    assert RoleAt(RolesOf(roles), i) == RoleName(roles, i);
    PrefixShape(a.role, upper);
    PrefixIff(a.role, upper, RolePrefix(a.role, upper));
    assert a.ref[..|a.ref| - 2] == RolePrefix(a.role, upper);
  }

  /** Labelling fails just without documents or with more than twenty-six of a role;
      otherwise the documents are labelled in the order of their tiers, paths and ids. */
  lemma AssignedAre(chunks: seq<Chunk>, roles: seq<string>, upper: string -> string) returns (ordered: seq<Chunk>)
    ensures multiset(ordered) == multiset(chunks)
    ensures forall i, j :: 0 <= i < j < |ordered| ==> Precedes(ordered[i], ordered[j])
    ensures Assigned(chunks, roles, upper).None? <==>
      chunks == [] || exists i :: 0 <= i < |ordered| && |SameRole(roles, i)| > 26
    ensures Assigned(chunks, roles, upper).Some? ==> var r := Assigned(chunks, roles, upper).value;
      |r| == |ordered| && forall i :: 0 <= i < |r| ==> LabelledAs(ordered[i], roles, i, upper, r[i])
  {
    ordered := Sorted(chunks, ChunkLe);
    ChunkOrder();
    SortedKeeps(chunks, ChunkLe);
    SortedAscends(chunks, ChunkLe);
    forall i, j | 0 <= i < j < |ordered| ensures Precedes(ordered[i], ordered[j]) {
      assert ChunkLe(ordered[i], ordered[j]);
    }
    forall i: nat ensures NumberOf(RolesOf(roles), i) == |SameRole(roles, i)| { NumberIs(roles, i); }
    if Assigned(chunks, roles, upper).Some? {
      forall i | 0 <= i < |ordered| ensures LabelledAs(ordered[i], roles, i, upper, Assigned(chunks, roles, upper).value[i]) {
        LabelIs(ordered[i], roles, i, upper);
      }
    }
  }
}
