/** src/mesh/classifier.py and src/mesh/protocol_store.py: the tier of a text by rules
    merged from protocols, and the in-zone model's say. */
module Classifying {
  import opened Schemas
  import opened Ordering
  import opened Text
  import opened Normalizing

  datatype Protocol = Protocol(keywords: seq<string>, patterns: seq<string>, contentPatterns: seq<string>,
                               secretDirs: seq<string>, extensions: seq<string>,
                               internalDirs: seq<string>, openDirs: seq<string>)
  datatype Banned = Banned(literals: seq<string>, patterns: seq<string>)
  datatype Rules = Rules(banned: Banned, secretGlobs: seq<string>, openGlobs: seq<string>,
                         internalGlobs: seq<string>, default: Tier)

  const BASE_SECRET: seq<string> := ["person_kim/data/customer-H/**", "**/benchmark/**"]
  const BASE_OPEN: seq<string> := ["shared/data/public/**"]
  const BASE_INTERNAL: seq<string> := ["person_*/data/**", "shared/data/**"]

  function NonBlank(xs: seq<string>): set<string> {
    set x | x in xs && x != ""
  }

  // ---- merging -----------------------------------------------------------

  method AddNew(xs: seq<string>, items: seq<string>) returns (out: seq<string>)
    ensures xs <= out && Entries(out) == Entries(xs) + NonBlank(items)
  {
    out := xs;
    for i := 0 to |items|
      invariant xs <= out && Entries(out) == Entries(xs) + NonBlank(items[..i])
    {
      ghost var before := out;
      if items[i] != "" && items[i] !in out { out := out + [items[i]]; }
      assert Entries(out) == Entries(before) + NonBlank([items[i]]);
      assert NonBlank(items[..i + 1]) == NonBlank(items[..i]) + NonBlank([items[i]]) by {
        assert items[..i + 1] == items[..i] + [items[i]];
      }
    }
    assert items[..|items|] == items;
  }

  /** The patterns of the extensions that are not blank; `ext` turns one into a pattern. */
  function ExtPatterns(extensions: seq<string>, ext: string -> string): seq<string> {
    if extensions == [] then []
    else ExtPatterns(extensions[..|extensions| - 1], ext)
         + if extensions[|extensions| - 1] == "" then [] else [ext(extensions[|extensions| - 1])]
  }

  function Words(ps: seq<Protocol>): set<string> {
    if ps == [] then {} else Words(ps[..|ps| - 1]) + NonBlank(ps[|ps| - 1].keywords)
  }

  function PatternsOf(p: Protocol, ext: string -> string): set<string> {
    NonBlank(p.patterns) + NonBlank(p.contentPatterns) + NonBlank(ExtPatterns(p.extensions, ext))
  }

  function Patterns(ps: seq<Protocol>, ext: string -> string): set<string> {
    if ps == [] then {} else Patterns(ps[..|ps| - 1], ext) + PatternsOf(ps[|ps| - 1], ext)
  }

  function SecretDirs(ps: seq<Protocol>): set<string> {
    if ps == [] then {} else SecretDirs(ps[..|ps| - 1]) + NonBlank(ps[|ps| - 1].secretDirs)
  }

  function InternalDirs(ps: seq<Protocol>): set<string> {
    if ps == [] then {} else InternalDirs(ps[..|ps| - 1]) + NonBlank(ps[|ps| - 1].internalDirs)
  }

  function OpenDirs(ps: seq<Protocol>): set<string> {
    if ps == [] then {} else OpenDirs(ps[..|ps| - 1]) + NonBlank(ps[|ps| - 1].openDirs)
  }

  /** The union of what the protocols say, on top of the built-in entries. */
  ghost predicate IsMerge(r: Rules, ps: seq<Protocol>, base: Banned, ext: string -> string) {
    && Entries(r.banned.literals) == Entries(base.literals) + Words(ps)
    && Entries(r.banned.patterns) == Entries(base.patterns) + Patterns(ps, ext)
    && Entries(r.secretGlobs) == Entries(BASE_SECRET) + SecretDirs(ps)
    && Entries(r.openGlobs) == Entries(BASE_OPEN) + OpenDirs(ps)
    && Entries(r.internalGlobs) == Entries(BASE_INTERNAL) + InternalDirs(ps)
    && r.default == Internal
  }

  method MergeOne(r: Rules, p: Protocol, ext: string -> string) returns (r': Rules)
    ensures Entries(r'.banned.literals) == Entries(r.banned.literals) + NonBlank(p.keywords)
    ensures Entries(r'.banned.patterns) == Entries(r.banned.patterns) + PatternsOf(p, ext)
    ensures Entries(r'.secretGlobs) == Entries(r.secretGlobs) + NonBlank(p.secretDirs)
    ensures Entries(r'.openGlobs) == Entries(r.openGlobs) + NonBlank(p.openDirs)
    ensures Entries(r'.internalGlobs) == Entries(r.internalGlobs) + NonBlank(p.internalDirs)
    ensures r'.default == r.default
  {
    var literals := AddNew(r.banned.literals, p.keywords);
    var patterns := AddNew(r.banned.patterns, p.patterns);
    patterns := AddNew(patterns, p.contentPatterns);
    var secret := AddNew(r.secretGlobs, p.secretDirs);
    patterns := AddNew(patterns, ExtPatterns(p.extensions, ext));
    var internal := AddNew(r.internalGlobs, p.internalDirs);
    var open := AddNew(r.openGlobs, p.openDirs);
    r' := Rules(Banned(literals, patterns), secret, open, internal, r.default);
  }

  method MergeToRules(ps: seq<Protocol>, base: Banned, ext: string -> string) returns (r: Rules)
    ensures IsMerge(r, ps, base, ext)
  {
    r := Rules(base, BASE_SECRET, BASE_OPEN, BASE_INTERNAL, Internal);
    for i := 0 to |ps|
      invariant IsMerge(r, ps[..i], base, ext)
    {
      assert ps[..i + 1][..i] == ps[..i];
      r := MergeOne(r, ps[i], ext);
    }
    assert ps[..|ps|] == ps;
  }

  // ---- what the merged rules hold --------------------------------------------

  /** The extension is made into this pattern. */
  ghost predicate MadeFrom(ext: string -> string, e: string, x: string) {
    e != "" && ext(e) == x
  }

  lemma {:induction false} ExtPatternsAre(extensions: seq<string>, ext: string -> string, x: string)
    ensures x in ExtPatterns(extensions, ext) <==> exists e :: e in extensions && MadeFrom(ext, e, x)
  {
    if extensions != [] {
      var front, last := extensions[..|extensions| - 1], extensions[|extensions| - 1];
      assert forall e :: e in extensions <==> e in front || e == last by { assert extensions == front + [last]; }
      ExtPatternsAre(front, ext, x);
      assert x in ExtPatterns(extensions, ext) <==> x in ExtPatterns(front, ext) || MadeFrom(ext, last, x);
      if e :| e in extensions && MadeFrom(ext, e, x) { assert e in front || e == last; }
    }
  }

  ghost predicate GivesPattern(p: Protocol, ext: string -> string, x: string) {
    x != "" && (x in p.patterns || x in p.contentPatterns || exists e :: e in p.extensions && MadeFrom(ext, e, x))
  }

  lemma PatternsOfAre(p: Protocol, ext: string -> string, x: string)
    ensures x in PatternsOf(p, ext) <==> GivesPattern(p, ext, x)
  {
    ExtPatternsAre(p.extensions, ext, x);
  }

  /** The merged rules hold the built-in entries, the given bans, what some protocol says and
      is not blank, and nothing else. */
  lemma MergedAre(r: Rules, ps: seq<Protocol>, base: Banned, ext: string -> string, x: string)
    requires IsMerge(r, ps, base, ext)
    ensures x in r.banned.literals <==> x in base.literals || exists p :: p in ps && x in p.keywords && x != ""
    ensures x in r.banned.patterns <==> x in base.patterns || exists p :: p in ps && GivesPattern(p, ext, x)
    ensures x in r.secretGlobs <==>
      x == "person_kim/data/customer-H/**" || x == "**/benchmark/**" || exists p :: p in ps && x in p.secretDirs && x != ""
    ensures x in r.openGlobs <==> x == "shared/data/public/**" || exists p :: p in ps && x in p.openDirs && x != ""
    ensures x in r.internalGlobs <==>
      x == "person_*/data/**" || x == "shared/data/**" || exists p :: p in ps && x in p.internalDirs && x != ""
    ensures r.default == Internal
  {
    UnionsAre(ps, ext, x);
    forall p ensures x in PatternsOf(p, ext) <==> GivesPattern(p, ext, x) { PatternsOfAre(p, ext, x); }
    assert forall xs: seq<string> :: x in xs <==> x in Entries(xs);
  }

  // ---- the rule tier -----------------------------------------------------

  /** A text, its normalised path if it has a usable one, and the tier its header states. */
  datatype Doc = Doc(text: string, path: Option<string>, header: Option<Tier>)

  /** `fnmatch` and `re.search`, and lower case. */
  datatype Matching = Matching(glob: (string, string) -> bool, search: (string, string) -> bool, lower: Lowering)

  function BeforeStar(pattern: string): string {
    if pattern == "" || pattern[0] == '*' then "" else [pattern[0]] + BeforeStar(pattern[1..])
  }

  /** Strict on the way down: only the part before the star counts. */
  predicate UnderPrefix(path: string, pattern: string) {
    var prefix := BeforeStar(pattern);
    if prefix == "" || prefix[|prefix| - 1] != '/' then path == prefix else StartsWith(path, prefix)
  }

  predicate GlobHit(d: Doc, globs: seq<string>, m: Matching) {
    d.path.Some? && d.path.value != "" && exists g :: g in globs && m.glob(d.path.value, g)
  }

  predicate LiteralHit(d: Doc, literals: seq<string>, m: Matching) {
    exists lit :: lit in literals && Contains(Lower(d.text, m.lower), Lower(lit, m.lower))
  }

  predicate PatternHit(d: Doc, patterns: seq<string>, m: Matching) {
    exists p :: p in patterns && m.search(p, d.text)
  }

  predicate OpenHit(d: Doc, globs: seq<string>) {
    d.path.Some? && d.path.value != "" && exists g :: g in globs && UnderPrefix(d.path.value, g)
  }

  datatype RuleVerdict = RuleVerdict(tier: Tier, rule: nat)

  function RuleTier(d: Doc, r: Rules, m: Matching): RuleVerdict {
    if GlobHit(d, r.secretGlobs, m) then RuleVerdict(Secret, 1)
    else if LiteralHit(d, r.banned.literals, m) then RuleVerdict(Secret, 2)
    else if PatternHit(d, r.banned.patterns, m) then RuleVerdict(Secret, 3)
    else if d.header == Some(Open) then
      RuleVerdict(if OpenHit(d, r.openGlobs) then Open else r.default, 4)
    else if d.header.Some? then RuleVerdict(d.header.value, 4)
    else if GlobHit(d, r.internalGlobs, m) then RuleVerdict(Internal, 5)
    else RuleVerdict(r.default, 6)
  }

  ghost predicate Within(r: Rules, r': Rules) {
    && Entries(r.banned.literals) <= Entries(r'.banned.literals)
    && Entries(r.banned.patterns) <= Entries(r'.banned.patterns)
    && Entries(r.secretGlobs) <= Entries(r'.secretGlobs)
    && Entries(r.openGlobs) <= Entries(r'.openGlobs)
    && Entries(r.internalGlobs) <= Entries(r'.internalGlobs)
    && r.default == r'.default
  }

  lemma HitsWiden(d: Doc, r: Rules, r': Rules, m: Matching)
    requires Within(r, r')
    ensures GlobHit(d, r.secretGlobs, m) ==> GlobHit(d, r'.secretGlobs, m)
    ensures LiteralHit(d, r.banned.literals, m) ==> LiteralHit(d, r'.banned.literals, m)
    ensures PatternHit(d, r.banned.patterns, m) ==> PatternHit(d, r'.banned.patterns, m)
    ensures OpenHit(d, r.openGlobs) ==> OpenHit(d, r'.openGlobs)
    ensures GlobHit(d, r.internalGlobs, m) ==> GlobHit(d, r'.internalGlobs, m)
  {
    forall x | x in r.secretGlobs ensures x in r'.secretGlobs { assert x in Entries(r.secretGlobs); }
    forall x | x in r.banned.literals ensures x in r'.banned.literals { assert x in Entries(r.banned.literals); }
    forall x | x in r.banned.patterns ensures x in r'.banned.patterns { assert x in Entries(r.banned.patterns); }
    forall x | x in r.openGlobs ensures x in r'.openGlobs { assert x in Entries(r.openGlobs); }
    forall x | x in r.internalGlobs ensures x in r'.internalGlobs { assert x in Entries(r.internalGlobs); }
  }

  /** Rules 1 to 3: whatever the header says. */
  predicate SecretHit(d: Doc, r: Rules, m: Matching) {
    GlobHit(d, r.secretGlobs, m) || LiteralHit(d, r.banned.literals, m) || PatternHit(d, r.banned.patterns, m)
  }

  /** A text that declares itself open, below a directory that only the wider rules open,
      and that those find nothing secret in. */
  predicate NewlyOpen(d: Doc, r: Rules, r': Rules, m: Matching) {
    d.header == Some(Open) && OpenHit(d, r'.openGlobs) && !OpenHit(d, r.openGlobs) && !SecretHit(d, r', m)
  }

  /** Wider rules never take a secret verdict back, and lower a tier in one case only. */
  lemma WiderRules(d: Doc, r: Rules, r': Rules, m: Matching)
    requires Within(r, r') && r.default == Internal
    ensures RuleTier(d, r, m).tier == Secret ==> RuleTier(d, r', m).tier == Secret
    ensures RuleTier(d, r', m).tier.Rank() < RuleTier(d, r, m).tier.Rank() <==> NewlyOpen(d, r, r', m)
  {
    HitsWiden(d, r, r', m);
  }

  // ---- which tier --------------------------------------------------------

  /** Something secret is found in a text, spelled out. */
  ghost predicate FindsSecret(d: Doc, r: Rules, m: Matching) {
    || (d.path.Some? && d.path.value != "" && exists g :: g in r.secretGlobs && m.glob(d.path.value, g))
    || (exists l :: l in r.banned.literals && Contains(Lower(d.text, m.lower), Lower(l, m.lower)))
    || (exists p :: p in r.banned.patterns && m.search(p, d.text))
  }

  /** `prefix` is the pattern up to its first star. */
  ghost predicate IsPrefixOf(prefix: string, pattern: string) {
    '*' !in prefix && (pattern == prefix || exists rest :: pattern == prefix + "*" + rest)
  }

  /** The path is what the pattern says before its star, or lies below that directory. */
  ghost predicate LiesUnder(path: string, pattern: string) {
    exists prefix :: IsPrefixOf(prefix, pattern)
      && (path == prefix || (prefix != "" && prefix[|prefix| - 1] == '/' && prefix <= path))
  }

  ghost predicate InOpenDirectory(d: Doc, r: Rules) {
    d.path.Some? && d.path.value != "" && exists g :: g in r.openGlobs && LiesUnder(d.path.value, g)
  }

  lemma {:induction false} BeforeStarIs(pattern: string)
    ensures IsPrefixOf(BeforeStar(pattern), pattern)
  {
    if pattern != "" {
      if pattern[0] == '*' {
        assert pattern == "" + "*" + pattern[1..];
      } else {
        BeforeStarIs(pattern[1..]);
        OneCharMore(pattern[0], BeforeStar(pattern[1..]), pattern[1..]);
        assert pattern == [pattern[0]] + pattern[1..];
      }
    }
  }

  lemma OneCharMore(c: char, prefix: string, pattern: string)
    requires c != '*' && IsPrefixOf(prefix, pattern)
    ensures IsPrefixOf([c] + prefix, [c] + pattern)
  {
    if pattern != prefix {
      var rest :| pattern == prefix + "*" + rest;
      assert [c] + pattern == ([c] + prefix) + "*" + rest;
    }
  }

  lemma PrefixEnds(prefix: string, pattern: string)
    requires IsPrefixOf(prefix, pattern)
    ensures prefix <= pattern && (|prefix| < |pattern| ==> pattern[|prefix|] == '*')
  {
    if pattern != prefix {
      var rest :| pattern == prefix + "*" + rest;
    }
  }

  lemma StarInside(p: string, q: string, pattern: string)
    requires p <= pattern && q <= pattern && |p| < |q| && pattern[|p|] == '*'
    ensures '*' in q
  {
    assert q[|p|] == pattern[|p|];
  }

  lemma OnePrefix(p: string, q: string, pattern: string)
    requires IsPrefixOf(p, pattern) && IsPrefixOf(q, pattern)
    ensures p == q
  {
    PrefixEnds(p, pattern);
    PrefixEnds(q, pattern);
    if |p| < |q| { StarInside(p, q, pattern); }
    if |q| < |p| { StarInside(q, p, pattern); }
  }

  lemma UnderIff(path: string, pattern: string)
    ensures UnderPrefix(path, pattern) <==> LiesUnder(path, pattern)
  {
    BeforeStarIs(pattern);
    var prefix := BeforeStar(pattern);
    assert StartsWith(path, prefix) <==> prefix <= path;
    if LiesUnder(path, pattern) {
      var p :| IsPrefixOf(p, pattern) && (path == p || (p != "" && p[|p| - 1] == '/' && p <= path));
      OnePrefix(p, prefix, pattern);
    }
  }

  lemma HitsSpelledOut(d: Doc, r: Rules, m: Matching)
    ensures SecretHit(d, r, m) <==> FindsSecret(d, r, m)
    ensures OpenHit(d, r.openGlobs) <==> InOpenDirectory(d, r)
  {
    forall g ensures d.path.Some? ==> (UnderPrefix(d.path.value, g) <==> LiesUnder(d.path.value, g)) {
      if d.path.Some? { UnderIff(d.path.value, g); }
    }
  }

  /** What a text without any clue is worth: internal, never open. A tier is open only for a
      text that says so, in an open directory, with nothing secret in it; and secret just
      where something secret is found or the text says so. */
  lemma TiersAre(d: Doc, r: Rules, m: Matching)
    requires r.default == Internal
    ensures RuleTier(d, r, m).tier == Open <==>
      d.header == Some(Open) && InOpenDirectory(d, r) && !FindsSecret(d, r, m)
    ensures RuleTier(d, r, m).tier == Secret <==> FindsSecret(d, r, m) || d.header == Some(Secret)
  {
    HitsSpelledOut(d, r, m);
  }

  /** Which rule decided. */
  lemma RuleNumbers(d: Doc, r: Rules, m: Matching)
    ensures RuleTier(d, r, m).rule <= 3 <==> FindsSecret(d, r, m)
    ensures RuleTier(d, r, m).rule == 4 <==> !FindsSecret(d, r, m) && d.header.Some?
    ensures RuleTier(d, r, m).rule == 5 <==>
      && !FindsSecret(d, r, m) && d.header.None? && d.path.Some? && d.path.value != ""
      && exists g :: g in r.internalGlobs && m.glob(d.path.value, g)
    ensures 1 <= RuleTier(d, r, m).rule <= 6
    ensures RuleTier(d, r, m).rule == 1 <==>
      d.path.Some? && d.path.value != "" && exists g :: g in r.secretGlobs && m.glob(d.path.value, g)
    ensures RuleTier(d, r, m).rule == 3 ==>
      !(exists l :: l in r.banned.literals && Contains(Lower(d.text, m.lower), Lower(l, m.lower)))
    ensures RuleTier(d, r, m).rule == 2 ==>
      exists l :: l in r.banned.literals && Contains(Lower(d.text, m.lower), Lower(l, m.lower))
  {
    HitsSpelledOut(d, r, m);
  }

  // ---- merged rules ------------------------------------------------------

  lemma {:induction false} UnionsAre(ps: seq<Protocol>, ext: string -> string, x: string)
    ensures x in Words(ps) <==> exists p :: p in ps && x in NonBlank(p.keywords)
    ensures x in Patterns(ps, ext) <==> exists p :: p in ps && x in PatternsOf(p, ext)
    ensures x in SecretDirs(ps) <==> exists p :: p in ps && x in NonBlank(p.secretDirs)
    ensures x in InternalDirs(ps) <==> exists p :: p in ps && x in NonBlank(p.internalDirs)
    ensures x in OpenDirs(ps) <==> exists p :: p in ps && x in NonBlank(p.openDirs)
  {
    if ps != [] {
      var front, last := ps[..|ps| - 1], ps[|ps| - 1];
      UnionsAre(front, ext, x);
      assert last in ps && forall p :: p in ps <==> p in front || p == last;
    }
  }

  lemma MergesNest(ps: seq<Protocol>, qs: seq<Protocol>, base: Banned, ext: string -> string, r: Rules, r': Rules)
    requires forall p :: p in ps ==> p in qs
    requires IsMerge(r, ps, base, ext) && IsMerge(r', qs, base, ext)
    ensures Within(r, r')
  {
    forall x ensures
      && (x in Words(ps) ==> x in Words(qs)) && (x in Patterns(ps, ext) ==> x in Patterns(qs, ext))
      && (x in SecretDirs(ps) ==> x in SecretDirs(qs)) && (x in InternalDirs(ps) ==> x in InternalDirs(qs))
      && (x in OpenDirs(ps) ==> x in OpenDirs(qs))
    {
      UnionsAre(ps, ext, x);
      UnionsAre(qs, ext, x);
    }
  }

  /** Merging more protocols never takes a secret verdict back, and lowers a tier only
      for a text that declares itself open below a directory that the added protocols
      open: never if they open none. */
  lemma MoreProtocols(ps: seq<Protocol>, qs: seq<Protocol>, base: Banned, ext: string -> string,
                      r: Rules, r': Rules, d: Doc, m: Matching)
    requires forall p :: p in ps ==> p in qs
    requires IsMerge(r, ps, base, ext) && IsMerge(r', qs, base, ext)
    ensures RuleTier(d, r, m).tier == Secret ==> RuleTier(d, r', m).tier == Secret
    ensures RuleTier(d, r', m).tier.Rank() < RuleTier(d, r, m).tier.Rank() <==> NewlyOpen(d, r, r', m)
    ensures OpenDirs(qs) == OpenDirs(ps) ==> RuleTier(d, r', m).tier.Rank() >= RuleTier(d, r, m).tier.Rank()
  {
    MergesNest(ps, qs, base, ext, r, r');
    WiderRules(d, r, r', m);
    if OpenDirs(qs) == OpenDirs(ps) {
      assert Entries(r'.openGlobs) == Entries(r.openGlobs);
      forall g | g in r'.openGlobs ensures g in r.openGlobs { assert g in Entries(r'.openGlobs); }
    }
  }

  /** The order of the protocols and their repetition make no difference. */
  lemma OrderDoesNotMatter(ps: seq<Protocol>, qs: seq<Protocol>, base: Banned, ext: string -> string,
                           r: Rules, r': Rules, d: Doc, m: Matching)
    requires forall p :: p in ps <==> p in qs
    requires IsMerge(r, ps, base, ext) && IsMerge(r', qs, base, ext)
    ensures RuleTier(d, r, m) == RuleTier(d, r', m)
  {
    MergesNest(ps, qs, base, ext, r, r');
    MergesNest(qs, ps, base, ext, r', r);
    AlikeDecide(d, r, r', m);
  }

  lemma AlikeDecide(d: Doc, r: Rules, r': Rules, m: Matching)
    requires Within(r, r') && Within(r', r)
    ensures RuleTier(d, r, m) == RuleTier(d, r', m)
  {
    HitsWiden(d, r, r', m);
    HitsWiden(d, r', r, m);
  }

  // ---- the model's say ---------------------------------------------------

  /** What comes back from the in-zone model: nothing usable, or a tier. */
  datatype Reply = Failed | Says(tier: Tier)

  method Classify(d: Doc, r: Rules, m: Matching, useModel: bool, reply: Reply) returns (tier: Tier)
    ensures tier.Rank() >= RuleTier(d, r, m).tier.Rank()
    ensures RuleTier(d, r, m).tier == Secret || (useModel && reply.Failed?) ==> tier == Secret
    ensures RuleTier(d, r, m).tier != Secret && !useModel ==> tier == RuleTier(d, r, m).tier
    ensures RuleTier(d, r, m).tier != Secret && useModel && reply.Says? ==>
      tier == MaxTier(RuleTier(d, r, m).tier, reply.tier)
    ensures r.default == Internal ==>
      (tier == Open <==>
         && d.header == Some(Open) && InOpenDirectory(d, r) && !FindsSecret(d, r, m)
         && (useModel ==> reply == Says(Open)))
    ensures r.default == Internal ==>
      (tier == Secret <==>
         FindsSecret(d, r, m) || d.header == Some(Secret) || (useModel && (reply.Failed? || reply == Says(Secret))))
  {
    if r.default == Internal { TiersAre(d, r, m); }
    var rule := RuleTier(d, r, m);
    if rule.tier == Secret { return Secret; }
    if !useModel { return rule.tier; }
    match reply
    case Failed => return Secret;
    case Says(t) => return MaxTier(rule.tier, t);
  }
}
