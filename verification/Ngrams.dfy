/** src/mesh/validator.py, stage 5 for structured payloads: no n words in a row of an
    original may stand in the payload. The JSON text of the payload is a parameter,
    `dumped`: nothing here depends on how it is written. */
module Ngrams {
  import opened Text
  import opened Normalizing
  import opened JsonValues

  /** A text with fewer words than `n` is one gram. */
  function NgramSet(text: string, n: nat, f: Lowering): set<string>
    requires n >= 1
  {
    var toks := Tokens(Normalize(text, f));
    if toks == [] then {}
    else if |toks| <= n then {Joined(toks)}
    else set i | 0 <= i < |toks| - n + 1 :: Gram(toks, n, i)
  }

  function Gram(toks: seq<string>, n: nat, i: nat): string
    requires i + n <= |toks|
  {
    Joined(toks[i..i + n])
  }

  function GramsOf(originals: seq<string>, n: nat, f: Lowering): set<string>
    requires n >= 1
  {
    if originals == [] then {} else NgramSet(originals[0], n, f) + GramsOf(originals[1..], n, f)
  }

  function PayloadText(dumped: string, payload: Json): string {
    var raw := Joined(AllStrings(payload));
    if raw == "" then dumped else dumped + "\n" + raw
  }

  function Blob(dumped: string, payload: Json, f: Lowering): string {
    Normalize(PayloadText(dumped, payload), f)
  }

  /** `check_no_source_ngram` for structured payloads. */
  predicate NgramPassed(dumped: string, payload: Json, originals: seq<string>, n: nat, f: Lowering)
    requires n >= 1
  {
    forall g :: g in GramsOf(originals, n, f) ==> !Contains(Blob(dumped, payload, f), g)
  }

  // ---- words in a row ----------------------------------------------------

  /** `ys` stand in a row somewhere in `xs`. */
  ghost predicate InARow(ys: seq<string>, xs: seq<string>) {
    exists i: nat :: RowAt(ys, xs, i)
  }

  predicate RowAt(ys: seq<string>, xs: seq<string>, i: nat) {
    i + |ys| <= |xs| && xs[i..i + |ys|] == ys
  }

  lemma RowIn(before: seq<string>, ys: seq<string>, after: seq<string>)
    ensures InARow(ys, before + (ys + after))
  {
    assert RowAt(ys, before + (ys + after), |before|);
  }

  lemma RowTrans(zs: seq<string>, ys: seq<string>, xs: seq<string>)
    requires InARow(zs, ys) && InARow(ys, xs)
    ensures InARow(zs, xs)
  {
    var i: nat :| RowAt(zs, ys, i);
    var j: nat :| RowAt(ys, xs, j);
    SliceOfSlice(xs, j, |ys|, i, |zs|);
    assert RowAt(zs, xs, j + i);
  }

  lemma SliceOfSlice<T>(xs: seq<T>, j: nat, m: nat, i: nat, k: nat)
    requires j + m <= |xs| && i + k <= m
    ensures xs[j..j + m][i..i + k] == xs[j + i..j + i + k]
  {
    var part := xs[j..j + m];
    var l, r := part[i..i + k], xs[j + i..j + i + k];
    forall q | 0 <= q < |l| ensures l[q] == r[q] { assert part[i + q] == xs[j + i + q]; }
  }

  /** A row of words, joined, is a part of the joined text. */
  lemma RowIsPart(ys: seq<string>, xs: seq<string>)
    requires ys != [] && InARow(ys, xs)
    ensures Contains(Joined(xs), Joined(ys))
  {
    var i: nat :| RowAt(ys, xs, i);
    assert xs == xs[..i] + (ys + xs[i + |ys|..]);
    JoinedPart(xs[..i], ys, xs[i + |ys|..]);
  }

  lemma LoweredRow(ys: seq<string>, xs: seq<string>, f: Lowering)
    requires InARow(ys, xs)
    ensures InARow(LowerAll(ys, f), LowerAll(xs, f))
  {
    var i: nat :| RowAt(ys, xs, i);
    forall k | 0 <= k < |ys| ensures xs[i + k] == ys[k] { assert xs[i..i + |ys|][k] == ys[k]; }
    assert RowAt(LowerAll(ys, f), LowerAll(xs, f), i);
  }

  // ---- every leaf's words stand in the blob ------------------------------

  lemma {:induction false} JoinedHoldsEach(strings: seq<string>, s: string)
    requires s in strings
    ensures InARow(Tokens(s), Tokens(Joined(strings)))
  {
    var rest := strings[1..];
    if |strings| == 1 {
      RowIn([], Tokens(s), []);
      assert [] + (Tokens(s) + []) == Tokens(s);
    } else {
      TokensApart(strings[0], ' ', Joined(rest));
      if s == strings[0] {
        RowIn([], Tokens(s), Tokens(Joined(rest)));
        assert [] + (Tokens(s) + Tokens(Joined(rest))) == Tokens(s) + Tokens(Joined(rest));
      } else {
        JoinedHoldsEach(rest, s);
        RowIn(Tokens(strings[0]), Tokens(Joined(rest)), []);
        assert Tokens(strings[0]) + (Tokens(Joined(rest)) + []) == Tokens(strings[0]) + Tokens(Joined(rest));
        RowTrans(Tokens(s), Tokens(Joined(rest)), Tokens(Joined(strings)));
      }
    }
  }

  lemma LeafInBlob(dumped: string, payload: Json, s: string, f: Lowering)
    requires Leaf(payload, s) && Tokens(s) != []
    ensures InARow(LowerAll(Tokens(s), f), LowerAll(Tokens(PayloadText(dumped, payload)), f))
  {
    WalkFindsLeaves(payload, "", s);
    var strings := AllStrings(payload);
    var raw := Joined(strings);
    JoinedHoldsEach(strings, s);
    assert raw != "";
    TokensApart(dumped, '\n', raw);
    RowIn(Tokens(dumped), Tokens(raw), []);
    assert Tokens(dumped) + (Tokens(raw) + []) == Tokens(dumped) + Tokens(raw);
    RowTrans(Tokens(s), Tokens(raw), Tokens(PayloadText(dumped, payload)));
    LoweredRow(Tokens(s), Tokens(PayloadText(dumped, payload)), f);
  }

  lemma {:induction false} GramsOfEach(originals: seq<string>, n: nat, f: Lowering, o: string)
    requires n >= 1 && o in originals
    ensures NgramSet(o, n, f) <= GramsOf(originals, n, f)
  {
    if o != originals[0] { GramsOfEach(originals[1..], n, f, o); }
  }

  /** The grams of a text are its rows of `n` lowered words, or all of them if fewer. */
  lemma GramsAre(o: string, n: nat, f: Lowering, row: seq<string>)
    requires n >= 1 && row != [] && InARow(row, LowerAll(Tokens(o), f))
    requires |row| == n || (|row| < n && row == LowerAll(Tokens(o), f))
    ensures Joined(row) in NgramSet(o, n, f)
  {
    NormalizeIsJoined(o, f);
    var toks := LowerAll(Tokens(o), f);
    var i: nat :| RowAt(row, toks, i);
    if |toks| <= n {
      assert toks[i..i + |row|] == toks;
    } else {
      assert Gram(toks, n, i) == Joined(row);
    }
  }

  /** Nothing gets past: a row of `n` words of an original in any string at any depth of
      the payload - or a whole original of at most `n` words - fails the stage, whatever
      the white space and the case of either. */
  lemma DetectorComplete(dumped: string, payload: Json, originals: seq<string>, n: nat, f: Lowering,
                         s: string, o: string, row: seq<string>)
    requires n >= 1 && Leaf(payload, s) && o in originals && row != []
    requires InARow(row, LowerAll(Tokens(s), f)) && InARow(row, LowerAll(Tokens(o), f))
    requires |row| == n || (|row| < n && row == LowerAll(Tokens(o), f))
    ensures !NgramPassed(dumped, payload, originals, n, f)
  {
    var text := PayloadText(dumped, payload);
    LeafInBlob(dumped, payload, s, f);
    RowTrans(row, LowerAll(Tokens(s), f), LowerAll(Tokens(text), f));
    NormalizeIsJoined(text, f);
    RowIsPart(row, LowerAll(Tokens(text), f));
    GramsOfEach(originals, n, f, o);
    GramsAre(o, n, f, row);
  }

  /** A row of `n` lowered words of an original, or all of them if there are fewer. */
  ghost predicate RowOf(o: string, n: nat, f: Lowering, row: seq<string>) {
    && row != [] && InARow(row, LowerAll(Tokens(o), f))
    && (|row| == n || (|row| < n && row == LowerAll(Tokens(o), f)))
  }

  lemma GramsOnly(o: string, n: nat, f: Lowering, g: string)
    requires n >= 1 && g in NgramSet(o, n, f)
    ensures exists row :: RowOf(o, n, f, row) && g == Joined(row)
  {
    NormalizeIsJoined(o, f);
    var toks := LowerAll(Tokens(o), f);
    if |toks| <= n {
      assert RowAt(toks, toks, 0);
      assert RowOf(o, n, f, toks);
    } else {
      var i :| 0 <= i < |toks| - n + 1 && g == Gram(toks, n, i);
      assert RowAt(toks[i..i + n], toks, i);
      assert RowOf(o, n, f, toks[i..i + n]);
    }
  }

  lemma {:induction false} GramsOfOne(originals: seq<string>, n: nat, f: Lowering, g: string)
    requires n >= 1 && g in GramsOf(originals, n, f)
    ensures exists o :: o in originals && g in NgramSet(o, n, f)
  {
    if g !in NgramSet(originals[0], n, f) { GramsOfOne(originals[1..], n, f, g); }
  }

  ghost function WordsOf(strings: seq<string>): seq<string> {
    if strings == [] then [] else Tokens(strings[0]) + WordsOf(strings[1..])
  }

  lemma {:induction false} JoinedWords(strings: seq<string>)
    ensures Tokens(Joined(strings)) == WordsOf(strings)
  {
    if |strings| == 1 {
      assert WordsOf(strings[1..]) == [];
    } else if strings != [] {
      JoinedWords(strings[1..]);
      TokensApart(strings[0], ' ', Joined(strings[1..]));
    }
  }

  /** The blob is the words of the JSON text and of all strings of the payload, lowered. */
  lemma BlobIs(dumped: string, payload: Json, f: Lowering)
    ensures Blob(dumped, payload, f) == Joined(LowerAll(Tokens(dumped) + WordsOf(AllStrings(payload)), f))
  {
    var raw := Joined(AllStrings(payload));
    JoinedWords(AllStrings(payload));
    NormalizeIsJoined(PayloadText(dumped, payload), f);
    if raw == "" {
      assert Tokens(dumped) + [] == Tokens(dumped);
    } else {
      TokensApart(dumped, '\n', raw);
    }
  }

  /** The stage passes just when no row of `n` words of an original, and no whole original
      of fewer, stands in the words of the payload. */
  lemma NgramPassedIff(dumped: string, payload: Json, originals: seq<string>, n: nat, f: Lowering)
    requires n >= 1
    ensures NgramPassed(dumped, payload, originals, n, f) <==>
      forall o, row :: o in originals && RowOf(o, n, f, row) ==>
        !Contains(Joined(LowerAll(Tokens(dumped) + WordsOf(AllStrings(payload)), f)), Joined(row))
  {
    BlobIs(dumped, payload, f);
    var blob := Blob(dumped, payload, f);
    if NgramPassed(dumped, payload, originals, n, f) {
      forall o, row | o in originals && RowOf(o, n, f, row) ensures !Contains(blob, Joined(row)) {
        GramsAre(o, n, f, row);
        GramsOfEach(originals, n, f, o);
      }
    } else {
      var g :| g in GramsOf(originals, n, f) && Contains(blob, g);
      GramsOfOne(originals, n, f, g);
      var o :| o in originals && g in NgramSet(o, n, f);
      GramsOnly(o, n, f, g);
    }
  }

  // ---- sentences ---------------------------------------------------------

  predicate IsStop(c: char) {
    c == '.' || c == '!' || c == '?' || c == '\U{3002}' || c == '\n'
  }

  /** `re.split` on runs of stops; `run` says that a stop has just been read. */
  function SplitStops(text: string, cur: string, run: bool): seq<string> {
    if text == "" then [cur]
    else if IsStop(text[0]) then (if run then [] else [cur]) + SplitStops(text[1..], "", true)
    else SplitStops(text[1..], cur + [text[0]], false)
  }

  const MIN_TOKENS := 4

  function KeepLong(parts: seq<string>, f: Lowering): seq<string> {
    if parts == [] then []
    else
      (if |Tokens(Normalize(parts[0], f))| >= MIN_TOKENS then [Normalize(parts[0], f)] else [])
      + KeepLong(parts[1..], f)
  }

  function Sentences(text: string, f: Lowering): seq<string> {
    KeepLong(SplitStops(text, "", false), f)
  }

  function CountIn(sents: seq<string>, blob: string): nat {
    if sents == [] then 0
    else CountIn(sents[..|sents| - 1], blob) + if Contains(blob, sents[|sents| - 1]) then 1 else 0
  }

  function CountAll(originals: seq<string>, blob: string, f: Lowering): nat {
    if originals == [] then 0
    else CountAll(originals[..|originals| - 1], blob, f) + CountIn(Sentences(originals[|originals| - 1], f), blob)
  }

  // ---- which pieces of a text are its sentences ---------------------------

  ghost predicate EndsSentence(c: char) {
    c in {'.', '!', '?', '\U{3002}', '\n'}
  }

  /** Between two stops, or a stop and an end of the text, and with no stop inside. */
  ghost predicate IsPiece(o: string, i: nat, j: nat) {
    && i <= j <= |o|
    && (i > 0 ==> EndsSentence(o[i - 1]))
    && (j < |o| ==> EndsSentence(o[j]))
    && forall k :: i <= k < j ==> !EndsSentence(o[k])
  }

  /** With at least four words. */
  ghost predicate IsSentence(o: string, i: nat, j: nat) {
    IsPiece(o, i, j) && |Tokens(o[i..j])| >= 4
  }

  /** A sentence that starts at `i` stands in the blob. */
  ghost predicate Quoted(o: string, i: nat, blob: string, f: Lowering) {
    exists j: nat :: IsSentence(o, i, j) && Contains(blob, Normalize(o[i..j], f))
  }

  /** The scan has read up to `k`; the piece it is in starts at `i`. */
  ghost predicate Scanning(o: string, i: nat, k: nat) {
    && i <= k <= |o|
    && (i > 0 ==> EndsSentence(o[i - 1]))
    && (forall q :: i <= q < k ==> !EndsSentence(o[q]))
  }

  lemma StopsAre(c: char)
    ensures IsStop(c) <==> EndsSentence(c)
  {
  }

  lemma NoStopInside(o: string, i: nat, k: nat, q: nat)
    requires Scanning(o, i, k)
    ensures i <= q < k ==> !EndsSentence(o[q])
  {
  }

  lemma PieceIs(o: string, i: nat, k: nat)
    requires Scanning(o, i, k) && (k == |o| || EndsSentence(o[k]))
    ensures IsPiece(o, i, k)
    ensures forall x: nat, y: nat :: IsPiece(o, x, y) && i <= x ==> (x == i && y == k) || k < x
  {
    forall x: nat, y: nat | IsPiece(o, x, y) && i <= x ensures (x == i && y == k) || k < x {
      NoStopInside(o, i, k, y);
      if x > 0 { NoStopInside(o, i, k, x - 1); }
    }
  }

  /** A test on pieces, and the number of parts that meet it. */
  type Test = string -> bool

  ghost predicate Passes(good: Test, p: string) {
    good(p)
  }

  ghost function Hits(parts: seq<string>, good: Test): nat {
    if parts == [] then 0 else (if Passes(good, parts[0]) then 1 else 0) + Hits(parts[1..], good)
  }

  /** A piece that meets the test starts at `x`. */
  ghost predicate PieceAt(o: string, x: nat, good: Test) {
    exists y: nat :: IsPiece(o, x, y) && Passes(good, o[x..y])
  }

  ghost function PiecesFrom(o: string, i: nat, good: Test): set<nat> {
    set x: nat | i <= x <= |o| && PieceAt(o, x, good)
  }

  lemma PieceHere(o: string, i: nat, k: nat, good: Test)
    requires Scanning(o, i, k) && (k == |o| || EndsSentence(o[k]))
    ensures PieceAt(o, i, good) <==> Passes(good, o[i..k])
    ensures forall x: nat :: i < x && PieceAt(o, x, good) ==> k < x
  {
    PieceIs(o, i, k);
    forall x: nat | i < x && PieceAt(o, x, good) ensures k < x {
      var y: nat :| IsPiece(o, x, y) && Passes(good, o[x..y]);
    }
  }

  /** The piece from `i` to `k` is the only one that starts before `k + 1`. */
  lemma PiecesSplit(o: string, i: nat, k: nat, good: Test)
    requires Scanning(o, i, k) && (k == |o| || EndsSentence(o[k]))
    ensures |PiecesFrom(o, i, good)| == |PiecesFrom(o, k + 1, good)| + if Passes(good, o[i..k]) then 1 else 0
  {
    PieceHere(o, i, k, good);
    var here, later := PiecesFrom(o, i, good), PiecesFrom(o, k + 1, good);
    forall x ensures x in here <==> x in later || (x == i && Passes(good, o[i..k])) { }
    OneMore(here, later, i, Passes(good, o[i..k]));
  }

  lemma OneMore(all: set<nat>, some: set<nat>, x: nat, more: bool)
    requires x !in some && forall y :: y in all <==> y in some || (y == x && more)
    ensures |all| == |some| + if more then 1 else 0
  {
    assert all == some + if more then {x} else {};
  }

  lemma ReadEnd(o: string, cur: string, run: bool)
    ensures SplitStops(o[|o|..], cur, run) == [cur]
  {
  }

  lemma ReadOn(o: string, i: nat, k: nat, run: bool)
    requires i <= k < |o| && !IsStop(o[k])
    ensures SplitStops(o[k..], o[i..k], run) == SplitStops(o[k + 1..], o[i..k + 1], false)
  {
    assert o[k..][0] == o[k] && o[k..][1..] == o[k + 1..];
    assert o[i..k] + [o[k]] == o[i..k + 1];
  }

  lemma ReadStop(o: string, i: nat, k: nat, run: bool)
    requires i <= k < |o| && IsStop(o[k])
    ensures SplitStops(o[k..], o[i..k], run) == (if run then [] else [o[i..k]]) + SplitStops(o[k + 1..], o[k + 1..k + 1], true)
  {
    assert o[k..][0] == o[k] && o[k..][1..] == o[k + 1..] && o[k + 1..k + 1] == "";
  }

  lemma HitsFirst(p: string, rest: seq<string>, run: bool, good: Test)
    requires run ==> !Passes(good, p)
    ensures Hits((if run then [] else [p]) + rest, good) == Hits(rest, good) + if Passes(good, p) then 1 else 0
  {
    if run { assert [] + rest == rest; } else { assert ([p] + rest)[1..] == rest; }
  }

  lemma HitsAtEnd(o: string, i: nat, run: bool, good: Test)
    requires Scanning(o, i, |o|)
    ensures Hits(SplitStops(o[|o|..], o[i..|o|], run), good) == |PiecesFrom(o, i, good)|
  {
    PiecesSplit(o, i, |o|, good);
    assert PiecesFrom(o, |o| + 1, good) == {};
    ReadEnd(o, o[i..|o|], run);
    HitsFirst(o[i..|o|], [], false, good);
    assert [o[i..|o|]] + [] == [o[i..|o|]];
  }

  lemma HitsAtStop(o: string, i: nat, k: nat, run: bool, good: Test)
    requires Scanning(o, i, k) && k < |o| && IsStop(o[k]) && (run ==> i == k) && !Passes(good, "")
    requires Hits(SplitStops(o[k + 1..], o[k + 1..k + 1], true), good) == |PiecesFrom(o, k + 1, good)|
    ensures Hits(SplitStops(o[k..], o[i..k], run), good) == |PiecesFrom(o, i, good)|
  {
    StopsAre(o[k]);
    PiecesSplit(o, i, k, good);
    ReadStop(o, i, k, run);
    HitsFirst(o[i..k], SplitStops(o[k + 1..], o[k + 1..k + 1], true), run, good);
  }

  /** The scan yields the pieces between stops that meet a test, each of them once; a test
      that no empty piece meets. */
  lemma {:induction false} HitsFrom(o: string, i: nat, k: nat, run: bool, good: Test)
    requires Scanning(o, i, k) && (run ==> i == k) && !Passes(good, "")
    ensures Hits(SplitStops(o[k..], o[i..k], run), good) == |PiecesFrom(o, i, good)|
    decreases |o| - k
  {
    if k == |o| {
      HitsAtEnd(o, i, run, good);
    } else {
      StopsAre(o[k]);
      if IsStop(o[k]) {
        HitsFrom(o, k + 1, k + 1, true, good);
        HitsAtStop(o, i, k, run, good);
      } else {
        ReadOn(o, i, k, run);
        HitsFrom(o, i, k + 1, false, good);
      }
    }
  }

  lemma PartsMeet(o: string, good: Test)
    requires !Passes(good, "")
    ensures Hits(SplitStops(o, "", false), good) == |PiecesFrom(o, 0, good)|
  {
    HitsFrom(o, 0, 0, false, good);
    assert o[0..] == o && o[0..0] == "";
  }

  lemma KeptLength(p: string, f: Lowering)
    ensures |Tokens(Normalize(p, f))| == |Tokens(p)|
  {
    NormalizeIsJoined(p, f);
  }

  /** A piece of four words that reads like this when normalised. */
  ghost function ReadsLike(sent: string, f: Lowering): Test {
    p => |Tokens(p)| >= 4 && Normalize(p, f) == sent
  }

  /** A piece of four words that stands in the blob when normalised. */
  ghost function StandsIn(blob: string, f: Lowering): Test {
    p => |Tokens(p)| >= 4 && Contains(blob, Normalize(p, f))
  }

  lemma {:induction false} KeptIff(parts: seq<string>, f: Lowering, sent: string)
    ensures sent in KeepLong(parts, f) <==> Hits(parts, ReadsLike(sent, f)) > 0
  {
    if parts != [] {
      KeptIff(parts[1..], f, sent);
      KeptLength(parts[0], f);
      assert Passes(ReadsLike(sent, f), parts[0]) <==> |Tokens(parts[0])| >= 4 && Normalize(parts[0], f) == sent;
    }
  }

  lemma {:induction false} CountConcat(a: seq<string>, b: seq<string>, blob: string)
    ensures CountIn(a + b, blob) == CountIn(a, blob) + CountIn(b, blob)
  {
    if b == [] {
      assert a + b == a;
    } else {
      assert (a + b)[..|a + b| - 1] == a + b[..|b| - 1];
      CountConcat(a, b[..|b| - 1], blob);
    }
  }

  lemma CountOne(s: string, blob: string)
    ensures CountIn([s], blob) == if Contains(blob, s) then 1 else 0
  {
    assert [s][..0] == [];
  }

  lemma {:induction false} CountIsHits(parts: seq<string>, f: Lowering, blob: string)
    ensures CountIn(KeepLong(parts, f), blob) == Hits(parts, StandsIn(blob, f))
  {
    if parts != [] {
      var p, rest := parts[0], KeepLong(parts[1..], f);
      CountIsHits(parts[1..], f, blob);
      KeptLength(p, f);
      assert Passes(StandsIn(blob, f), p) <==> |Tokens(p)| >= 4 && Contains(blob, Normalize(p, f));
      CountOne(Normalize(p, f), blob);
      CountConcat(if |Tokens(p)| >= 4 then [Normalize(p, f)] else [], rest, blob);
    }
  }

  /** The sentences of a text are its pieces of at least four words, normalised. */
  lemma SentencesAre(o: string, f: Lowering, sent: string)
    ensures sent in Sentences(o, f) <==>
      exists i: nat, j: nat :: IsSentence(o, i, j) && sent == Normalize(o[i..j], f)
  {
    var good := ReadsLike(sent, f);
    KeptIff(SplitStops(o, "", false), f, sent);
    PartsMeet(o, good);
    if sent in Sentences(o, f) {
      var x :| x in PiecesFrom(o, 0, good);
      var y: nat :| IsPiece(o, x, y) && Passes(good, o[x..y]);
      assert IsSentence(o, x, y) && sent == Normalize(o[x..y], f);
    }
    if i: nat, j: nat :| IsSentence(o, i, j) && sent == Normalize(o[i..j], f) {
      assert Passes(good, o[i..j]);
      assert i in PiecesFrom(o, 0, good);
    }
  }

  ghost function QuotedIn(o: string, blob: string, f: Lowering): set<nat> {
    set x: nat | x <= |o| && Quoted(o, x, blob, f)
  }

  lemma QuotedIs(o: string, x: nat, blob: string, f: Lowering)
    ensures Quoted(o, x, blob, f) <==> PieceAt(o, x, StandsIn(blob, f))
  {
    var good := StandsIn(blob, f);
    if j: nat :| IsSentence(o, x, j) && Contains(blob, Normalize(o[x..j], f)) { assert Passes(good, o[x..j]); }
    if y: nat :| IsPiece(o, x, y) && Passes(good, o[x..y]) { assert IsSentence(o, x, y); }
  }

  lemma CountOfOne(o: string, blob: string, f: Lowering)
    ensures CountIn(Sentences(o, f), blob) == |QuotedIn(o, blob, f)|
  {
    var good := StandsIn(blob, f);
    CountIsHits(SplitStops(o, "", false), f, blob);
    PartsMeet(o, good);
    forall x: nat ensures Quoted(o, x, blob, f) <==> PieceAt(o, x, good) { QuotedIs(o, x, blob, f); }
    assert QuotedIn(o, blob, f) == PiecesFrom(o, 0, good);
  }

  /** A character of an original. */
  datatype Place = At(original: nat, start: nat)

  /** Where the quoted sentences of the first `n` originals start. */
  ghost function QuotedStarts(originals: seq<string>, n: nat, blob: string, f: Lowering): set<Place>
    requires n <= |originals|
  {
    set q: nat, i: nat | q < n && i <= |originals[q]| && Quoted(originals[q], i, blob, f) :: At(q, i)
  }

  lemma {:induction false} PairsSize(starts: set<nat>, q: nat)
    ensures |set i | i in starts :: At(q, i)| == |starts|
  {
    if starts != {} {
      var x :| x in starts;
      PairsSize(starts - {x}, q);
      assert (set i | i in starts :: At(q, i)) == (set i | i in starts - {x} :: At(q, i)) + {At(q, x)};
    }
  }

  lemma StartIn(originals: seq<string>, n: nat, blob: string, f: Lowering, p: Place)
    requires n <= |originals|
    ensures p in QuotedStarts(originals, n, blob, f) <==>
      p.original < n && p.start in QuotedIn(originals[p.original], blob, f)
  {
    assert p == At(p.original, p.start);
  }

  lemma StartsOneMore(originals: seq<string>, n: nat, blob: string, f: Lowering)
    requires n < |originals|
    ensures |QuotedStarts(originals, n + 1, blob, f)|
         == |QuotedStarts(originals, n, blob, f)| + |QuotedIn(originals[n], blob, f)|
  {
    var starts, before := QuotedIn(originals[n], blob, f), QuotedStarts(originals, n, blob, f);
    var added := set i | i in starts :: At(n, i);
    PairsSize(starts, n);
    forall p ensures p in QuotedStarts(originals, n + 1, blob, f) <==> p in before || p in added {
      StartIn(originals, n, blob, f, p);
      StartIn(originals, n + 1, blob, f, p);
      assert p in added <==> p.original == n && p.start in starts by { assert p == At(p.original, p.start); }
    }
    SetParts(QuotedStarts(originals, n + 1, blob, f), before, added, n);
  }

  lemma SetParts(all: set<Place>, before: set<Place>, added: set<Place>, n: nat)
    requires forall p :: p in all <==> p in before || p in added
    requires (forall p :: p in added ==> p.original == n) && forall p :: p in before ==> p.original < n
    ensures |all| == |before| + |added|
  {
    assert all == before + added && before !! added;
  }

  lemma {:induction false} CountAllIs(originals: seq<string>, n: nat, blob: string, f: Lowering)
    requires n <= |originals|
    ensures CountAll(originals[..n], blob, f) == |QuotedStarts(originals, n, blob, f)|
  {
    if n > 0 {
      var o := originals[n - 1];
      CountAllIs(originals, n - 1, blob, f);
      assert originals[..n][..n - 1] == originals[..n - 1];
      CountOfOne(o, blob, f);
      StartsOneMore(originals, n - 1, blob, f);
    }
  }

  lemma TotalIs(originals: seq<string>, blob: string, f: Lowering)
    ensures CountAll(originals, blob, f) == |QuotedStarts(originals, |originals|, blob, f)|
  {
    CountAllIs(originals, |originals|, blob, f);
    assert originals[..|originals|] == originals;
  }

  lemma CountOneMore(originals: seq<string>, i: nat, blob: string, f: Lowering)
    requires i < |originals|
    ensures CountAll(originals[..i + 1], blob, f) == CountAll(originals[..i], blob, f) + CountIn(Sentences(originals[i], f), blob)
  {
    assert originals[..i + 1][..i] == originals[..i];
  }

  /** `verbatim_sentence_count` for structured payloads: the number of places in the originals
      where a sentence starts that stands in the payload. */
  method VerbatimSentenceCount(dumped: string, payload: Json, originals: seq<string>, f: Lowering)
    returns (count: nat)
    ensures count == |QuotedStarts(originals, |originals|, Blob(dumped, payload, f), f)|
    ensures count == CountAll(originals, Blob(dumped, payload, f), f)
  {
    var blob := Blob(dumped, payload, f);
    count := 0;
    for i := 0 to |originals|
      invariant count == CountAll(originals[..i], blob, f)
    {
      CountOneMore(originals, i, blob, f);
      var more := CountSentences(Sentences(originals[i], f), blob);
      count := count + more;
    }
    assert originals[..|originals|] == originals;
    TotalIs(originals, blob, f);
  }

  /** So a sentence of an original that stands in the payload is never missed. */
  lemma SentenceCounts(originals: seq<string>, blob: string, f: Lowering, q: nat, i: nat, j: nat)
    requires q < |originals| && IsSentence(originals[q], i, j) && Contains(blob, Normalize(originals[q][i..j], f))
    ensures CountAll(originals, blob, f) >= 1
  {
    TotalIs(originals, blob, f);
    assert At(q, i) in QuotedStarts(originals, |originals|, blob, f);
  }

  method CountSentences(sents: seq<string>, blob: string) returns (count: nat)
    ensures count == CountIn(sents, blob)
  {
    count := 0;
    for j := 0 to |sents|
      invariant count == CountIn(sents[..j], blob)
    {
      assert sents[..j + 1][..j] == sents[..j];
      if Contains(blob, sents[j]) { count := count + 1; }
    }
    assert sents[..|sents|] == sents;
  }

  lemma {:induction false} PartsAreInside(text: string, cur: string, run: bool, before: string, p: string)
    requires p in SplitStops(text, cur, run)
    ensures exists a, b :: before + cur + text == a + p + b
    decreases |text|
  {
    if text == "" {
      assert before + cur + text == before + p + "";
    } else if IsStop(text[0]) {
      if !run && p == cur {
        assert before + cur + text == before + p + text;
      } else {
        PartsAreInside(text[1..], "", true, before + cur + [text[0]], p);
        assert before + cur + [text[0]] + "" + text[1..] == before + cur + text;
      }
    } else {
      PartsAreInside(text[1..], cur + [text[0]], false, before, p);
      assert before + (cur + [text[0]]) + text[1..] == before + cur + text;
    }
  }

  /** The words of a piece of a text, but for the first and the last, which may have been
      cut, are a row of words of the text. */
  lemma InnerWords(a: string, p: string, b: string)
    requires |Tokens(p)| >= 2
    ensures InARow(Tokens(p)[1..|Tokens(p)| - 1], Tokens(a + p + b))
  {
    var ts, left := Tokens(p), Tokens(a + p);
    TokensConcat(a, p);
    GluedBefore(Tokens(a), ts, Meets(a, p));
    RowTail(ts, left);
    AllButLast(a + p, b);
    RowTrans(ts[1..|ts| - 1], left[..|left| - 1], Tokens(a + p + b));
  }

  lemma AllButLast(x: string, y: string)
    requires Tokens(x) != []
    ensures InARow(Tokens(x)[..|Tokens(x)| - 1], Tokens(x + y))
  {
    TokensConcat(x, y);
    GluedAfter(Tokens(x), Tokens(y), Meets(x, y));
  }

  /** All words but the first of the second text are still there, at the end. */
  lemma GluedBefore(xs: seq<string>, ys: seq<string>, meets: bool)
    requires ys != [] && (meets ==> xs != [])
    ensures var all := Glued(xs, ys, meets); |all| >= |ys| && all[|all| - |ys| + 1..] == ys[1..]
  {
  }

  /** All words but the last of the first text are still there, at the start. */
  lemma GluedAfter(xs: seq<string>, ys: seq<string>, meets: bool)
    requires xs != [] && (meets ==> ys != [])
    ensures InARow(xs[..|xs| - 1], Glued(xs, ys, meets))
  {
    assert RowAt(xs[..|xs| - 1], Glued(xs, ys, meets), 0);
  }

  lemma RowTail(ts: seq<string>, left: seq<string>)
    requires 2 <= |ts| <= |left| && left[|left| - |ts| + 1..] == ts[1..]
    ensures InARow(ts[1..|ts| - 1], left[..|left| - 1])
  {
    var inner, i := ts[1..|ts| - 1], |left| - |ts| + 1;
    var row := left[..|left| - 1][i..i + |inner|];
    forall q | 0 <= q < |row| ensures row[q] == inner[q] { assert left[i..][q] == ts[1..][q]; }
    assert RowAt(inner, left[..|left| - 1], i);
  }

  lemma {:induction false} KeptFrom(parts: seq<string>, f: Lowering, sent: string)
    requires sent in KeepLong(parts, f)
    ensures exists p :: p in parts && sent == Normalize(p, f) && |Tokens(sent)| >= MIN_TOKENS
  {
    if sent !in KeepLong(parts[1..], f) {
      assert sent == Normalize(parts[0], f);
    } else {
      KeptFrom(parts[1..], f, sent);
    }
  }

  /** If the stage passes, a kept sentence that still stands in the payload is short. */
  lemma SentencesShort(dumped: string, payload: Json, originals: seq<string>, n: nat, f: Lowering, o: string, sent: string)
    requires n >= 1 && NgramPassed(dumped, payload, originals, n, f) && o in originals
    requires sent in Sentences(o, f) && Contains(Blob(dumped, payload, f), sent)
    ensures |Tokens(sent)| < n + 2
  {
    KeptFrom(SplitStops(o, "", false), f, sent);
    var p :| p in SplitStops(o, "", false) && sent == Normalize(p, f) && |Tokens(sent)| >= MIN_TOKENS;
    PartsAreInside(o, "", false, "", p);
    assert "" + "" + o == o;
    var a, b :| o == a + p + b;
    NormalizeIsJoined(p, f);
    if |Tokens(sent)| >= n + 2 {
      LongSentenceFails(dumped, payload, originals, n, f, a, p, b);
    }
  }

  lemma LongSentenceFails(dumped: string, payload: Json, originals: seq<string>, n: nat, f: Lowering,
                          a: string, p: string, b: string)
    requires n >= 1 && a + p + b in originals && |Tokens(p)| >= n + 2
    requires Contains(Blob(dumped, payload, f), Normalize(p, f))
    ensures !NgramPassed(dumped, payload, originals, n, f)
  {
    var row := InnerRow(a, p, b, n);
    LoweredRow(row, Tokens(a + p + b), f);
    GramsAre(a + p + b, n, f, LowerAll(row, f));
    GramsOfEach(originals, n, f, a + p + b);
    LoweredRow(row, Tokens(p), f);
    NormalizeIsJoined(p, f);
    RowIsPart(LowerAll(row, f), LowerAll(Tokens(p), f));
    ContainsTrans(Blob(dumped, payload, f), Normalize(p, f), Joined(LowerAll(row, f)));
  }

  lemma InnerRow(a: string, p: string, b: string, n: nat) returns (row: seq<string>)
    requires n >= 1 && |Tokens(p)| >= n + 2
    ensures |row| == n && InARow(row, Tokens(p)) && InARow(row, Tokens(a + p + b))
  {
    var ts := Tokens(p);
    var inner := ts[1..|ts| - 1];
    InnerWords(a, p, b);
    row := inner[..n];
    assert RowAt(row, inner, 0);
    RowTrans(row, inner, Tokens(a + p + b));
    assert RowAt(inner, ts, 1);
    RowTrans(row, inner, ts);
  }

  lemma ContainsTrans(s: string, t: string, u: string)
    requires Contains(s, t) && Contains(t, u)
    ensures Contains(s, u)
  {
    var i: nat :| i <= |s| && OccursAt(s, t, i);
    var j: nat :| j <= |t| && OccursAt(t, u, j);
    SliceOfSlice(s, i, |t|, j, |u|);
    assert OccursAt(s, u, i + j);
  }

  lemma {:induction false} NoneCounted(sents: seq<string>, blob: string)
    ensures CountIn(sents, blob) == 0 <==> forall s :: s in sents ==> !Contains(blob, s)
  {
    if sents != [] {
      NoneCounted(sents[..|sents| - 1], blob);
      assert sents == sents[..|sents| - 1] + [sents[|sents| - 1]];
    }
  }

  /** So the count shown to the approver is 0 when every kept sentence has at least
      `n + 2` words and the stage has passed. */
  lemma {:induction false} CountIsZero(dumped: string, payload: Json, originals: seq<string>, n: nat, f: Lowering,
                                       some: seq<string>)
    requires n >= 1 && NgramPassed(dumped, payload, originals, n, f)
    requires forall o :: o in some ==> o in originals
    requires forall o, s :: o in some && s in Sentences(o, f) ==> |Tokens(s)| >= n + 2
    ensures CountAll(some, Blob(dumped, payload, f), f) == 0
    decreases |some|
  {
    if some != [] {
      var o, blob := some[|some| - 1], Blob(dumped, payload, f);
      CountIsZero(dumped, payload, originals, n, f, some[..|some| - 1]);
      forall s | s in Sentences(o, f) ensures !Contains(blob, s) {
        if Contains(blob, s) { SentencesShort(dumped, payload, originals, n, f, o, s); }
      }
      NoneCounted(Sentences(o, f), blob);
    }
  }
}
