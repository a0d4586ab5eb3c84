/** src/mesh/triage.py: who can answer a question - a rule score over public words, the
    in-zone model's picks on top, and a cap. Weights are in thousandths. */
module Triage {
  import opened Whitespace
  import opened Text
  import opened Normalizing
  import opened Ordering

  const WEIGHT_TOPIC := 1000
  const WEIGHT_EXPERTISE := 600
  const WEIGHT_EXPERTISE_SINGLE := 300
  const WEIGHT_FOCUS := 500
  const WEIGHT_UNIT := 250
  const WEIGHT_TITLE := 300
  const WEIGHT_MODEL_PICK := 800
  const MIN_TOKEN_LEN := 2

  datatype Candidate = Candidate(id: string, name: string, expertise: string, topics: seq<string>,
                                 unitPath: seq<string>, title: string, focus: string, available: bool)

  /** Lower case, and the cutting of Korean particles. */
  datatype Lang = Lang(lower: Lowering, stripSuffix: string -> string)

  // ---- words -------------------------------------------------------------

  /** `[0-9A-Za-z` and Hangul`]` */
  predicate IsWordChar(c: char) {
    '0' <= c <= '9' || 'A' <= c <= 'Z' || 'a' <= c <= 'z' || '\U{AC00}' <= c <= '\U{D7A3}'
  }

  function Spaced(s: string): string {
    seq(|s|, i requires 0 <= i < |s| => if IsWordChar(s[i]) then s[i] else ' ')
  }

  /** The runs of word characters of the lowered text. */
  function RawWords(text: string, lang: Lang): seq<string> {
    Tokens(Spaced(Lower(text, lang.lower)))
  }

  function TokenSet(text: string, lang: Lang): set<string> {
    var raw := set w | w in RawWords(text, lang) && |w| >= MIN_TOKEN_LEN;
    raw + set w | w in raw && |lang.stripSuffix(w)| >= MIN_TOKEN_LEN :: lang.stripSuffix(w)
  }

  function Concat(ws: seq<string>): string {
    if ws == [] then "" else ws[0] + Concat(ws[1..])
  }

  function Compact(text: string, lang: Lang): string {
    Concat(RawWords(text, lang))
  }

  predicate Hit(question: string, phrase: string, lang: Lang) {
    && Strip(phrase) != ""
    && ((Compact(phrase, lang) != "" && Contains(Compact(question, lang), Compact(phrase, lang)))
        || (TokenSet(phrase, lang) != {} && TokenSet(phrase, lang) <= TokenSet(question, lang)))
  }

  function PhraseHits(question: string, phrases: seq<string>, lang: Lang): set<string> {
    set p | p in phrases && Hit(question, p, lang)
  }

  function Overlap(question: string, text: string, lang: Lang): set<string> {
    if Strip(text) == "" then {} else TokenSet(question, lang) * TokenSet(text, lang)
  }

  // ---- the score ---------------------------------------------------------

  function Min(a: int, b: int): int { if a < b then a else b }

  function ExpertiseWeight(n: nat): nat {
    if n == 0 then 0 else if n == 1 then WEIGHT_EXPERTISE_SINGLE else WEIGHT_EXPERTISE * Min(n, 3)
  }

  function ScoreOf(topics: nat, expertise: nat, title: bool, focus: bool, units: nat): nat {
    WEIGHT_TOPIC * Min(topics, 3) + ExpertiseWeight(expertise) + (if title then WEIGHT_TITLE else 0)
    + (if focus then WEIGHT_FOCUS else 0) + WEIGHT_UNIT * units
  }

  function Score(question: string, c: Candidate, lang: Lang): nat {
    ScoreOf(|PhraseHits(question, c.topics, lang)|, |Overlap(question, c.expertise, lang)|,
            c.title != "" && PhraseHits(question, [c.title], lang) != {},
            Overlap(question, c.focus, lang) != {}, |PhraseHits(question, c.unitPath, lang)|)
  }

  method ScoreCandidate(question: string, c: Candidate, lang: Lang) returns (score: nat)
    ensures score == Score(question, c, lang)
  {
    score := 0;
    var topics := PhraseHits(question, c.topics, lang);
    if topics != {} { score := score + WEIGHT_TOPIC * Min(|topics|, 3); }
    var expertise := Overlap(question, c.expertise, lang);
    if expertise != {} {
      if |expertise| == 1 {
        score := score + WEIGHT_EXPERTISE_SINGLE;
      } else {
        score := score + WEIGHT_EXPERTISE * Min(|expertise|, 3);
      }
    }
    if c.title != "" && PhraseHits(question, [c.title], lang) != {} { score := score + WEIGHT_TITLE; }
    if Overlap(question, c.focus, lang) != {} { score := score + WEIGHT_FOCUS; }
    var units := PhraseHits(question, c.unitPath, lang);
    if units != {} { score := score + WEIGHT_UNIT * |units|; }
  }

  // ---- more words never hurt ---------------------------------------------

  lemma SpacedConcat(x: string, y: string)
    ensures Spaced(x + y) == Spaced(x) + Spaced(y)
  {
  }

  lemma {:induction false} ConcatConcat(xs: seq<string>, ys: seq<string>)
    ensures Concat(xs + ys) == Concat(xs) + Concat(ys)
  {
    if xs == [] {
      assert xs + ys == ys;
    } else {
      assert (xs + ys)[1..] == xs[1..] + ys;
      ConcatConcat(xs[1..], ys);
    }
  }

  /** The words of an appended text come after the words there were. */
  lemma WordsAppend(q: string, w: string, lang: Lang)
    ensures RawWords(q + " " + w, lang) == RawWords(q, lang) + RawWords(w, lang)
  {
    var f := lang.lower;
    LowerConcat(q + " ", w, f);
    LowerConcat(q, " ", f);
    LowerBlank(f);
    SpacedConcat(Lower(q, f) + " ", Lower(w, f));
    SpacedConcat(Lower(q, f), " ");
    assert Spaced(" ") == " ";
    TokensApart(Spaced(Lower(q, f)), ' ', Spaced(Lower(w, f)));
  }

  lemma MoreTokens(q: string, w: string, lang: Lang)
    ensures TokenSet(q, lang) <= TokenSet(q + " " + w, lang)
  {
    WordsAppend(q, w, lang);
  }

  lemma CompactGrows(q: string, w: string, lang: Lang, p: string)
    requires Contains(Compact(q, lang), p)
    ensures Contains(Compact(q + " " + w, lang), p)
  {
    WordsAppend(q, w, lang);
    ConcatConcat(RawWords(q, lang), RawWords(w, lang));
    var s, t := Compact(q, lang), Compact(w, lang);
    var i: nat :| i <= |s| && OccursAt(s, p, i);
    assert (s + t)[i..i + |p|] == s[i..i + |p|];
    assert OccursAt(s + t, p, i);
  }

  lemma HitStays(q: string, w: string, phrase: string, lang: Lang)
    requires Hit(q, phrase, lang)
    ensures Hit(q + " " + w, phrase, lang)
  {
    MoreTokens(q, w, lang);
    if Contains(Compact(q, lang), Compact(phrase, lang)) { CompactGrows(q, w, lang, Compact(phrase, lang)); }
  }

  lemma HitsGrow(q: string, w: string, phrases: seq<string>, lang: Lang)
    ensures PhraseHits(q, phrases, lang) <= PhraseHits(q + " " + w, phrases, lang)
    ensures |PhraseHits(q, phrases, lang)| <= |PhraseHits(q + " " + w, phrases, lang)|
  {
    forall p | p in PhraseHits(q, phrases, lang) ensures p in PhraseHits(q + " " + w, phrases, lang) {
      HitStays(q, w, p, lang);
    }
    SmallerSet(PhraseHits(q, phrases, lang), PhraseHits(q + " " + w, phrases, lang));
  }

  lemma OverlapGrows(q: string, w: string, text: string, lang: Lang)
    ensures Overlap(q, text, lang) <= Overlap(q + " " + w, text, lang)
    ensures |Overlap(q, text, lang)| <= |Overlap(q + " " + w, text, lang)|
  {
    MoreTokens(q, w, lang);
    SmallerSet(Overlap(q, text, lang), Overlap(q + " " + w, text, lang));
  }

  lemma ScoreMonotone(t: nat, e: nat, title: bool, focus: bool, u: nat, t': nat, e': nat, title': bool, focus': bool, u': nat)
    requires t <= t' && e <= e' && u <= u' && (title ==> title') && (focus ==> focus')
    ensures ScoreOf(t, e, title, focus, u) <= ScoreOf(t', e', title', focus', u')
  {
  }

  /** Adding words to a question never lowers anybody's rule score. */
  lemma WordNeverLowers(q: string, w: string, c: Candidate, lang: Lang)
    ensures Score(q, c, lang) <= Score(q + " " + w, c, lang)
  {
    var more := q + " " + w;
    HitsGrow(q, w, c.topics, lang);
    HitsGrow(q, w, [c.title], lang);
    HitsGrow(q, w, c.unitPath, lang);
    OverlapGrows(q, w, c.expertise, lang);
    OverlapGrows(q, w, c.focus, lang);
    ScoreMonotone(|PhraseHits(q, c.topics, lang)|, |Overlap(q, c.expertise, lang)|,
                  c.title != "" && PhraseHits(q, [c.title], lang) != {}, Overlap(q, c.focus, lang) != {},
                  |PhraseHits(q, c.unitPath, lang)|,
                  |PhraseHits(more, c.topics, lang)|, |Overlap(more, c.expertise, lang)|,
                  c.title != "" && PhraseHits(more, [c.title], lang) != {}, Overlap(more, c.focus, lang) != {},
                  |PhraseHits(more, c.unitPath, lang)|);
  }

  // ---- what the score is made of --------------------------------------------

  /** Words are the runs of digits, Latin letters and Hangul syllables: anything else parts
      them, and nothing else does. */
  lemma WordsPart(a: string, c: char, b: string)
    requires !('0' <= c <= '9' || 'A' <= c <= 'Z' || 'a' <= c <= 'z' || '\U{AC00}' <= c <= '\U{D7A3}')
    ensures Tokens(Spaced(a + [c] + b)) == Tokens(Spaced(a)) + Tokens(Spaced(b))
  {
    SpacedConcat(a + [c], b);
    SpacedConcat(a, [c]);
    assert Spaced([c]) == " ";
    TokensApart(Spaced(a), ' ', Spaced(b));
  }

  lemma OneWord(w: string)
    requires w != ""
    requires forall c :: c in w ==>
      '0' <= c <= '9' || 'A' <= c <= 'Z' || 'a' <= c <= 'z' || '\U{AC00}' <= c <= '\U{D7A3}'
    ensures Tokens(Spaced(w)) == [w]
  {
    forall i | 0 <= i < |w| ensures Spaced(w)[i] == w[i] { assert w[i] in w; }
    assert Spaced(w) == w;
    forall c | c in w ensures !IsSpace(c) { WordOrSpace(c); }
    WordTokens(w);
  }

  /** A word of two characters or more that the text has, as it stands or without its particle. */
  ghost predicate WordOf(w: string, text: string, lang: Lang) {
    |w| >= 2 && exists raw :: raw in RawWords(text, lang) && |raw| >= 2 && (w == raw || w == lang.stripSuffix(raw))
  }

  lemma TokenSetIs(text: string, lang: Lang, w: string)
    ensures w in TokenSet(text, lang) <==> WordOf(w, text, lang)
  {
  }

  /** The question has the phrase: its words run together stand in the question's, or each of
      them is a word of the question. */
  ghost predicate Mentions(question: string, phrase: string, lang: Lang) {
    && (exists c :: c in phrase && !IsSpace(c))
    && ((RawWords(phrase, lang) != [] && Contains(Concat(RawWords(question, lang)), Concat(RawWords(phrase, lang))))
        || ((exists w :: WordOf(w, phrase, lang)) && forall w :: WordOf(w, phrase, lang) ==> WordOf(w, question, lang)))
  }

  lemma CompactIsEmpty(text: string, lang: Lang)
    ensures Compact(text, lang) == "" <==> RawWords(text, lang) == []
  {
    TokensAreWords(Spaced(Lower(text, lang.lower)));
    var ws := RawWords(text, lang);
    if ws != [] { assert ws[0] in ws; }
  }

  lemma BlankIff(s: string)
    ensures Strip(s) != "" <==> exists c :: c in s && !IsSpace(c)
  {
    StripIs(s);
    var t := Strip(s);
    if t != "" {
      assert t[0] in t;
      var a, b :| s == a + t + b && AllSpace(a) && AllSpace(b);
      assert t[0] in s;
    } else {
      var a, b :| s == a + t + b && AllSpace(a) && AllSpace(b);
      assert forall c :: c in s ==> c in a || c in b;
    }
  }

  lemma HitIff(question: string, phrase: string, lang: Lang)
    ensures Hit(question, phrase, lang) <==> Mentions(question, phrase, lang)
  {
    BlankIff(phrase);
    CompactIsEmpty(phrase, lang);
    forall w ensures w in TokenSet(phrase, lang) <==> WordOf(w, phrase, lang) { TokenSetIs(phrase, lang, w); }
    forall w ensures w in TokenSet(question, lang) <==> WordOf(w, question, lang) { TokenSetIs(question, lang, w); }
  }

  lemma {:induction false} BlankHasNoWords(s: string, f: Lowering)
    requires AllSpace(s)
    ensures Tokens(Spaced(Lower(s, f))) == []
  {
    if s != "" {
      assert s[0] in s && f(s[0]) == [s[0]] && forall c :: c in s[1..] ==> c in s;
      BlankHasNoWords(s[1..], f);
      assert Lower(s, f) == [s[0]] + Lower(s[1..], f);
      SpacedConcat([s[0]], Lower(s[1..], f));
      WordOrSpace(s[0]);
      assert Spaced([s[0]]) == " ";
      assert (" " + Spaced(Lower(s[1..], f)))[1..] == Spaced(Lower(s[1..], f));
    }
  }

  lemma WordOrSpace(c: char)
    ensures IsWordChar(c) ==> !IsSpace(c)
  {
  }

  /** The words that the question and the text share. */
  ghost function Shared(question: string, text: string, lang: Lang): set<string> {
    set w | w in TokenSet(question, lang) && WordOf(w, text, lang)
  }

  lemma OverlapIs(question: string, text: string, lang: Lang)
    ensures Overlap(question, text, lang) == Shared(question, text, lang)
    ensures forall w :: w in Shared(question, text, lang) <==> WordOf(w, question, lang) && WordOf(w, text, lang)
  {
    forall w ensures w in TokenSet(text, lang) <==> WordOf(w, text, lang) { TokenSetIs(text, lang, w); }
    forall w ensures w in TokenSet(question, lang) <==> WordOf(w, question, lang) { TokenSetIs(question, lang, w); }
    if Strip(text) == "" {
      BlankIff(text);
      BlankHasNoWords(text, lang.lower);
    }
  }

  ghost function Mentioned(question: string, phrases: seq<string>, lang: Lang): set<string> {
    set p | p in phrases && Mentions(question, p, lang)
  }

  lemma HitsAre(question: string, phrases: seq<string>, lang: Lang)
    ensures PhraseHits(question, phrases, lang) == Mentioned(question, phrases, lang)
  {
    forall p ensures Hit(question, p, lang) <==> Mentions(question, p, lang) { HitIff(question, p, lang); }
  }

  ghost function UpToThree(n: nat): nat { if n <= 3 then n else 3 }

  /** The score in thousandths: a thousand for each of up to three topics mentioned; three
      hundred for one word of expertise shared, six hundred each for two or three; three
      hundred for the title; five hundred for a word of the focus; two hundred and fifty for
      each unit mentioned. */
  lemma ScoreIs(question: string, c: Candidate, lang: Lang)
    ensures Score(question, c, lang) ==
      1000 * UpToThree(|Mentioned(question, c.topics, lang)|)
      + (var n := |Shared(question, c.expertise, lang)|; if n == 1 then 300 else 600 * UpToThree(n))
      + (if c.title != "" && Mentions(question, c.title, lang) then 300 else 0)
      + (if exists w :: WordOf(w, question, lang) && WordOf(w, c.focus, lang) then 500 else 0)
      + 250 * |Mentioned(question, c.unitPath, lang)|
  {
    HitsAre(question, c.topics, lang);
    HitsAre(question, c.unitPath, lang);
    OverlapIs(question, c.expertise, lang);
    TitleIs(question, c.title, lang);
    FocusIs(question, c.focus, lang);
  }

  lemma TitleIs(question: string, title: string, lang: Lang)
    ensures PhraseHits(question, [title], lang) != {} <==> Mentions(question, title, lang)
  {
    HitIff(question, title, lang);
    assert title in [title];
    if Hit(question, title, lang) { assert title in PhraseHits(question, [title], lang); }
  }

  lemma FocusIs(question: string, focus: string, lang: Lang)
    ensures Overlap(question, focus, lang) != {} <==> exists w :: WordOf(w, question, lang) && WordOf(w, focus, lang)
  {
    OverlapIs(question, focus, lang);
    if w :| WordOf(w, question, lang) && WordOf(w, focus, lang) { assert w in Shared(question, focus, lang); }
  }
}
