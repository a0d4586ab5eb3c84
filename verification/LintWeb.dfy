/** scripts/lint_web.py, `strip_js_comments`, up to the final split into lines: a lexer
    of six states that blanks comments. */
module LintWeb {
  import opened Sequences

  datatype State = InCode | InLine | InBlock | InText(quote: char)

  predicate IsQuote(c: char) {
    c == '\'' || c == '"' || c == '`'
  }

  function Blank(c: char): char {
    if c == '\n' then '\n' else ' '
  }

  /** What one character does, given the one behind it: what is emitted, the state after
      and the characters consumed. */
  datatype Lexed = Lexed(emit: string, state: State, used: nat)

  function Lex(ch: char, nxt: string, state: State): Lexed {
    match state
    case InCode =>
      if ch == '/' && nxt == "/" then Lexed("", InLine, 2)
      else if ch == '/' && nxt == "*" then Lexed("", InBlock, 2)
      else Lexed([ch], if IsQuote(ch) then InText(ch) else InCode, 1)
    case InLine => Lexed([Blank(ch)], if ch == '\n' then InCode else InLine, 1)
    case InBlock =>
      if ch == '*' && nxt == "/" then Lexed("  ", InCode, 2) else Lexed([Blank(ch)], InBlock, 1)
    case InText(q) =>
      if ch == '\\' then Lexed([ch] + nxt, state, 2)
      else Lexed([ch], if ch == q then InCode else state, 1)
  }

  /** `text[i..]`, and nothing past the end. */
  function From(text: string, i: nat): string {
    if i <= |text| then text[i..] else ""
  }

  /** The character at `i`, if there is one. */
  function At(text: string, i: nat): string {
    if i < |text| then [text[i]] else ""
  }

  /** What the lexer emits from a state on the rest of the text. */
  function Strip(t: string, state: State): string
    decreases |t|
  {
    if t == "" then ""
    else
      var l := Lex(t[0], At(t, 1), state);
      l.emit + Strip(From(t, l.used), l.state)
  }

  lemma StripFrom(text: string, i: nat, state: State, l: Lexed)
    requires i < |text| && l == Lex(text[i], At(text, i + 1), state)
    ensures Strip(From(text, i), state) == l.emit + Strip(From(text, i + l.used), l.state)
  {
    var t := From(text, i);
    assert t[0] == text[i] && At(t, 1) == At(text, i + 1);
    assert From(t, l.used) == From(text, i + l.used);
  }

  method StripComments(text: string) returns (buf: string)
    ensures buf == Strip(text, InCode)
  {
    var i, n := 0, |text|;
    var state := InCode;
    buf := "";
    Begins(text);
    while i < n
      invariant Progress(text, buf, i, state)
      decreases n - i
    {
      var l := Scan(text, i, state);
      Advance(buf, text, i, state, l);
      i, state, buf := i + l.used, l.state, buf + l.emit;
    }
    Finished(text, buf, i, state);
  }

  /** The branches of the loop. */
  method Scan(text: string, i: nat, state: State) returns (l: Lexed)
    requires i < |text|
    ensures l.used > 0 && l == Lex(text[i], At(text, i + 1), state)
  {
    var ch := text[i];
    var nxt := if i + 1 < |text| then [text[i + 1]] else "";
    var piece, next, used := [ch], state, 1;
    match state {
      case InCode =>
        if ch == '/' && nxt == "/" {
          piece, next, used := "", InLine, 2;
        } else if ch == '/' && nxt == "*" {
          piece, next, used := "", InBlock, 2;
        } else if IsQuote(ch) {
          next := InText(ch);
        }
      case InLine =>
        if ch == '\n' { next := InCode; } else { piece := " "; }
      case InBlock =>
        if ch == '*' && nxt == "/" {
          piece, next, used := "  ", InCode, 2;
        } else if ch != '\n' {
          piece := " ";
        }
      case InText(q) =>
        if ch == '\\' {
          piece, used := [ch] + nxt, 2;
        } else if ch == q {
          next := InCode;
        }
    }
    l := Lexed(piece, next, used);
  }

  /** What has been emitted, and what is still to be, make up the result. */
  ghost predicate Progress(text: string, buf: string, i: nat, state: State) {
    buf + Strip(From(text, i), state) == Strip(text, InCode)
  }

  lemma Begins(text: string)
    ensures Progress(text, "", 0, InCode)
  {
    assert From(text, 0) == text;
  }

  lemma Finished(text: string, buf: string, i: nat, state: State)
    requires i >= |text| && Progress(text, buf, i, state)
    ensures buf == Strip(text, InCode)
  {
    assert From(text, i) == "";
  }

  lemma Advance(buf: string, text: string, i: nat, state: State, l: Lexed)
    requires i < |text| && l == Lex(text[i], At(text, i + 1), state)
    requires Progress(text, buf, i, state)
    ensures Progress(text, buf + l.emit, i + l.used, l.state)
  {
    StripFrom(text, i, state, l);
    Regroup(buf, l.emit, Strip(From(text, i + l.used), l.state));
  }

  lemma RegroupFour(a: string, b: string, d: string, e: string)
    ensures ((a + b) + d) + e == a + (b + (d + e)) == a + ((b + d) + e)
  {
    Regroup(a + b, d, e);
    Regroup(a, b, d + e);
    Regroup(b, d, e);
  }

  lemma Cut(a: string, b: string, k: nat)
    requires k <= |a|
    ensures (a + b)[k..] == a[k..] + b && (a + b)[..k] == a[..k]
  {
  }

  // ---- the reference: a grammar ------------------------------------------

  /** A text is a sequence of these. `closed` is false for a literal or comment that
      runs to the end of the text. */
  datatype Segment =
    | Code(c: char)
    | Literal(quote: char, body: string, closed: bool)
    | LineComment(body: string)
    | BlockComment(body: string, closed: bool)
  {
    predicate IsComment() { LineComment? || BlockComment? }

    function Source(): string {
      match this
      case Code(c) => [c]
      case Literal(q, body, closed) => [q] + body + Closer(closed, [q])
      case LineComment(body) => "//" + body
      case BlockComment(body, closed) => "/*" + body + Closer(closed, "*/")
    }

    /** Comments lose their opener and are blanked; everything else is kept. */
    function Rendered(): string {
      match this
      case LineComment(body) => Blanked(body)
      case BlockComment(body, closed) => Blanked(body) + Closer(closed, "  ")
      case _ => Source()
    }
  }

  /** A text of the same length that is blank but for the newlines. */
  function Blanked(s: string): string {
    seq(|s|, i requires 0 <= i < |s| => if s[i] == '\n' then '\n' else ' ')
  }

  /** The three characters that a literal of JavaScript can stand between. */
  ghost predicate Delimits(c: char) {
    c == '\'' || c == '"' || c == '`'
  }

  /** No quote in the body ends the literal: each stands behind a backslash. A lone
      backslash may only end a literal that is not closed. */
  predicate Escapes(body: string, q: char, closed: bool) {
    body == "" ||
      if body[0] == '\\' then (if |body| == 1 then !closed else Escapes(body[2..], q, closed))
      else body[0] != q && Escapes(body[1..], q, closed)
  }

  ghost predicate NoCloser(body: string) {
    forall i :: 0 <= i < |body| - 1 ==> !(body[i] == '*' && body[i + 1] == '/')
  }

  /** The segment is one of the grammar when `rest` follows it. */
  ghost predicate Fits(s: Segment, rest: string) {
    match s
    case Code(c) => !Delimits(c) && !(c == '/' && rest != "" && rest[0] in "/*")
    case Literal(q, body, closed) => Delimits(q) && Escapes(body, q, closed) && (closed || rest == "")
    case LineComment(body) => '\n' !in body && (rest == "" || rest[0] == '\n')
    case BlockComment(body, closed) => NoCloser(body) && (closed || rest == "")
  }

  function Source(segs: seq<Segment>): string {
    if segs == [] then "" else segs[0].Source() + Source(segs[1..])
  }

  function Rendered(segs: seq<Segment>): string {
    if segs == [] then "" else segs[0].Rendered() + Rendered(segs[1..])
  }

  ghost predicate WellFormed(segs: seq<Segment>) {
    segs == [] || (Fits(segs[0], Source(segs[1..])) && WellFormed(segs[1..]))
  }

  // ---- the lexer follows the grammar -------------------------------------

  lemma StripStep(t: string, state: State)
    requires t != ""
    ensures var l := Lex(t[0], At(t, 1), state); Strip(t, state) == l.emit + Strip(From(t, l.used), l.state)
  {
  }

  lemma BlankedStep(s: string)
    requires s != ""
    ensures Blanked(s) == [Blank(s[0])] + Blanked(s[1..])
  {
  }

  lemma {:induction false} StripLine(body: string, rest: string)
    requires '\n' !in body && (rest == "" || rest[0] == '\n')
    ensures Strip(body + rest, InLine) == Blanked(body) + Strip(rest, InCode)
  {
    if body == "" {
      assert body + rest == rest;
      if rest != "" { StripStep(rest, InLine); StripStep(rest, InCode); }
    } else {
      Cut(body, rest, 1);
      StripStep(body + rest, InLine);
      StripLine(body[1..], rest);
      assert Blanked(body) == [' '] + Blanked(body[1..]);
      Regroup([' '], Blanked(body[1..]), Strip(rest, InCode));
    }
  }

  function Closer(closed: bool, closer: string): string {
    if closed then closer else ""
  }

  lemma {:induction false} StripBlock(body: string, closed: bool, rest: string)
    requires NoCloser(body) && (closed || rest == "")
    ensures Strip(body + (Closer(closed, "*/") + rest), InBlock)
         == (Blanked(body) + Closer(closed, "  ")) + Strip(rest, InCode)
  {
    var tail := Closer(closed, "*/") + rest;
    if body == "" {
      assert body + tail == tail;
      StripClosed("*/", closed, rest, InBlock, "  ");
      assert Blanked(body) + Closer(closed, "  ") == Closer(closed, "  ");
    } else {
      Cut(body, tail, 1);
      NoCloserTail(body);
      StripStep(body + tail, InBlock);
      StripBlock(body[1..], closed, rest);
      BlankedStep(body);
      RegroupFour([Blank(body[0])], Blanked(body[1..]), Closer(closed, "  "), Strip(rest, InCode));
    }
  }

  /** The closer, if there is one, leads back to code. */
  lemma StripClosed(closer: string, closed: bool, rest: string, state: State, emit: string)
    requires 1 <= |closer| <= 2 && (closed || rest == "")
    requires Lex(closer[0], At(closer + rest, 1), state) == Lexed(emit, InCode, |closer|)
    ensures Strip(Closer(closed, closer) + rest, state) == Closer(closed, emit) + Strip(rest, InCode)
  {
    if closed {
      Cut(closer, rest, |closer|);
      StripStep(closer + rest, state);
    }
  }

  lemma NoCloserTail(body: string)
    requires body != "" && NoCloser(body)
    ensures NoCloser(body[1..])
  {
    var tail := body[1..];
    forall i | 0 <= i < |tail| - 1 ensures !(tail[i] == '*' && tail[i + 1] == '/') {
      assert tail[i] == body[i + 1] && tail[i + 1] == body[i + 2];
    }
  }

  lemma {:induction false} StripText(body: string, q: char, closed: bool, rest: string)
    requires IsQuote(q) && Escapes(body, q, closed) && (closed || rest == "")
    ensures Strip(body + (Closer(closed, [q]) + rest), InText(q))
         == (body + Closer(closed, [q])) + Strip(rest, InCode)
    decreases |body|
  {
    var end := Closer(closed, [q]);
    var tail := end + rest;
    if body == "" {
      assert body + tail == tail && body + end == end;
      StripClosed([q], closed, rest, InText(q), [q]);
    } else {
      var k := if body[0] == '\\' then 2 else 1;
      StripStep(body + tail, InText(q));
      if k <= |body| {
        EmitsHead(body, tail, q, k);
        Cut(body, tail, k);
        StripText(body[k..], q, closed, rest);
        Rejoin(body, k, end, Strip(rest, InCode));
      } else {
        assert body + tail == body && body == [body[0]];
      }
    }
  }

  lemma Rejoin(body: string, k: nat, end: string, more: string)
    requires k <= |body|
    ensures body[..k] + ((body[k..] + end) + more) == (body + end) + more
  {
    RegroupFour(body[..k], body[k..], end, more);
    assert body[..k] + body[k..] == body;
  }

  lemma EmitsHead(body: string, tail: string, q: char, k: nat)
    requires body != "" && k == (if body[0] == '\\' then 2 else 1) && k <= |body|
    requires body[0] != q && IsQuote(q)
    ensures Lex((body + tail)[0], At(body + tail, 1), InText(q)) == Lexed(body[..k], InText(q), k)
  {
    assert k == 2 ==> body[..k] == [body[0]] + [body[1]];
  }

  lemma StripSegment(s: Segment, rest: string)
    requires Fits(s, rest)
    ensures Strip(s.Source() + rest, InCode) == s.Rendered() + Strip(rest, InCode)
  {
    match s
    case Code(c) =>
      Cut([c], rest, 1);
      StripStep([c] + rest, InCode);
    case Literal(q, body, closed) =>
      StripLiteral(q, body, closed, rest);
    case LineComment(body) =>
      Regroup("//", body, rest);
      StripStep("//" + (body + rest), InCode);
      Cut("//", body + rest, 2);
      StripLine(body, rest);
    case BlockComment(body, closed) =>
      StripBlockComment(body, closed, rest);
  }

  lemma StripLiteral(q: char, body: string, closed: bool, rest: string)
    requires Fits(Literal(q, body, closed), rest)
    ensures Strip(([q] + body + Closer(closed, [q])) + rest, InCode)
         == ([q] + body + Closer(closed, [q])) + Strip(rest, InCode)
  {
    var end := Closer(closed, [q]);
    RegroupFour([q], body, end, rest);
    Opens([q], body + (end + rest), InText(q), [q]);
    StripText(body, q, closed, rest);
    RegroupFour([q], body, end, Strip(rest, InCode));
  }

  lemma StripBlockComment(body: string, closed: bool, rest: string)
    requires Fits(BlockComment(body, closed), rest)
    ensures Strip(("/*" + body + Closer(closed, "*/")) + rest, InCode)
         == (Blanked(body) + Closer(closed, "  ")) + Strip(rest, InCode)
  {
    RegroupFour("/*", body, Closer(closed, "*/"), rest);
    Opens("/*", body + (Closer(closed, "*/") + rest), InBlock, "");
    StripBlock(body, closed, rest);
  }

  lemma Opens(opener: string, rest: string, state: State, emit: string)
    requires 1 <= |opener| <= 2
    requires Lex(opener[0], At(opener + rest, 1), InCode) == Lexed(emit, state, |opener|)
    ensures Strip(opener + rest, InCode) == emit + Strip(rest, state)
  {
    Cut(opener, rest, |opener|);
    StripStep(opener + rest, InCode);
  }

  /** On every text of the grammar, code and literals come out unchanged and in order,
      and comments blanked in their place. */
  lemma {:induction false} StripIsRendered(segs: seq<Segment>)
    requires WellFormed(segs)
    ensures Strip(Source(segs), InCode) == Rendered(segs)
  {
    if segs != [] {
      StripSegment(segs[0], Source(segs[1..]));
      StripIsRendered(segs[1..]);
    }
  }

  // ---- every text is of the grammar --------------------------------------

  predicate Starts(t: string, a: char, b: char) {
    |t| > 1 && t[0] == a && t[1] == b
  }

  lemma {:induction false} FindNewline(t: string) returns (n: nat)
    ensures n <= |t| && '\n' !in t[..n] && (n < |t| ==> t[n] == '\n')
  {
    if t == "" || t[0] == '\n' { return 0; }
    var m := FindNewline(t[1..]);
    n := m + 1;
    assert t[..n] == [t[0]] + t[1..][..m];
  }

  lemma {:induction false} FindCloser(t: string) returns (n: nat, closed: bool)
    ensures n <= |t| && NoCloser(t[..n])
    ensures if closed then Starts(t[n..], '*', '/') else n == |t|
    decreases |t|
  {
    if t == "" { return 0, false; }
    if Starts(t, '*', '/') { assert t[0..] == t; return 0, true; }
    var m, c := FindCloser(t[1..]);
    n, closed := m + 1, c;
    assert t[1..][m..] == t[n..];
    var body, inner := t[..n], t[1..][..m];
    forall i | 0 <= i < |body| - 1 ensures !(body[i] == '*' && body[i + 1] == '/') {
      if i > 0 { assert body[i] == inner[i - 1] && body[i + 1] == inner[i]; }
    }
  }

  lemma {:induction false} FindQuote(t: string, q: char) returns (n: nat, closed: bool)
    requires IsQuote(q)
    ensures n <= |t| && Escapes(t[..n], q, closed)
    ensures if closed then n < |t| && t[n] == q else n == |t|
    decreases |t|
  {
    if t == "" { return 0, false; }
    if t[0] == q { return 0, true; }
    if t[0] == '\\' {
      if |t| == 1 { assert t[..1] == t; return 1, false; }
      var m, c := FindQuote(t[2..], q);
      n, closed := m + 2, c;
      assert t[..n][2..] == t[2..][..m];
    } else {
      var m, c := FindQuote(t[1..], q);
      n, closed := m + 1, c;
      assert t[..n][1..] == t[1..][..m];
    }
  }

  lemma FirstLine(more: string) returns (s: Segment, rest: string)
    ensures Fits(s, rest) && s.Source() + rest == "//" + more && |rest| <= |more|
  {
    var n := FindNewline(more);
    s, rest := LineComment(more[..n]), more[n..];
    Regroup("//", more[..n], rest);
    assert more[..n] + rest == more;
  }

  lemma FirstBlock(more: string) returns (s: Segment, rest: string)
    ensures Fits(s, rest) && s.Source() + rest == "/*" + more && |rest| <= |more|
  {
    var n, closed := FindCloser(more);
    var after := more[n..];
    rest := if closed then after[2..] else "";
    s := BlockComment(more[..n], closed);
    assert after == Closer(closed, "*/") + rest by {
      if closed { assert after == [after[0]] + [after[1]] + after[2..]; }
    }
    RegroupFour("/*", more[..n], Closer(closed, "*/"), rest);
    assert more[..n] + after == more;
  }

  lemma FirstComment(t: string) returns (s: Segment, rest: string)
    requires Starts(t, '/', '/') || Starts(t, '/', '*')
    ensures Fits(s, rest) && s.Source() + rest == t && |rest| < |t|
  {
    if t[1] == '/' {
      s, rest := FirstLine(t[2..]);
      assert t == "//" + t[2..];
    } else {
      s, rest := FirstBlock(t[2..]);
      assert t == "/*" + t[2..];
    }
  }

  lemma FirstLiteral(t: string) returns (s: Segment, rest: string)
    requires t != "" && IsQuote(t[0])
    ensures Fits(s, rest) && s.Source() + rest == t && |rest| < |t|
  {
    var more := t[1..];
    var n, closed := FindQuote(more, t[0]);
    var after := more[n..];
    s, rest := Literal(t[0], more[..n], closed), if closed then after[1..] else "";
    assert after == Closer(closed, [t[0]]) + rest by {
      if closed { assert after == [after[0]] + after[1..]; }
    }
    RegroupFour([t[0]], more[..n], Closer(closed, [t[0]]), rest);
    assert more[..n] + after == more && t == [t[0]] + more;
  }

  lemma FirstSegment(t: string) returns (s: Segment, rest: string)
    requires t != ""
    ensures Fits(s, rest) && s.Source() + rest == t && |rest| < |t|
  {
    if Starts(t, '/', '/') || Starts(t, '/', '*') {
      s, rest := FirstComment(t);
    } else if IsQuote(t[0]) {
      s, rest := FirstLiteral(t);
    } else {
      s, rest := Code(t[0]), t[1..];
    }
  }

  lemma {:induction false} Decompose(t: string) returns (segs: seq<Segment>)
    ensures WellFormed(segs) && Source(segs) == t
    decreases |t|
  {
    segs := [];
    if t != "" {
      var s, rest := FirstSegment(t);
      var more := Decompose(rest);
      segs := [s] + more;
      assert segs[1..] == more;
    }
  }

  // ---- consequences ------------------------------------------------------

  function Comments(segs: seq<Segment>): nat {
    if segs == [] then 0 else (if segs[0].IsComment() then 1 else 0) + Comments(segs[1..])
  }

  function Newlines(t: string): nat {
    if t == "" then 0 else (if t[0] == '\n' then 1 else 0) + Newlines(t[1..])
  }

  /** The places of the line ends from `k` on. */
  ghost function LineEnds(t: string, k: nat): set<nat> {
    set i: nat | k <= i < |t| && t[i] == '\n'
  }

  lemma LineEndsMore(t: string, k: nat)
    requires k < |t|
    ensures |LineEnds(t, k)| == |LineEnds(t, k + 1)| + if t[k] == '\n' then 1 else 0
  {
    assert LineEnds(t, k) == LineEnds(t, k + 1) + if t[k] == '\n' then {k} else {};
  }

  lemma NewlinesMore(t: string, k: nat)
    requires k < |t|
    ensures Newlines(t[k..]) == Newlines(t[k + 1..]) + if t[k] == '\n' then 1 else 0
  {
    assert t[k..][1..] == t[k + 1..];
  }

  lemma NewlinesAre(t: string)
    ensures Newlines(t) == |LineEnds(t, 0)|
  {
    assert t[|t|..] == "" && LineEnds(t, |t|) == {};
    for k := |t| downto 0
      invariant Newlines(t[k..]) == |LineEnds(t, k)|
    {
      LineEndsMore(t, k);
      NewlinesMore(t, k);
    }
    assert t[0..] == t;
  }

  lemma {:induction false} NewlinesConcat(a: string, b: string)
    ensures Newlines(a + b) == Newlines(a) + Newlines(b)
  {
    if a == "" {
      assert a + b == b;
    } else {
      assert (a + b)[1..] == a[1..] + b;
      NewlinesConcat(a[1..], b);
    }
  }

  lemma {:induction false} BlankedNewlines(s: string)
    ensures Newlines(Blanked(s)) == Newlines(s)
  {
    if s != "" {
      assert Blanked(s)[1..] == Blanked(s[1..]);
      BlankedNewlines(s[1..]);
    }
  }

  lemma SegmentNewlines(s: Segment)
    ensures Newlines(s.Rendered()) == Newlines(s.Source())
  {
    match s
    case LineComment(body) =>
      BlankedNewlines(body);
      NewlinesConcat("//", body);
    case BlockComment(body, closed) =>
      BlankedNewlines(body);
      NewlinesConcat(Blanked(body), Closer(closed, "  "));
      NewlinesConcat("/*" + body, Closer(closed, "*/"));
      NewlinesConcat("/*", body);
    case _ =>
  }

  /** The text gets shorter by exactly two characters per comment opened, and keeps its
      newlines. */
  lemma {:induction false} SizesOf(segs: seq<Segment>)
    ensures |Rendered(segs)| + 2 * Comments(segs) == |Source(segs)|
    ensures Newlines(Rendered(segs)) == Newlines(Source(segs))
  {
    if segs != [] {
      SizesOf(segs[1..]);
      SegmentNewlines(segs[0]);
      NewlinesConcat(segs[0].Rendered(), Rendered(segs[1..]));
      NewlinesConcat(segs[0].Source(), Source(segs[1..]));
    }
  }

  /** A comment as the code it is turned into. */
  function Spaces(s: string): seq<Segment> {
    seq(|s|, i requires 0 <= i < |s| => Code(Blank(s[i])))
  }

  function Cleaned(segs: seq<Segment>): seq<Segment> {
    if segs == [] then []
    else (if segs[0].IsComment() then Spaces(segs[0].Rendered()) else [segs[0]]) + Cleaned(segs[1..])
  }

  lemma {:induction false} SpacesSource(s: string, more: seq<Segment>)
    requires (forall c :: c in s ==> c == Blank(c)) && WellFormed(more)
    ensures Source(Spaces(s) + more) == s + Source(more) && WellFormed(Spaces(s) + more)
  {
    if s == "" {
      assert Spaces(s) + more == more && s + Source(more) == Source(more);
    } else {
      var tail := Spaces(s[1..]) + more;
      assert s[0] in s;
      SpacesStep(s, more);
      SpacesSource(s[1..], more);
      BlankIsCode(s[0], Source(tail));
      Prepend(Code(s[0]), tail);
      Regroup([s[0]], s[1..], Source(more));
      assert [s[0]] + s[1..] == s;
    }
  }

  lemma SpacesStep(s: string, more: seq<Segment>)
    requires s != "" && s[0] == Blank(s[0])
    ensures Spaces(s) + more == [Code(s[0])] + (Spaces(s[1..]) + more)
  {
  }

  lemma BlankIsCode(c: char, rest: string)
    requires c == Blank(c)
    ensures Fits(Code(c), rest)
  {
  }

  lemma Prepend(s: Segment, segs: seq<Segment>)
    requires WellFormed(segs) && Fits(s, Source(segs))
    ensures WellFormed([s] + segs) && Source([s] + segs) == s.Source() + Source(segs)
  {
    assert ([s] + segs)[1..] == segs;
  }

  lemma CommentIsBlank(s: Segment)
    requires s.IsComment()
    ensures forall c :: c in s.Rendered() ==> c == Blank(c)
  {
  }

  /** The output is again of the grammar, with no comments. */
  lemma {:induction false} CleanedIs(segs: seq<Segment>)
    requires WellFormed(segs)
    ensures WellFormed(Cleaned(segs)) && Source(Cleaned(segs)) == Rendered(segs)
  {
    if segs != [] {
      var s, more := segs[0], Cleaned(segs[1..]);
      CleanedIs(segs[1..]);
      if s.IsComment() {
        CommentIsBlank(s);
        SpacesSource(s.Rendered(), more);
      } else {
        var all := [s] + more;
        assert all[1..] == more;
        CleanedFits(s, segs[1..]);
      }
    }
  }

  /** A slash in front of code does not come to stand in front of a comment opener. */
  lemma CleanedFits(s: Segment, more: seq<Segment>)
    requires !s.IsComment() && Fits(s, Source(more)) && WellFormed(more)
    ensures Fits(s, Rendered(more))
  {
    if more != [] && !more[0].IsComment() {
      assert Rendered(more)[0] == more[0].Source()[0] == Source(more)[0];
    } else if more != [] {
      assert Source(more)[0] == more[0].Source()[0] == '/';
    }
  }

  ghost predicate NoComments(segs: seq<Segment>) {
    forall s :: s in segs ==> !s.IsComment()
  }

  lemma {:induction false} PlainIsKept(segs: seq<Segment>)
    requires NoComments(segs)
    ensures Rendered(segs) == Source(segs)
  {
    if segs != [] {
      assert segs[0] in segs;
      PlainIsKept(segs[1..]);
    }
  }

  lemma {:induction false} CleanedIsPlain(segs: seq<Segment>)
    ensures NoComments(Cleaned(segs))
  {
    if segs != [] { CleanedIsPlain(segs[1..]); }
  }

  /** On every text: stripping again changes nothing, the newlines are kept, and the
      length goes down by two per comment of the text's decomposition. */
  lemma StripTwice(t: string)
    ensures Strip(Strip(t, InCode), InCode) == Strip(t, InCode)
    ensures Newlines(Strip(t, InCode)) == Newlines(t)
    ensures exists segs ::
      && WellFormed(segs) && Source(segs) == t && Strip(t, InCode) == Rendered(segs)
      && |Strip(t, InCode)| == |t| - 2 * Comments(segs)
  {
    var segs := Decompose(t);
    StripIsRendered(segs);
    CleanedIs(segs);
    StripIsRendered(Cleaned(segs));
    CleanedIsPlain(segs);
    PlainIsKept(Cleaned(segs));
    SizesOf(segs);
  }
}
