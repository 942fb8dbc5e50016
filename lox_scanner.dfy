/**
 * The jlox scanner (Scanner.java): a character-level lexer that walks the
 * source once, keeping the start of the current lexeme, the current
 * position and the line, and appends one token per lexeme and an EOF
 * token at the end. Errors go to the reporter, modelled as a log.
 */
module LoxScanner {
  import opened Wrappers
  import opened LoxTokens

  /** One report made through Lox.error(line, message). */
  datatype ScanError = ScanError(line: int, message: string)

  /** isDigit(): one of the ten ASCII digits. */
  predicate IsDigit(c: char)
    ensures IsDigit(c) ==> c != '\0' && !IsAlpha(c)
  {
    '0' <= c <= '9'
  }

  /** isAlpha(): an ASCII letter of either case, or the underscore. */
  predicate IsAlpha(c: char)
    ensures IsAlpha(c) ==> c != '\0'
  {
    ('a' <= c <= 'z') || ('A' <= c <= 'Z') || c == '_'
  }

  /** isAlphaNumeric(): a character an identifier may continue with. */
  predicate IsAlphaNumeric(c: char)
    ensures IsAlphaNumeric(c) ==> c != '\0'
  {
    IsAlpha(c) || IsDigit(c)
  }

  /** The digits listed out, and an identifier character is a letter, the underscore or a digit. */
  lemma CharClasses(c: char)
    ensures IsDigit(c) <==> c in "0123456789"
    ensures IsAlphaNumeric(c) <==> IsDigit(c) || IsAlpha(c)
  {
  }

  predicate NotNewline(c: char) {
    c != '\n'
  }

  predicate NotQuote(c: char) {
    c != '"'
  }

  /** peek(): the character at `i`, or NUL past the end. */
  function PeekAt(src: string, i: nat): char {
    if i >= |src| then '\0' else src[i]
  }

  /** peekNext(): the character after `i`, or NUL past the end. */
  function PeekNextAt(src: string, i: nat): char {
    if i + 1 >= |src| then '\0' else src[i + 1]
  }

  /** The number of line feeds in `s`. */
  function Newlines(s: string): nat {
    if s == [] then 0 else Newlines(s[..|s| - 1]) + if s[|s| - 1] == '\n' then 1 else 0
  }

  /** Where the run of characters satisfying `p` that starts at `i` ends. */
  function RunEnd(src: string, i: nat, p: char -> bool): (j: nat)
    requires i <= |src|
    ensures i <= j <= |src| && (forall k :: i <= k < j ==> p(src[k])) && (j < |src| ==> !p(src[j]))
    decreases |src| - i
  {
    if i < |src| && p(src[i]) then RunEnd(src, i + 1, p) else i
  }

  // Where the first star-slash at or after `i` begins, or the end of the source.
  function CommentEnd(src: string, i: nat): (j: nat)
    requires i <= |src|
    ensures i <= j <= |src|
    ensures forall k :: i <= k < j ==> !(src[k] == '*' && PeekNextAt(src, k) == '/')
    ensures j < |src| ==> src[j] == '*' && j + 1 < |src| && src[j + 1] == '/'
    decreases |src| - i
  {
    if i < |src| && !(src[i] == '*' && PeekNextAt(src, i) == '/') then CommentEnd(src, i + 1) else i
  }

  // ---------------------------------------------------------------------
  // One lexeme

  /** What scanning one lexeme does: where it ends, the line then, and the token or report it makes. */
  datatype Step = Step(current: nat, line: int, token: Option<Token>, error: Option<ScanError>)

  function AsSeq<T>(o: Option<T>): seq<T> {
    if o.Some? then [o.value] else []
  }

  function Emit(src: string, start: nat, current: nat, line: int, t: TokenType, literal: LiteralValue): Step
    requires start <= current <= |src|
  {
    Step(current, line, Some(Token(t, src[start..current], literal, line)), None)
  }

  /** A one-character token, or its two-character form when `second` follows. */
  function OneOrTwo(src: string, start: nat, line: int, second: char, two: TokenType, one: TokenType): Step
    requires start < |src|
  {
    if start + 1 < |src| && src[start + 1] == second then Emit(src, start, start + 2, line, two, NoValue)
    else Emit(src, start, start + 1, line, one, NoValue)
  }

  /** string(): from the opening quote at `start` to the closing one. */
  function StringStep(src: string, start: nat, line: int): Step
    requires start < |src|
  {
    var j := RunEnd(src, start + 1, NotQuote);
    var l := line + Newlines(src[start + 1..j]);
    if j >= |src| then Step(j, l, None, Some(ScanError(l, "Unterminated string.")))
    else Emit(src, start, j + 1, l, StringTok, StringValue(src[start + 1..j]))
  }

  /** multiLineComment(): from just after the opening slash-star to just after the closing star-slash. */
  function CommentStep(src: string, i: nat, line: int): Step
    requires i <= |src|
  {
    var j := CommentEnd(src, i);
    var l := line + Newlines(src[i..j]);
    if j >= |src| then Step(j, l, None, Some(ScanError(l, "Unterminated multi-line comment.")))
    else Step(j + 2, l, None, None)
  }

  /** The end of a number lexeme: digits, then a fraction only when a digit follows the dot. */
  function NumberEnd(src: string, start: nat): nat
    requires start < |src|
  {
    var j := RunEnd(src, start + 1, IsDigit);
    if PeekAt(src, j) == '.' && IsDigit(PeekNextAt(src, j)) then RunEnd(src, j + 1, IsDigit) else j
  }

  function NumberStep(src: string, start: nat, line: int): Step
    requires start < |src|
  {
    var k := NumberEnd(src, start);
    Emit(src, start, k, line, NumberTok, NumberValue(src[start..k]))
  }

  function IdentifierStep(src: string, start: nat, line: int): Step
    requires start < |src|
  {
    var j := RunEnd(src, start + 1, IsAlphaNumeric);
    var text := src[start..j];
    Emit(src, start, j, line, if KeywordType(text).Some? then KeywordType(text).value else Identifier, NoValue)
  }

  /** scanToken(): the lexeme that starts at `start`. */
  function ScanOne(src: string, start: nat, line: int): Step
    requires start < |src|
  {
    var c := src[start];
    var next := start + 1;
    match c
    case '(' => Emit(src, start, next, line, LeftParen, NoValue)
    case ')' => Emit(src, start, next, line, RightParen, NoValue)
    case '{' => Emit(src, start, next, line, LeftBrace, NoValue)
    case '}' => Emit(src, start, next, line, RightBrace, NoValue)
    case ',' => Emit(src, start, next, line, Comma, NoValue)
    case '.' => Emit(src, start, next, line, Dot, NoValue)
    case '-' => Emit(src, start, next, line, Minus, NoValue)
    case '+' => Emit(src, start, next, line, Plus, NoValue)
    case ';' => Emit(src, start, next, line, Semicolon, NoValue)
    case '*' => Emit(src, start, next, line, Star, NoValue)
    case '!' => OneOrTwo(src, start, line, '=', BangEqual, Bang)
    case '=' => OneOrTwo(src, start, line, '=', EqualEqual, Equal)
    case '<' => OneOrTwo(src, start, line, '=', LessEqual, Less)
    case '>' => OneOrTwo(src, start, line, '=', GreaterEqual, Greater)
    case '/' =>
      if next < |src| && src[next] == '/' then Step(RunEnd(src, next + 1, NotNewline), line, None, None)
      else if next < |src| && src[next] == '*' then CommentStep(src, next + 1, line)
      else Emit(src, start, next, line, Slash, NoValue)
    case ' ' => Step(next, line, None, None)
    case '\r' => Step(next, line, None, None)
    case '\t' => Step(next, line, None, None)
    case '\n' => Step(next, line + 1, None, None)
    case '"' => StringStep(src, start, line)
    case _ =>
      if IsDigit(c) then NumberStep(src, start, line)
      else if IsAlpha(c) then IdentifierStep(src, start, line)
      else Step(next, line, None, Some(ScanError(line, "Unexpected character.")))
  }

  // ---------------------------------------------------------------------
  // The whole source

  /** scanTokens() from position `pos` on line `line`: the tokens and the reports, in order. */
  function ScanFrom(src: string, pos: nat, line: int): (seq<Token>, seq<ScanError>)
    requires pos <= |src|
    decreases |src| - pos
  {
    if pos >= |src| then ([Token(Eof, "", NoValue, line)], [])
    else
      var s := ScanOne(src, pos, line);
      ScanOneSteps(src, pos, line);
      var rest := ScanFrom(src, s.current, s.line);
      (AsSeq(s.token) + rest.0, AsSeq(s.error) + rest.1)
  }

  /** scanTokens() on a fresh scanner: the tokens end with the one EOF token, on the last line. */
  function ScanAll(src: string): (r: (seq<Token>, seq<ScanError>))
    ensures EofOnlyLast(r.0, 1 + Newlines(src))
  {
    ScanFromShape(src, 0, 1);
    assert src[0..] == src;
    ScanFrom(src, 0, 1)
  }

  // ---------------------------------------------------------------------
  // Facts about one lexeme

  /** Output so far plus what scanning from `pos` makes, after one lexeme has been scanned. */
  lemma ScanFromAfter(src: string, pos: nat, line: int, s: Step, t0: seq<Token>, e0: seq<ScanError>, t1: seq<Token>, e1: seq<ScanError>)
    requires pos < |src| && s == ScanOne(src, pos, line)
    requires t1 == t0 + AsSeq(s.token) && e1 == e0 + AsSeq(s.error)
    ensures pos < s.current <= |src|
    ensures t1 + ScanFrom(src, s.current, s.line).0 == t0 + ScanFrom(src, pos, line).0
    ensures e1 + ScanFrom(src, s.current, s.line).1 == e0 + ScanFrom(src, pos, line).1
  {
    ScanFromUnfold(src, pos, line);
    var rest := ScanFrom(src, s.current, s.line);
    AppendAssoc(t0, AsSeq(s.token), rest.0);
    AppendAssoc(e0, AsSeq(s.error), rest.1);
  }

  lemma AppendAssoc<T>(a: seq<T>, b: seq<T>, c: seq<T>)
    ensures (a + b) + c == a + (b + c)
  {
  }

  /** Scanning from `pos` is scanning the lexeme there, then the rest. */
  lemma ScanFromUnfold(src: string, pos: nat, line: int)
    requires pos < |src|
    ensures pos < ScanOne(src, pos, line).current <= |src|
    ensures var s := ScanOne(src, pos, line);
      && ScanFrom(src, pos, line).0 == AsSeq(s.token) + ScanFrom(src, s.current, s.line).0
      && ScanFrom(src, pos, line).1 == AsSeq(s.error) + ScanFrom(src, s.current, s.line).1
  {
    ScanOneSteps(src, pos, line);
  }

  lemma {:induction false} NewlinesAppend(a: string, b: string)
    ensures Newlines(a + b) == Newlines(a) + Newlines(b)
    decreases |b|
  {
    if b == [] {
      assert a + b == a;
    } else {
      assert (a + b)[..|a + b| - 1] == a + b[..|b| - 1];
      NewlinesAppend(a, b[..|b| - 1]);
    }
  }

  /** The line feeds of src[i..k] are those of src[i..j] and of src[j..k]. */
  lemma NewlinesSplit(src: string, i: nat, j: nat, k: nat)
    requires i <= j <= k <= |src|
    ensures Newlines(src[i..k]) == Newlines(src[i..j]) + Newlines(src[j..k])
  {
    assert src[i..k] == src[i..j] + src[j..k];
    NewlinesAppend(src[i..j], src[j..k]);
  }

  /** Taking one more character counts it when it is a line feed. */
  lemma NewlinesStep(src: string, i: nat, j: nat)
    requires i <= j < |src|
    ensures Newlines(src[i..j + 1]) == Newlines(src[i..j]) + if src[j] == '\n' then 1 else 0
  {
    assert src[i..j + 1][..j - i] == src[i..j];
  }

  lemma NewlinesOne(c: char)
    ensures Newlines([c]) == if c == '\n' then 1 else 0
  {
    assert [c][..0] == [];
  }

  /** A stretch without line feeds has none to count. */
  lemma {:induction false} NewlinesNone(s: string)
    requires forall k :: 0 <= k < |s| ==> s[k] != '\n'
    ensures Newlines(s) == 0
  {
    if s != [] {
      NewlinesNone(s[..|s| - 1]);
    }
  }

  /** RunEnd is the only end of the run: all of src[i..j] satisfies p and src[j] does not. */
  lemma {:induction false} RunEndUnique(src: string, i: nat, j: nat, p: char -> bool)
    requires i <= j <= |src| && (forall k :: i <= k < j ==> p(src[k])) && (j < |src| ==> !p(src[j]))
    ensures RunEnd(src, i, p) == j
    decreases |src| - i
  {
    if i < j {
      RunEndUnique(src, i + 1, j, p);
    }
  }

  lemma {:induction false} CommentEndUnique(src: string, i: nat, j: nat)
    requires i <= j <= |src|
    requires forall k :: i <= k < j ==> !(src[k] == '*' && PeekNextAt(src, k) == '/')
    requires j < |src| ==> src[j] == '*' && PeekNextAt(src, j) == '/'
    ensures CommentEnd(src, i) == j
    decreases |src| - i
  {
    if i < j {
      CommentEndUnique(src, i + 1, j);
    }
  }

  /**
   * What every lexeme does: it consumes at least one character and stays
   * in the source; the line grows by the line feeds it consumed; a token's
   * lexeme is exactly the characters consumed, it carries the current
   * line, and it is never EOF; a lexeme makes a token or a report, never
   * both.
   */
  predicate WellStepped(src: string, start: nat, line: int, s: Step)
    requires start < |src|
  {
    && start < s.current <= |src|
    && s.line == line + Newlines(src[start..s.current])
    && (s.token.Some? ==> s.token.value.lexeme == src[start..s.current] && s.token.value.line == s.line
                          && s.token.value.tokenType != Eof)
    && !(s.token.Some? && s.error.Some?)
  }

  lemma OneOrTwoSteps(src: string, start: nat, line: int, second: char, two: TokenType, one: TokenType)
    requires start < |src| && src[start] != '\n' && second != '\n' && two != Eof && one != Eof
    ensures WellStepped(src, start, line, OneOrTwo(src, start, line, second, two, one))
  {
    if start + 1 < |src| && src[start + 1] == second {
      NewlinesNone(src[start..start + 2]);
    } else {
      NewlinesNone(src[start..start + 1]);
    }
  }

  lemma StringSteps(src: string, start: nat, line: int)
    requires start < |src| && src[start] == '"'
    ensures WellStepped(src, start, line, StringStep(src, start, line))
  {
    var j := RunEnd(src, start + 1, NotQuote);
    NewlinesSplit(src, start, start + 1, j);
    NewlinesNone(src[start..start + 1]);
    if j < |src| {
      NewlinesSplit(src, start, j, j + 1);
      NewlinesNone(src[j..j + 1]);
    }
  }

  lemma LineCommentSteps(src: string, start: nat, line: int)
    requires start + 1 < |src| && src[start] == '/' && src[start + 1] == '/'
    ensures WellStepped(src, start, line, Step(RunEnd(src, start + 2, NotNewline), line, None, None))
  {
    var j := RunEnd(src, start + 2, NotNewline);
    NewlinesNone(src[start..j]);
  }

  lemma BlockCommentSteps(src: string, start: nat, line: int)
    requires start + 1 < |src| && src[start] == '/' && src[start + 1] == '*'
    ensures WellStepped(src, start, line, CommentStep(src, start + 2, line))
  {
    var j := CommentEnd(src, start + 2);
    NewlinesSplit(src, start, start + 2, j);
    NewlinesNone(src[start..start + 2]);
    if j < |src| {
      NewlinesSplit(src, start, j, j + 2);
      NewlinesNone(src[j..j + 2]);
    }
  }

  lemma NumberSteps(src: string, start: nat, line: int)
    requires start < |src| && IsDigit(src[start])
    ensures WellStepped(src, start, line, NumberStep(src, start, line))
  {
    var k := NumberEnd(src, start);
    NewlinesNone(src[start..k]);
  }

  lemma IdentifierSteps(src: string, start: nat, line: int)
    requires start < |src| && IsAlpha(src[start])
    ensures WellStepped(src, start, line, IdentifierStep(src, start, line))
  {
    var j := RunEnd(src, start + 1, IsAlphaNumeric);
    NewlinesNone(src[start..j]);
    var text := src[start..j];
    if KeywordType(text).Some? {
      KeywordOnlyReserved(text);
    }
  }

  lemma SingleSteps(src: string, start: nat, line: int, s: Step)
    requires start < |src|
    requires s.current == start + 1 && s.line == line + Newlines([src[start]])
    requires s.token.Some? ==> s.token.value.lexeme == [src[start]] && s.token.value.line == s.line
                               && s.token.value.tokenType != Eof
    requires !(s.token.Some? && s.error.Some?)
    ensures WellStepped(src, start, line, s)
  {
    assert src[start..start + 1] == [src[start]];
  }

  lemma ScanOneSteps(src: string, start: nat, line: int)
    requires start < |src|
    ensures WellStepped(src, start, line, ScanOne(src, start, line))
  {
    var c := src[start];
    NewlinesOne(c);
    assert src[start..start + 1] == [c];
    if c in {'!', '=', '<', '>'} {
      OneOrTwoSteps(src, start, line, '=', BangEqual, Bang);
      OneOrTwoSteps(src, start, line, '=', EqualEqual, Equal);
      OneOrTwoSteps(src, start, line, '=', LessEqual, Less);
      OneOrTwoSteps(src, start, line, '=', GreaterEqual, Greater);
    } else if c == '/' && start + 1 < |src| && src[start + 1] == '/' {
      LineCommentSteps(src, start, line);
    } else if c == '/' && start + 1 < |src| && src[start + 1] == '*' {
      BlockCommentSteps(src, start, line);
    } else if c == '"' {
      StringSteps(src, start, line);
    } else if c !in {'(', ')', '{', '}', ',', '.', '-', '+', ';', '*', '/', ' ', '\r', '\t', '\n'} && IsDigit(c) {
      NumberSteps(src, start, line);
    } else if c !in {'(', ')', '{', '}', ',', '.', '-', '+', ';', '*', '/', ' ', '\r', '\t', '\n'} && IsAlpha(c) {
      IdentifierSteps(src, start, line);
    } else {
      SingleSteps(src, start, line, ScanOne(src, start, line));
    }
  }

  // ---------------------------------------------------------------------
  // What scanning promises

  /** The tokens end with an EOF token on `lastLine`, and no other token is EOF. */
  predicate EofOnlyLast(toks: seq<Token>, lastLine: int) {
    && |toks| >= 1
    && toks[|toks| - 1] == Token(Eof, "", NoValue, lastLine)
    && (forall i :: 0 <= i < |toks| - 1 ==> toks[i].tokenType != Eof)
  }

  /** The lines of the tokens start at `line` or later and never decrease. */
  predicate LinesOrdered(toks: seq<Token>, line: int) {
    && (forall i :: 0 <= i < |toks| ==> line <= toks[i].line)
    && (forall i, j :: 0 <= i < j < |toks| ==> toks[i].line <= toks[j].line)
  }

  lemma ShapeCons(t: Option<Token>, rest: seq<Token>, line: int, next: int, lastLine: int)
    requires EofOnlyLast(rest, lastLine) && LinesOrdered(rest, next) && line <= next
    requires t.Some? ==> t.value.tokenType != Eof && t.value.line == next
    ensures EofOnlyLast(AsSeq(t) + rest, lastLine) && LinesOrdered(AsSeq(t) + rest, line)
  {
    if t.Some? {
      assert AsSeq(t) == [t.value];
      TokenInFront(t.value, rest, line, lastLine);
    } else {
      assert AsSeq(t) + rest == rest;
    }
  }

  lemma TokenInFront(tok: Token, rest: seq<Token>, line: int, lastLine: int)
    requires EofOnlyLast(rest, lastLine) && LinesOrdered(rest, tok.line) && line <= tok.line && tok.tokenType != Eof
    ensures EofOnlyLast([tok] + rest, lastLine) && LinesOrdered([tok] + rest, line)
  {
    var toks := [tok] + rest;
    assert forall i :: 1 <= i < |toks| ==> toks[i] == rest[i - 1];
    forall i, j | 0 <= i < j < |toks|
      ensures toks[i].line <= toks[j].line
    {
      assert toks[j] == rest[j - 1];
      if i > 0 {
        assert toks[i] == rest[i - 1];
      }
    }
  }

  /**
   * The token list ends with exactly one EOF token, on the line after the
   * last line feed; the lines of the tokens never decrease.
   */
  lemma {:induction false} ScanFromShape(src: string, pos: nat, line: int)
    requires pos <= |src|
    ensures EofOnlyLast(ScanFrom(src, pos, line).0, line + Newlines(src[pos..]))
    ensures LinesOrdered(ScanFrom(src, pos, line).0, line)
    decreases |src| - pos
  {
    if pos < |src| {
      var s := ScanOne(src, pos, line);
      ScanFromUnfold(src, pos, line);
      ScanOneSteps(src, pos, line);
      ScanFromShape(src, s.current, s.line);
      ShapeStep(src, pos, line, s, ScanFrom(src, s.current, s.line).0, ScanFrom(src, pos, line).0);
    } else {
      assert src[pos..] == [];
    }
  }

  /** One scanning step in front of a well-shaped rest keeps the shape. */
  lemma ShapeStep(src: string, pos: nat, line: int, s: Step, rest: seq<Token>, all: seq<Token>)
    requires pos < |src| && WellStepped(src, pos, line, s)
    requires all == AsSeq(s.token) + rest
    requires EofOnlyLast(rest, s.line + Newlines(src[s.current..])) && LinesOrdered(rest, s.line)
    ensures EofOnlyLast(all, line + Newlines(src[pos..])) && LinesOrdered(all, line)
  {
    NewlinesSplit(src, pos, s.current, |src|);
    assert src[pos..] == src[pos..|src|] && src[s.current..] == src[s.current..|src|];
    ShapeCons(s.token, rest, line, s.line, line + Newlines(src[pos..]));
  }

  /** The whole source: the last token is EOF on line 1 plus the number of line feeds. */
  lemma ScanAllShape(src: string)
    ensures EofOnlyLast(ScanAll(src).0, 1 + Newlines(src)) && LinesOrdered(ScanAll(src).0, 1)
  {
    ScanFromShape(src, 0, 1);
    assert src[0..] == src;
  }

  /** Maximal munch: `!`, `=`, `<` and `>` make a two-character token exactly when `=` follows. */
  lemma TwoCharMunch(src: string, start: nat, line: int)
    requires start < |src| && src[start] in {'!', '=', '<', '>'}
    ensures var s := ScanOne(src, start, line);
      var two := start + 1 < |src| && src[start + 1] == '=';
      && s.error.None? && s.token.Some? && s.line == line
      && s.current == (if two then start + 2 else start + 1)
      && s.token.value.lexeme == src[start..s.current]
      && (s.token.value.tokenType in {BangEqual, EqualEqual, LessEqual, GreaterEqual} <==> two)
  {
  }

  /** Blanks, carriage returns and tabs make nothing; a line feed makes nothing but a new line. */
  lemma WhitespaceMakesNothing(src: string, start: nat, line: int)
    requires start < |src| && src[start] in {' ', '\r', '\t', '\n'}
    ensures ScanOne(src, start, line) == Step(start + 1, if src[start] == '\n' then line + 1 else line, None, None)
  {
  }

  /** A line comment makes nothing and runs up to, not including, the next line feed. */
  lemma LineCommentMakesNothing(src: string, start: nat, line: int)
    requires start + 1 < |src| && src[start] == '/' && src[start + 1] == '/'
    ensures var s := ScanOne(src, start, line);
      && s.token.None? && s.error.None? && s.line == line
      && (forall k :: start <= k < s.current ==> src[k] != '\n')
      && (s.current == |src| || src[s.current] == '\n')
  {
  }

  /** A string literal is the text between its quote and the next quote; its line is the closing quote's. */
  lemma StringLiteral(src: string, start: nat, line: int, j: nat)
    requires start < j < |src| && src[start] == '"' && src[j] == '"'
    requires forall k :: start < k < j ==> src[k] != '"'
    ensures var l := line + Newlines(src[start..j + 1]);
      ScanOne(src, start, line) == Step(j + 1, l, Some(Token(StringTok, src[start..j + 1], StringValue(src[start + 1..j]), l)), None)
  {
    ScanOneString(src, start, line);
    RunEndUnique(src, start + 1, j, NotQuote);
    StringSteps(src, start, line);
  }

  lemma ScanOneNumber(src: string, start: nat, line: int)
    requires start < |src| && IsDigit(src[start])
    ensures ScanOne(src, start, line) == NumberStep(src, start, line)
  {
  }

  lemma ScanOneIdentifier(src: string, start: nat, line: int)
    requires start < |src| && IsAlpha(src[start])
    ensures ScanOne(src, start, line) == IdentifierStep(src, start, line)
  {
  }

  lemma ScanOneString(src: string, start: nat, line: int)
    requires start < |src| && src[start] == '"'
    ensures ScanOne(src, start, line) == StringStep(src, start, line)
  {
  }

  /** A quote with no closing quote is reported on the last line, and makes no token. */
  lemma UnterminatedString(src: string, start: nat, line: int)
    requires start < |src| && src[start] == '"'
    requires forall k :: start < k < |src| ==> src[k] != '"'
    ensures var l := line + Newlines(src[start..]);
      ScanOne(src, start, line) == Step(|src|, l, None, Some(ScanError(l, "Unterminated string.")))
  {
    RunEndUnique(src, start + 1, |src|, NotQuote);
    StringSteps(src, start, line);
    assert src[start..] == src[start..|src|];
  }

  /** A block comment ends just after the first star-slash after its opening; it makes nothing. */
  lemma BlockComment(src: string, start: nat, line: int, j: nat)
    requires start + 2 <= j && j + 1 < |src| && src[start] == '/' && src[start + 1] == '*'
    requires src[j] == '*' && src[j + 1] == '/'
    requires forall k :: start + 2 <= k < j ==> !(src[k] == '*' && src[k + 1] == '/')
    ensures ScanOne(src, start, line) == Step(j + 2, line + Newlines(src[start..j + 2]), None, None)
  {
    CommentEndUnique(src, start + 2, j);
    BlockCommentSteps(src, start, line);
  }

  /** A block comment that is never closed is reported on the last line. */
  lemma UnterminatedComment(src: string, start: nat, line: int)
    requires start + 1 < |src| && src[start] == '/' && src[start + 1] == '*'
    requires forall k :: start + 2 <= k < |src| - 1 ==> !(src[k] == '*' && src[k + 1] == '/')
    ensures var l := line + Newlines(src[start..]);
      ScanOne(src, start, line) == Step(|src|, l, None, Some(ScanError(l, "Unterminated multi-line comment.")))
  {
    CommentEndUnique(src, start + 2, |src|);
    BlockCommentSteps(src, start, line);
    assert src[start..] == src[start..|src|];
  }

  predicate AllDigits(s: string) {
    |s| > 0 && forall k :: 0 <= k < |s| ==> IsDigit(s[k])
  }

  /** The shape of a number literal: digits, optionally a dot and more digits. */
  predicate NumberText(s: string) {
    AllDigits(s) || exists d :: 0 <= d < |s| && s[d] == '.' && AllDigits(s[..d]) && AllDigits(s[d + 1..])
  }

  /**
   * A number is the longest number-shaped text there: no digit follows it,
   * and a dot follows a whole number only when no digit comes after the dot.
   */
  lemma NumberLiteral(src: string, start: nat, line: int)
    requires start < |src| && IsDigit(src[start])
    ensures var s := ScanOne(src, start, line);
      && s.error.None? && s.token.Some? && s.line == line
      && var lexeme := src[start..s.current];
      && s.token.value.tokenType == NumberTok && s.token.value.lexeme == lexeme
      && s.token.value.literal == NumberValue(lexeme)
      && NumberText(lexeme)
      && (s.current < |src| ==> !IsDigit(src[s.current]))
      && (AllDigits(lexeme) ==> !(PeekAt(src, s.current) == '.' && IsDigit(PeekNextAt(src, s.current))))
  {
    ScanOneNumber(src, start, line);
    NumberEndShape(src, start);
  }

  lemma NumberEndShape(src: string, start: nat)
    requires start < |src| && IsDigit(src[start])
    ensures var k := NumberEnd(src, start);
      && start < k <= |src|
      && NumberText(src[start..k])
      && (k < |src| ==> !IsDigit(src[k]))
      && (AllDigits(src[start..k]) ==> !(PeekAt(src, k) == '.' && IsDigit(PeekNextAt(src, k))))
  {
    var j := RunEnd(src, start + 1, IsDigit);
    var k := NumberEnd(src, start);
    assert AllDigits(src[start..j]);
    if k != j {
      var lexeme := src[start..k];
      var d := j - start;
      assert lexeme[d] == '.';
      assert lexeme[..d] == src[start..j];
      assert lexeme[d + 1..] == src[j + 1..k];
      assert AllDigits(lexeme[d + 1..]);
      assert !AllDigits(lexeme);
    }
  }

  /**
   * An identifier is the longest run of letters, digits and underscores
   * from a letter or underscore; a reserved word gets its keyword type and
   * any other word is an identifier.
   */
  lemma IdentifierOrKeyword(src: string, start: nat, line: int)
    requires start < |src| && IsAlpha(src[start])
    ensures var s := ScanOne(src, start, line);
      && s.error.None? && s.token.Some? && s.line == line
      && var lexeme := src[start..s.current];
      && s.token.value.lexeme == lexeme
      && (forall k :: start <= k < s.current ==> IsAlphaNumeric(src[k]))
      && (s.current < |src| ==> !IsAlphaNumeric(src[s.current]))
      && (KeywordType(lexeme).None? ==> s.token.value.tokenType == Identifier)
      && (KeywordType(lexeme).Some? ==>
            s.token.value.tokenType == KeywordType(lexeme).value && lexeme == KeywordText(s.token.value.tokenType))
  {
    ScanOneIdentifier(src, start, line);
    var j := RunEnd(src, start + 1, IsAlphaNumeric);
    if KeywordType(src[start..j]).Some? {
      KeywordOnlyReserved(src[start..j]);
    }
  }

  /** Any other character is reported as unexpected and skipped. */
  lemma UnexpectedCharacter(src: string, start: nat, line: int)
    requires start < |src| && !IsDigit(src[start]) && !IsAlpha(src[start])
    requires src[start] !in {'(', ')', '{', '}', ',', '.', '-', '+', ';', '*', '!', '=', '<', '>', '/', ' ', '\r', '\t', '\n', '"'}
    ensures ScanOne(src, start, line) == Step(start + 1, line, None, Some(ScanError(line, "Unexpected character.")))
  {
  }

  function Types(toks: seq<Token>): seq<TokenType> {
    if toks == [] then [] else [toks[0].tokenType] + Types(toks[1..])
  }

  /** "1234." is a number followed by a dot: a fraction needs a digit after the dot. */
  lemma TrailingDotIsSeparate()
    ensures Types(ScanAll("1234.").0) == [NumberTok, Dot, Eof]
  {
    NumberThenDot("1234.", 4);
  }

  /** ".1234" is a dot followed by a number: a number starts with a digit. */
  lemma LeadingDotIsSeparate()
    ensures Types(ScanAll(".1234").0) == [Dot, NumberTok, Eof]
  {
    DotThenNumber(".1234");
  }

  /** Digits and then a final dot scan as a number, a dot and EOF. */
  lemma NumberThenDot(src: string, n: nat)
    requires 0 < n && |src| == n + 1 && src[n] == '.' && forall k :: 0 <= k < n ==> IsDigit(src[k])
    ensures Types(ScanFrom(src, 0, 1).0) == [NumberTok, Dot, Eof]
  {
    RunEndUnique(src, 1, n, IsDigit);
    assert NumberEnd(src, 0) == n;
    ScanOneNumber(src, 0, 1);
    DotStep(src, n, 1);
    ThreeTokens(src, 0, 1, ScanOne(src, 0, 1), ScanOne(src, n, 1));
  }

  /** A dot and then digits scan as a dot, a number and EOF. */
  lemma DotThenNumber(src: string)
    requires |src| > 1 && src[0] == '.' && forall k :: 1 <= k < |src| ==> IsDigit(src[k])
    ensures Types(ScanFrom(src, 0, 1).0) == [Dot, NumberTok, Eof]
  {
    DotStep(src, 0, 1);
    RunEndUnique(src, 2, |src|, IsDigit);
    assert NumberEnd(src, 1) == |src|;
    ScanOneNumber(src, 1, 1);
    ThreeTokens(src, 0, 1, ScanOne(src, 0, 1), ScanOne(src, 1, 1));
  }

  /** A dot is a one-character Dot token. */
  lemma DotStep(src: string, i: nat, line: int)
    requires i < |src| && src[i] == '.'
    ensures var s := ScanOne(src, i, line);
      s.current == i + 1 && s.line == line && s.token.Some? && s.token.value.tokenType == Dot
  {
  }

  /** Two lexemes that each make a token and reach the end of the source: three tokens, the last EOF. */
  lemma ThreeTokens(src: string, pos: nat, line: int, a: Step, b: Step)
    requires pos < |src| && a == ScanOne(src, pos, line) && a.current < |src|
    requires b == ScanOne(src, a.current, a.line) && b.current == |src|
    requires a.token.Some? && b.token.Some?
    ensures Types(ScanFrom(src, pos, line).0) == [a.token.value.tokenType, b.token.value.tokenType, Eof]
  {
    ScanFromUnfold(src, pos, line);
    ScanFromUnfold(src, a.current, a.line);
    var eof := Token(Eof, "", NoValue, b.line);
    assert ScanFrom(src, b.current, b.line).0 == [eof];
    assert ScanFrom(src, pos, line).0 == [a.token.value, b.token.value, eof];
    assert Types([eof]) == [Eof];
    assert Types([b.token.value, eof]) == [b.token.value.tokenType, Eof] by {
      assert [b.token.value, eof][1..] == [eof];
    }
    assert [a.token.value, b.token.value, eof][1..] == [b.token.value, eof];
  }

  /** An unclosed string is one report on line 1, and only EOF is left. */
  lemma UnclosedStringReported()
    ensures ScanAll("\"abc").1 == [ScanError(1, "Unterminated string.")]
    ensures Types(ScanAll("\"abc").0) == [Eof]
  {
    var src := "\"abc";
    UnterminatedString(src, 0, 1);
    NewlinesNone(src);
  }

  // ---------------------------------------------------------------------
  // The scanner object

  /**
   * Scanner.java's state: the source, the tokens made so far, the start
   * of the lexeme being scanned, the position and the line. `errors` is
   * the log of the reports made to Lox.error.
   */
  class Scanner {
    const source: string
    var tokens: seq<Token>
    var start: nat
    var current: nat
    var line: int
    var errors: seq<ScanError>

    constructor (source: string)
      ensures this.source == source && tokens == [] && start == 0 && current == 0 && line == 1 && errors == []
    {
      this.source := source;
      tokens := [];
      start := 0;
      current := 0;
      line := 1;
      errors := [];
    }

    /** isAtEnd(): every character of the source has been consumed. */
    predicate IsAtEnd()
      reads this
      ensures current <= |source| ==> (IsAtEnd() <==> source[current..] == [])
    {
      current >= |source|
    }

    /** peek(): the next character without consuming it, NUL at the end. */
    function Peek(): (c: char)
      reads this
      ensures IsAtEnd() ==> c == '\0'
      ensures !IsAtEnd() ==> c == source[current]
    {
      PeekAt(source, current)
    }

    /** peekNext(): the character after the next one, NUL when there is none. */
    function PeekNext(): (c: char)
      reads this
      ensures current + 1 >= |source| ==> c == '\0'
      ensures current + 1 < |source| ==> c == source[current + 1]
    {
      PeekNextAt(source, current)
    }

    /** advance(): consume and return the next character. */
    method Advance() returns (c: char)
      requires current < |source|
      modifies this
      ensures c == source[old(current)] && current == old(current) + 1
      ensures tokens == old(tokens) && start == old(start) && line == old(line) && errors == old(errors)
    {
      c := source[current];
      current := current + 1;
    }

    /** match(): consume the next character only when it is `expected`. */
    method Match(expected: char) returns (matched: bool)
      modifies this
      ensures matched <==> old(current) < |source| && source[old(current)] == expected
      ensures current == if matched then old(current) + 1 else old(current)
      ensures tokens == old(tokens) && start == old(start) && line == old(line) && errors == old(errors)
    {
      if IsAtEnd() {
        return false;
      }
      if source[current] != expected {
        return false;
      }
      current := current + 1;
      return true;
    }

    /** addToken(): a token for the lexeme from `start` to `current` on the current line. */
    method AddToken(t: TokenType, literal: LiteralValue)
      requires start <= current <= |source|
      modifies this
      ensures tokens == old(tokens) + [Token(t, source[old(start)..old(current)], literal, old(line))]
      ensures start == old(start) && current == old(current) && line == old(line) && errors == old(errors)
    {
      var text := source[start..current];
      tokens := tokens + [Token(t, text, literal, line)];
    }

    /** Lox.error(line, message). */
    method Report(message: string)
      modifies this
      ensures errors == old(errors) + [ScanError(old(line), message)]
      ensures tokens == old(tokens) && start == old(start) && current == old(current) && line == old(line)
    {
      errors := errors + [ScanError(line, message)];
    }

    /** This scanner after taking the step `s` of the lexeme that began on line `line0`. */
    predicate Took(s: Step, start0: nat, tokens0: seq<Token>, errors0: seq<ScanError>)
      reads this
    {
      && current == s.current && line == s.line && start == start0
      && tokens == tokens0 + AsSeq(s.token) && errors == errors0 + AsSeq(s.error)
    }

    /** The loop of string(): consume up to the closing quote or the end, counting lines. */
    method StringBody()
      requires current <= |source|
      modifies this
      ensures current == RunEnd(source, old(current), NotQuote)
      ensures line == old(line) + Newlines(source[old(current)..current])
      ensures start == old(start) && tokens == old(tokens) && errors == old(errors)
    {
      ghost var from := current;
      while Peek() != '"' && !IsAtEnd()
        invariant from <= current <= |source|
        invariant forall k :: from <= k < current ==> source[k] != '"'
        invariant line == old(line) + Newlines(source[from..current])
        invariant start == old(start) && tokens == old(tokens) && errors == old(errors)
        decreases |source| - current
      {
        NewlinesStep(source, from, current);
        if Peek() == '\n' {
          line := line + 1;
        }
        var _ := Advance();
      }
      RunEndUnique(source, from, current, NotQuote);
    }

    /** string(): the rest of a string literal whose opening quote is at `start`. */
    method ScanString()
      requires start < |source| && source[start] == '"' && current == start + 1
      modifies this
      ensures Took(StringStep(source, old(start), old(line)), old(start), old(tokens), old(errors))
    {
      StringBody();
      if IsAtEnd() {
        Report("Unterminated string.");
        return;
      }
      var _ := Advance();
      var value := source[start + 1..current - 1];
      AddToken(StringTok, StringValue(value));
    }

    /** multiLineComment(): the rest of a comment whose opening slash-star ends at `current`. */
    method MultiLineComment()
      requires current <= |source|
      modifies this
      ensures Took(CommentStep(source, old(current), old(line)), old(start), old(tokens), old(errors))
    {
      ghost var from := current;
      while (Peek() != '*' || (Peek() == '*' && PeekNext() != '/')) && !IsAtEnd()
        invariant from <= current <= |source|
        invariant forall k :: from <= k < current ==> !(source[k] == '*' && PeekNextAt(source, k) == '/')
        invariant line == old(line) + Newlines(source[from..current])
        invariant start == old(start) && tokens == old(tokens) && errors == old(errors)
        decreases |source| - current
      {
        NewlinesStep(source, from, current);
        if Peek() == '\n' {
          line := line + 1;
        }
        var _ := Advance();
      }
      CommentEndUnique(source, from, current);
      if IsAtEnd() {
        Report("Unterminated multi-line comment.");
        return;
      }
      if Peek() == '*' && PeekNext() == '/' {
        var _ := Advance();
        var _ := Advance();
      }
    }

    /** Consume the run of digits at `current`. */
    method Digits()
      requires current <= |source|
      modifies this
      ensures current == RunEnd(source, old(current), IsDigit)
      ensures tokens == old(tokens) && start == old(start) && line == old(line) && errors == old(errors)
    {
      ghost var from := current;
      while IsDigit(Peek())
        invariant from <= current <= |source|
        invariant forall k :: from <= k < current ==> IsDigit(source[k])
        invariant tokens == old(tokens) && start == old(start) && line == old(line) && errors == old(errors)
        decreases |source| - current
      {
        var _ := Advance();
      }
      RunEndUnique(source, from, current, IsDigit);
    }

    /** number(): the rest of a number literal whose first digit is at `start`. */
    method ScanNumber()
      requires start < |source| && IsDigit(source[start]) && current == start + 1
      modifies this
      ensures Took(NumberStep(source, old(start), old(line)), old(start), old(tokens), old(errors))
    {
      Digits();
      if Peek() == '.' && IsDigit(PeekNext()) {
        var _ := Advance();
        Digits();
      }
      AddToken(NumberTok, NumberValue(source[start..current]));
    }

    /** identifier(): the rest of an identifier or reserved word whose first letter is at `start`. */
    method ScanIdentifier()
      requires start < |source| && IsAlpha(source[start]) && current == start + 1
      modifies this
      ensures Took(IdentifierStep(source, old(start), old(line)), old(start), old(tokens), old(errors))
    {
      ghost var from := current;
      while IsAlphaNumeric(Peek())
        invariant from <= current <= |source|
        invariant forall k :: from <= k < current ==> IsAlphaNumeric(source[k])
        invariant tokens == old(tokens) && start == old(start) && line == old(line) && errors == old(errors)
        decreases |source| - current
      {
        var _ := Advance();
      }
      RunEndUnique(source, from, current, IsAlphaNumeric);
      var text := source[start..current];
      var t := KeywordType(text);
      var tokenType := if t.Some? then t.value else Identifier;
      AddToken(tokenType, NoValue);
    }

    /** The line comment that runs from `start` to the end of the line. */
    method LineComment()
      requires current <= |source|
      modifies this
      ensures current == RunEnd(source, old(current), NotNewline)
      ensures tokens == old(tokens) && start == old(start) && line == old(line) && errors == old(errors)
    {
      ghost var from := current;
      while Peek() != '\n' && !IsAtEnd()
        invariant from <= current <= |source|
        invariant forall k :: from <= k < current ==> source[k] != '\n'
        invariant tokens == old(tokens) && start == old(start) && line == old(line) && errors == old(errors)
        decreases |source| - current
      {
        var _ := Advance();
      }
      RunEndUnique(source, from, current, NotNewline);
    }

    /** A one-character token, or the two-character one when `=` follows. */
    method OneOrEqual(two: TokenType, one: TokenType)
      requires start < |source| && current == start + 1
      modifies this
      ensures Took(OneOrTwo(source, old(start), old(line), '=', two, one), old(start), old(tokens), old(errors))
    {
      var matched := Match('=');
      AddToken(if matched then two else one, NoValue);
    }

    /** scanToken(): scan the lexeme that starts at `current`. */
    method ScanToken()
      requires start == current < |source|
      modifies this
      ensures Took(ScanOne(source, old(current), old(line)), old(start), old(tokens), old(errors))
    {
      var c := Advance();
      match c
      case '(' => AddToken(LeftParen, NoValue);
      case ')' => AddToken(RightParen, NoValue);
      case '{' => AddToken(LeftBrace, NoValue);
      case '}' => AddToken(RightBrace, NoValue);
      case ',' => AddToken(Comma, NoValue);
      case '.' => AddToken(Dot, NoValue);
      case '-' => AddToken(Minus, NoValue);
      case '+' => AddToken(Plus, NoValue);
      case ';' => AddToken(Semicolon, NoValue);
      case '*' => AddToken(Star, NoValue);
      case '!' => OneOrEqual(BangEqual, Bang);
      case '=' => OneOrEqual(EqualEqual, Equal);
      case '<' => OneOrEqual(LessEqual, Less);
      case '>' => OneOrEqual(GreaterEqual, Greater);
      case '/' =>
        var slash := Match('/');
        if slash {
          LineComment();
        } else {
          var star := Match('*');
          if star {
            MultiLineComment();
          } else {
            AddToken(Slash, NoValue);
          }
        }
      case ' ' =>
      case '\r' =>
      case '\t' =>
      case '\n' => line := line + 1;
      case '"' => ScanString();
      case _ =>
        if IsDigit(c) {
          ScanNumber();
        } else if IsAlpha(c) {
          ScanIdentifier();
        } else {
          Report("Unexpected character.");
        }
    }

    /** One turn of scanTokens()'s loop: what is left to scan shrinks by one lexeme. */
    method ScanNext()
      requires start == current < |source|
      modifies this
      ensures old(current) < current <= |source|
      ensures var rest := ScanFrom(source, old(current), old(line));
        tokens + ScanFrom(source, current, line).0 == old(tokens) + rest.0
        && errors + ScanFrom(source, current, line).1 == old(errors) + rest.1
    {
      ghost var s := ScanOne(source, current, line);
      ghost var pos, line0, tokens0, errors0 := current, line, tokens, errors;
      ScanToken();
      ScanFromAfter(source, pos, line0, s, tokens0, errors0, tokens, errors);
    }

    /** scanTokens(): scan from `current` to the end and append EOF; the token list is the result. */
    method ScanTokens() returns (result: seq<Token>)
      requires current <= |source|
      modifies this
      ensures result == tokens == old(tokens) + ScanFrom(source, old(current), old(line)).0
      ensures errors == old(errors) + ScanFrom(source, old(current), old(line)).1
    {
      ghost var goal := ScanFrom(source, current, line);
      ghost var tokens0, errors0 := tokens, errors;
      while !IsAtEnd()
        invariant current <= |source|
        invariant tokens0 + goal.0 == tokens + ScanFrom(source, current, line).0
        invariant errors0 + goal.1 == errors + ScanFrom(source, current, line).1
        decreases |source| - current
      {
        start := current;
        ScanNext();
      }
      tokens := tokens + [Token(Eof, "", NoValue, line)];
      result := tokens;
    }
  }
}