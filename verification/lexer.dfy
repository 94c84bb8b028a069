/**
 * The lexer (src/lexer/mod.rs): a left-to-right character scanner with one
 * character of lookahead that turns source text into tokens with spans.
 *
 * It never reports an error: input it does not understand becomes an
 * `Illegal` token. Two branches of the program never consume the character
 * they look at (`_` inside a number, `\` inside a string), so the program
 * loops forever on them; the model reports those as `Stuck` / `Diverges`.
 */
module Lexing {
  import opened Common
  import opened Numbers
  import opened Tokens

  /** The scanner: the characters not yet consumed, and the span being built. */
  datatype Lexer = Lexer(input: string, loc: Location)

  /** A scanning routine's result and the scanner after it, or `Stuck` when it would spin forever. */
  datatype Scan<+T> = Scanned(value: T, rest: Lexer) | Stuck

  /** The complete token stream, or `Diverges` when the lexer never returns. */
  datatype Lexed = Lexed(tokens: seq<Token>) | Diverges

  /** `Lexer::new`: the whole input ahead, the span opened at line 0, column 0. */
  function NewLexer(input: string): Lexer {
    Lexer(input, NewLocation(0, 0))
  }

  /** `next`: consume one character and widen the span by one column. */
  function Advance(lx: Lexer): Lexer
    requires |lx.input| > 0
  {
    Lexer(lx.input[1..], lx.loc.(colStop := lx.loc.colStop + 1))
  }

  /** A bare `input.next()`: consume one character and leave the span as it is. */
  function Drop(lx: Lexer): Lexer
    requires |lx.input| > 0
  {
    lx.(input := lx.input[1..])
  }

  /** `loc`: hand out the current span and open the next one where it ended. */
  function Mark(lx: Lexer): (Location, Lexer) {
    (lx.loc, lx.(loc := lx.loc.(lineStop := lx.loc.lineStart, colStart := lx.loc.colStop)))
  }

  /** A token with value `v` covering the current span. */
  function Emit(lx: Lexer, v: TokenValue): (Token, Lexer) {
    var (l, r) := Mark(lx);
    (Token(v, l), r)
  }

  predicate IsIdentChar(c: char) {
    'a' <= c <= 'z' || 'A' <= c <= 'Z' || c == '_'
  }

  /** The characters that are a token on their own. */
  function Punctuation(c: char): Option<TokenValue> {
    if c == ';' then Some(Semicolon)
    else if c == '(' then Some(LeftParen)
    else if c == ')' then Some(RightParen)
    else if c == '[' then Some(LeftBracket)
    else if c == ']' then Some(RightBracket)
    else if c == '{' then Some(BlockStart)
    else if c == '}' then Some(BlockEnd)
    else if c == '+' then Some(Plus)
    else if c == '-' then Some(Minus)
    else if c == '*' then Some(Asterisk)
    else if c == '/' then Some(Slash)
    else if c == '!' then Some(Bang)
    else None
  }

  /** The token a completed identifier run becomes: a keyword or an `Ident`. */
  function Keyword(word: string): TokenValue {
    if word == "if" then If
    else if word == "elif" then Elif
    else if word == "else" then Else
    else if word == "true" then True
    else if word == "false" then False
    else Ident(word)
  }

  // ---------------------------------------------------------------------------
  // Numbers (`lex_int_or_float`)

  function Dots(t: string): nat {
    if |t| == 0 then 0 else Dots(t[..|t| - 1]) + (if t[|t| - 1] == '.' then 1 else 0)
  }

  /**
   * Number text: starts with a digit, otherwise digits and dots, with one dot
   * for a float and none for an integer.
   */
  predicate NumberText(t: string, isFloat: bool) {
    && |t| > 0
    && IsDigit(t[0])
    && (forall i :: 0 <= i < |t| ==> IsDigit(t[i]) || t[i] == '.')
    && Dots(t) == (if isFloat then 1 else 0)
  }

  /** What a number scan can produce: an integer, a float, or the complaint about a second dot. */
  predicate IsNumberToken(v: TokenValue) {
    match v
    case Integer(t) => NumberText(t, false)
    case Float(t) => NumberText(t, true)
    case _ => v == Illegal("unexpected: .")
  }

  lemma NumberTextGrows(t: string, isFloat: bool, c: char)
    requires NumberText(t, isFloat) || (t == [] && IsDigit(c) && !isFloat)
    requires IsDigit(c) || (c == '.' && !isFloat)
    ensures NumberText(t + [c], isFloat || c == '.')
  {
    assert (t + [c])[..|t|] == t;
  }

  /**
   * Accumulates a number. A second `.` is consumed and reported as illegal;
   * a `_` is looked at but never consumed, so the program spins there.
   */
  function ScanNumber(lx: Lexer, text: string, isFloat: bool): (r: Scan<Token>)
    requires text == [] ==> !isFloat && |lx.input| > 0 && IsDigit(lx.input[0])
    requires text != [] ==> NumberText(text, isFloat)
    ensures r.Scanned? ==> |r.rest.input| <= |lx.input|
    ensures r.Scanned? && text == [] ==> |r.rest.input| < |lx.input|
    decreases |lx.input|
  {
    if |lx.input| == 0 || !(IsDigit(lx.input[0]) || lx.input[0] == '_' || lx.input[0] == '.') then
      var (t, r) := Emit(lx, if isFloat then Float(text) else Integer(text));
      Scanned(t, r)
    else
      var c := lx.input[0];
      if IsDigit(c) then
        NumberTextGrows(text, isFloat, c);
        ScanNumber(Advance(lx), text + [c], isFloat)
      else if c == '_' then
        Stuck
      else if isFloat then
        var (t, r) := Emit(Advance(lx), Illegal("unexpected: ."));
        Scanned(t, r)
      else
        NumberTextGrows(text, isFloat, c);
        ScanNumber(Advance(lx), text + ['.'], true)
  }

  // ---------------------------------------------------------------------------
  // Strings (`lex_string`), entered just after the opening quote

  /**
   * Copies characters up to the closing quote. A backslash toggles the
   * program's `escaped` flag without consuming anything, so it spins; the
   * flag therefore never affects a result and is not part of the model.
   */
  function ScanString(lx: Lexer, text: string): (r: Scan<Token>)
    ensures r.Scanned? ==> |r.rest.input| <= |lx.input|
    decreases |lx.input|
  {
    if |lx.input| == 0 then
      var (t, r) := Emit(lx, Illegal("unterminated quote string"));
      Scanned(t, r)
    else
      var c := lx.input[0];
      if c == '\\' then Stuck
      else if c == '"' then
        var (t, r) := Emit(Advance(lx), String(text));
        Scanned(t, r)
      else
        ScanString(Advance(lx), text + [c])
  }

  // ---------------------------------------------------------------------------
  // Identifiers and keywords (`lex_ident`)

  function ScanIdent(lx: Lexer, word: string): (r: Scan<Token>)
    ensures r.Scanned? && |r.rest.input| <= |lx.input|
    ensures |lx.input| > 0 && IsIdentChar(lx.input[0]) ==> |r.rest.input| < |lx.input|
    decreases |lx.input|
  {
    if |lx.input| > 0 && IsIdentChar(lx.input[0]) then
      ScanIdent(Advance(lx), word + [lx.input[0]])
    else
      var (t, r) := Emit(lx, Keyword(word));
      Scanned(t, r)
  }

  // ---------------------------------------------------------------------------
  // Comments, entered just after the `#`

  /**
   * Consumes through the next newline without producing a token (so no
   * `Newline` either). At end of input it pushes an `EOF`.
   */
  function SkipComment(lx: Lexer): (r: Scan<seq<Token>>)
    ensures r.Scanned? && |r.rest.input| <= |lx.input|
    decreases |lx.input|
  {
    if |lx.input| == 0 then
      var (t, r) := Emit(lx, EOF);
      Scanned([t], r)
    else if lx.input[0] == '\n' then
      Scanned([], Drop(lx))
    else
      SkipComment(Drop(lx))
  }

  // ---------------------------------------------------------------------------
  // The main loop (`lex`)

  /** `=`, `&` and `|`: the doubled character is one token, a single one another. */
  function Pair(lx: Lexer, second: char, both: TokenValue, alone: TokenValue): (r: Scan<seq<Token>>)
    ensures r.Scanned? && |r.rest.input| <= |lx.input|
  {
    if |lx.input| > 0 && lx.input[0] == second then
      var (t, r) := Emit(lx, both);
      Scanned([t], Advance(r))
    else
      var (t, r) := Emit(lx, alone);
      Scanned([t], r)
  }

  function One(s: Scan<Token>): (r: Scan<seq<Token>>)
    ensures r.Stuck? == s.Stuck?
    ensures r.Scanned? ==> r.value == [s.value] && r.rest == s.rest
  {
    match s
    case Scanned(t, rest) => Scanned([t], rest)
    case Stuck => Stuck
  }

  /** One round of the main loop, on a nonempty input. */
  function Step(lx: Lexer): (r: Scan<seq<Token>>)
    requires |lx.input| > 0
    ensures r.Scanned? ==> |r.rest.input| < |lx.input|
  {
    var c := lx.input[0];
    if c == ' ' || c == '\t' then
      var r := Advance(lx);
      Scanned([], r.(loc := r.loc.(colStart := r.loc.colStop)))
    else if c == '\r' then
      Scanned([], Drop(lx))
    else if c == '\n' then
      var (t, r) := Emit(lx, Newline);
      var r' := Advance(r);
      Scanned([t], r'.(loc := r'.loc.(lineStart := r'.loc.lineStart + 1, colStop := 0)))
    else if c == '#' then
      SkipComment(Drop(lx))
    else if c == '=' then
      Pair(Advance(lx), '=', Equal, Assign)
    else if c == '&' then
      Pair(Advance(lx), '&', And, Illegal("unexpected: &"))
    else if c == '|' then
      Pair(Advance(lx), '|', Or, Illegal("unexpected: |"))
    else if IsDigit(c) then
      One(ScanNumber(lx, "", false))
    else if c == '"' then
      One(ScanString(Advance(lx), ""))
    else if IsIdentChar(c) then
      One(ScanIdent(lx, ""))
    else
      var v := match Punctuation(c)
        case Some(p) => p
        case None => Illegal("unexpected: " + [c]);
      var (t, r) := Emit(lx, v);
      Scanned([t], Advance(r))
  }

  /** The main loop: tokens so far in `acc`; ends by pushing `EOF` once the input is used up. */
  function LexFrom(lx: Lexer, acc: seq<Token>): (r: Lexed)
    ensures r.Lexed? ==> |r.tokens| > |acc| && Last(r.tokens).value == EOF
    decreases |lx.input|
  {
    if |lx.input| == 0 then
      var (t, _) := Emit(lx, EOF);
      Lexed(acc + [t])
    else
      match Step(lx)
      case Stuck => Diverges
      case Scanned(out, rest) =>
        LexFrom(rest, acc + out)
  }

  /** `Lexer::new(input).lex()`. When it returns, the token stream ends with `EOF`. */
  function Lex(input: string): (r: Lexed)
    ensures r.Lexed? ==> |r.tokens| > 0 && Last(r.tokens).value == EOF
  {
    LexFrom(NewLexer(input), [])
  }
}
