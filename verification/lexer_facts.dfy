/**
 * What the lexer produces, stated over token values. Spans are threaded
 * through the scan but never influence which tokens come out, so each fact
 * is stated with `LexValues`, the token values of a whole input, and most
 * of them as one step: what the first few characters turn into, followed by
 * whatever the rest of the input turns into.
 */
module LexerFacts {
  import opened Common
  import opened Numbers
  import opened Tokens
  import opened Lexing

  function Values(toks: seq<Token>): (vs: seq<TokenValue>)
    ensures |vs| == |toks|
    ensures forall i :: 0 <= i < |toks| ==> vs[i] == toks[i].value
  {
    if |toks| == 0 then [] else [toks[0].value] + Values(toks[1..])
  }

  lemma {:induction false} ValuesAppend(a: seq<Token>, b: seq<Token>)
    ensures Values(a + b) == Values(a) + Values(b)
  {
    assert Values(a + b) == Values(a) + Values(b);
  }

  function LexedValues(r: Lexed): Option<seq<TokenValue>> {
    match r
    case Lexed(toks) => Some(Values(toks))
    case Diverges => None
  }

  /** The token values of a whole input, or `None` when the lexer does not return. */
  function LexValues(input: string): Option<seq<TokenValue>> {
    LexedValues(Lex(input))
  }

  /** `vs` followed by the values `o` stands for, when there are any. */
  function Then(vs: seq<TokenValue>, o: Option<seq<TokenValue>>): Option<seq<TokenValue>> {
    match o
    case Some(ws) => Some(vs + ws)
    case None => None
  }

  // ---------------------------------------------------------------------------
  // The span never steers the scan.

  lemma {:induction false} ScanNumberSpanFree(a: Lexer, b: Lexer, text: string, isFloat: bool)
    requires a.input == b.input
    requires text == [] ==> !isFloat && |a.input| > 0 && IsDigit(a.input[0])
    requires text != [] ==> NumberText(text, isFloat)
    ensures ScanNumber(a, text, isFloat).Stuck? == ScanNumber(b, text, isFloat).Stuck?
    ensures ScanNumber(a, text, isFloat).Scanned? ==>
      && ScanNumber(a, text, isFloat).value.value == ScanNumber(b, text, isFloat).value.value
      && ScanNumber(a, text, isFloat).rest.input == ScanNumber(b, text, isFloat).rest.input
    decreases |a.input|
  {
    if |a.input| > 0 && (IsDigit(a.input[0]) || a.input[0] == '.') {
      var c := a.input[0];
      if IsDigit(c) {
        NumberTextGrows(text, isFloat, c);
        ScanNumberSpanFree(Advance(a), Advance(b), text + [c], isFloat);
      } else if !isFloat {
        NumberTextGrows(text, isFloat, c);
        ScanNumberSpanFree(Advance(a), Advance(b), text + ['.'], true);
      }
    }
  }

  lemma {:induction false} ScanStringSpanFree(a: Lexer, b: Lexer, text: string)
    requires a.input == b.input
    ensures ScanString(a, text).Stuck? == ScanString(b, text).Stuck?
    ensures ScanString(a, text).Scanned? ==>
      && ScanString(a, text).value.value == ScanString(b, text).value.value
      && ScanString(a, text).rest.input == ScanString(b, text).rest.input
    decreases |a.input|
  {
    if |a.input| > 0 && a.input[0] != '\\' && a.input[0] != '"' {
      ScanStringSpanFree(Advance(a), Advance(b), text + [a.input[0]]);
    }
  }

  lemma {:induction false} ScanIdentSpanFree(a: Lexer, b: Lexer, word: string)
    requires a.input == b.input
    ensures ScanIdent(a, word).value.value == ScanIdent(b, word).value.value
    ensures ScanIdent(a, word).rest.input == ScanIdent(b, word).rest.input
    decreases |a.input|
  {
    if |a.input| > 0 && IsIdentChar(a.input[0]) {
      ScanIdentSpanFree(Advance(a), Advance(b), word + [a.input[0]]);
    }
  }

  lemma {:induction false} SkipCommentSpanFree(a: Lexer, b: Lexer)
    requires a.input == b.input
    ensures Values(SkipComment(a).value) == Values(SkipComment(b).value)
    ensures SkipComment(a).rest.input == SkipComment(b).rest.input
    decreases |a.input|
  {
    if |a.input| > 0 && a.input[0] != '\n' {
      SkipCommentSpanFree(Drop(a), Drop(b));
    }
  }

  lemma StepSpanFree(a: Lexer, b: Lexer)
    requires a.input == b.input && |a.input| > 0
    ensures Step(a).Stuck? == Step(b).Stuck?
    ensures Step(a).Scanned? ==>
      Values(Step(a).value) == Values(Step(b).value) && Step(a).rest.input == Step(b).rest.input
  {
    var c := a.input[0];
    if c == '#' {
      RoundAtHash(a);
      RoundAtHash(b);
      SkipCommentSpanFree(Drop(a), Drop(b));
    } else if IsDigit(c) {
      RoundAtDigit(a);
      RoundAtDigit(b);
      ScanNumberSpanFree(a, b, "", false);
    } else if c == '"' {
      RoundAtQuote(a);
      RoundAtQuote(b);
      ScanStringSpanFree(Advance(a), Advance(b), "");
    } else if IsIdentChar(c) {
      RoundAtLetter(a);
      RoundAtLetter(b);
      ScanIdentSpanFree(a, b, "");
    } else {
      ShortRoundSpanFree(a, b);
    }
  }

  /** The rounds that read at most two characters without a scanner. */
  lemma ShortRoundSpanFree(a: Lexer, b: Lexer)
    requires a.input == b.input && |a.input| > 0
    requires var c := a.input[0]; c != '#' && !IsDigit(c) && c != '"' && !IsIdentChar(c)
    ensures Step(a).Scanned? && Step(b).Scanned?
    ensures Values(Step(a).value) == Values(Step(b).value) && Step(a).rest.input == Step(b).rest.input
  {
    var c := a.input[0];
    if c == ' ' || c == '\t' || c == '\r' {
    } else if c == '\n' {
    } else if c == '=' || c == '&' || c == '|' {
      assert Advance(a).input == Advance(b).input;
    } else {
      assert Step(a).value[0].value == Step(b).value[0].value;
    }
  }

  /** One round of the main loop, as `LexFrom` takes it. */
  lemma LexFromRound(lx: Lexer, acc: seq<Token>)
    requires |lx.input| > 0
    ensures Step(lx).Stuck? ==> LexFrom(lx, acc) == Diverges
    ensures Step(lx).Scanned? ==> LexFrom(lx, acc) == LexFrom(Step(lx).rest, acc + Step(lx).value)
  {
  }

  lemma LexFromEnd(lx: Lexer, acc: seq<Token>)
    requires |lx.input| == 0
    ensures LexFrom(lx, acc) == Lexed(acc + [Token(EOF, lx.loc)])
  {
  }

  lemma SeqAssoc<T>(a: seq<T>, b: seq<T>, c: seq<T>)
    ensures (a + b) + c == a + (b + c)
  {
  }

  /** The tokens already collected are kept in front of whatever the rest produces. */
  lemma {:induction false} LexFromAcc(lx: Lexer, acc: seq<Token>)
    ensures LexFrom(lx, acc).Lexed? == LexFrom(lx, []).Lexed?
    ensures LexFrom(lx, acc).Lexed? ==> LexFrom(lx, acc).tokens == acc + LexFrom(lx, []).tokens
    decreases |lx.input|
  {
    if |lx.input| == 0 {
      LexFromEnd(lx, acc);
      LexFromEnd(lx, []);
      assert [] + [Token(EOF, lx.loc)] == [Token(EOF, lx.loc)];
    } else {
      LexFromRound(lx, acc);
      LexFromRound(lx, []);
      var step := Step(lx);
      if step.Scanned? {
        var out, rest := step.value, step.rest;
        assert [] + out == out;
        assert LexFrom(lx, acc) == LexFrom(rest, acc + out);
        assert LexFrom(lx, []) == LexFrom(rest, out);
        LexFromAcc(rest, acc + out);
        LexFromAcc(rest, out);
        var whole, mid, tail := LexFrom(rest, acc + out), LexFrom(rest, out), LexFrom(rest, []);
        if tail.Lexed? {
          assert whole.tokens == (acc + out) + tail.tokens;
          assert mid.tokens == out + tail.tokens;
          SeqAssoc(acc, out, tail.tokens);
        } else {
          assert !whole.Lexed? && !mid.Lexed?;
        }
      } else {
        assert LexFrom(lx, acc) == Diverges && LexFrom(lx, []) == Diverges;
      }
    }
  }

  /** Scanning from any span gives the token values of scanning from any other. */
  lemma {:induction false} LexFromSpanFree(a: Lexer, b: Lexer)
    requires a.input == b.input
    ensures LexedValues(LexFrom(a, [])) == LexedValues(LexFrom(b, []))
    decreases |a.input|
  {
    if |a.input| == 0 {
      LexEndValues(a);
      LexEndValues(b);
    } else {
      StepSpanFree(a, b);
      match Step(a)
      case Stuck =>
      case Scanned(outA, restA) =>
        var outB, restB := Step(b).value, Step(b).rest;
        assert [] + outA == outA && [] + outB == outB;
        assert LexFrom(a, []) == LexFrom(restA, outA);
        assert LexFrom(b, []) == LexFrom(restB, outB);
        LexFromSpanFree(restA, restB);
        LexFromAcc(restA, outA);
        LexFromAcc(restB, outB);
        match LexFrom(restA, [])
        case Lexed(ta) =>
          var tb := LexFrom(restB, []).tokens;
          ValuesAppend(outA, ta);
          ValuesAppend(outB, tb);
        case Diverges =>
    }
  }

  /** At the end of the input the main loop pushes one `EOF` and stops. */
  lemma LexEndValues(lx: Lexer)
    requires lx.input == []
    ensures LexedValues(LexFrom(lx, [])) == Some([EOF])
  {
    var (t, _) := Emit(lx, EOF);
    assert LexFrom(lx, []) == Lexed([] + [t]);
    assert [] + [t] == [t];
    assert Values([t]) == [EOF];
  }

  /**
   * One round of the main loop: the input's token values are the round's
   * tokens followed by the token values of what it left unread.
   */
  lemma StepThen(lx: Lexer)
    requires |lx.input| > 0
    ensures Step(lx).Stuck? ==> LexValues(lx.input) == None
    ensures Step(lx).Scanned? ==>
      LexValues(lx.input) == Then(Values(Step(lx).value), LexValues(Step(lx).rest.input))
  {
    LexFromSpanFree(NewLexer(lx.input), lx);
    match Step(lx)
    case Stuck =>
    case Scanned(out, rest) =>
      assert [] + out == out;
      assert LexFrom(lx, []) == LexFrom(rest, out);
      LexFromAcc(rest, out);
      LexFromSpanFree(rest, NewLexer(rest.input));
      match LexFrom(rest, [])
      case Lexed(t) => ValuesAppend(out, t);
      case Diverges =>
  }

  /** `StepThen` for the first character of an input. */
  lemma StepAt(input: string)
    requires |input| > 0
    ensures Step(NewLexer(input)).Stuck? ==> LexValues(input) == None
    ensures Step(NewLexer(input)).Scanned? ==>
      LexValues(input) == Then(Values(Step(NewLexer(input)).value), LexValues(Step(NewLexer(input)).rest.input))
  {
    StepThen(NewLexer(input));
  }

  // ---------------------------------------------------------------------------
  // The main loop, character class by character class.

  /** An empty input is just `EOF`. */
  lemma LexEmpty()
    ensures LexValues("") == Some([EOF])
  {
    LexEndValues(NewLexer(""));
  }

  lemma ValuesOne(t: Token)
    ensures Values([t]) == [t.value]
  {
  }

  lemma ThenNothing(o: Option<seq<TokenValue>>)
    ensures Then([], o) == o
  {
    if o.Some? {
      assert [] + o.value == o.value;
    }
  }

  /** A round that reads `input` down to `rest` and yields `vs` puts `vs` in front of what `rest` yields. */
  lemma RoundGives(input: string, vs: seq<TokenValue>, rest: string)
    requires |input| > 0 && Step(NewLexer(input)).Scanned?
    requires Values(Step(NewLexer(input)).value) == vs
    requires Step(NewLexer(input)).rest.input == rest
    ensures LexValues(input) == Then(vs, LexValues(rest))
  {
    StepThen(NewLexer(input));
  }

  /** A round that yields one token. */
  lemma RoundGivesOne(input: string, v: TokenValue, rest: string)
    requires |input| > 0 && Step(NewLexer(input)).Scanned?
    requires |Step(NewLexer(input)).value| == 1 && Step(NewLexer(input)).value[0].value == v
    requires Step(NewLexer(input)).rest.input == rest
    ensures LexValues(input) == Then([v], LexValues(rest))
  {
    ValuesOne(Step(NewLexer(input)).value[0]);
    assert Step(NewLexer(input)).value == [Step(NewLexer(input)).value[0]];
    RoundGives(input, [v], rest);
  }

  /** Spaces and tabs produce nothing. */
  lemma LexBlank(c: char, rest: string)
    requires c == ' ' || c == '\t'
    ensures LexValues([c] + rest) == LexValues(rest)
  {
    var lx := NewLexer([c] + rest);
    assert lx.input[0] == c && lx.input[1..] == rest;
    assert Step(lx).value == [];
    RoundGives([c] + rest, [], rest);
    ThenNothing(LexValues(rest));
  }

  /** A carriage return is dropped without a token. */
  lemma LexCarriageReturn(rest: string)
    ensures LexValues(['\r'] + rest) == LexValues(rest)
  {
    var lx := NewLexer(['\r'] + rest);
    assert lx.input[0] == '\r' && lx.input[1..] == rest;
    assert Step(lx).value == [];
    RoundGives(['\r'] + rest, [], rest);
    ThenNothing(LexValues(rest));
  }

  /** A line feed is one `Newline`. */
  lemma LexLineFeed(rest: string)
    ensures LexValues(['\n'] + rest) == Then([Newline], LexValues(rest))
  {
    var lx := NewLexer(['\n'] + rest);
    assert lx.input[0] == '\n' && lx.input[1..] == rest;
    RoundGivesOne(['\n'] + rest, Newline, rest);
  }

  /** So a Windows line ending `\r\n` is exactly one `Newline`. */
  lemma LexCrLf(rest: string)
    ensures LexValues("\r\n" + rest) == Then([Newline], LexValues(rest))
  {
    assert "\r\n" + rest == ['\r'] + (['\n'] + rest);
    LexCarriageReturn(['\n'] + rest);
    LexLineFeed(rest);
  }

  /** The span bookkeeping of a line feed: next line, column end back to 0. */
  lemma LineFeedSpan(lx: Lexer)
    requires |lx.input| > 0 && lx.input[0] == '\n'
    ensures Step(lx).Scanned? && |Step(lx).value| == 1
    ensures Step(lx).value[0] == Token(Newline, lx.loc)
    ensures Step(lx).rest.loc.lineStart == lx.loc.lineStart + 1
    ensures Step(lx).rest.loc.colStop == 0
    ensures Step(lx).rest.loc.colStart == lx.loc.colStop
  {
  }

  /** The span bookkeeping of a blank: the next token starts where the blank ends. */
  lemma BlankSpan(lx: Lexer)
    requires |lx.input| > 0 && (lx.input[0] == ' ' || lx.input[0] == '\t')
    ensures Step(lx).Scanned? && Step(lx).value == []
    ensures Step(lx).rest.loc.colStop == lx.loc.colStop + 1
    ensures Step(lx).rest.loc.colStart == Step(lx).rest.loc.colStop
    ensures Step(lx).rest.loc.lineStart == lx.loc.lineStart
  {
  }

  /** Single-character punctuation: one token, and scanning goes on after it. */
  lemma LexPunctuation(c: char, rest: string)
    requires Punctuation(c).Some?
    ensures LexValues([c] + rest) == Then([Punctuation(c).value], LexValues(rest))
  {
    var lx := NewLexer([c] + rest);
    assert lx.input[0] == c && lx.input[1..] == rest;
    assert !IsDigit(c) && !IsIdentChar(c) && c != '"';
    RoundGivesOne([c] + rest, Punctuation(c).value, rest);
  }

  /** Any other character outside the language is consumed as an `Illegal` token. */
  lemma LexUnexpected(c: char, rest: string)
    requires Punctuation(c).None? && !IsDigit(c) && !IsIdentChar(c)
    requires c !in " \t\r\n#=&|\""
    ensures LexValues([c] + rest) == Then([Illegal("unexpected: " + [c])], LexValues(rest))
  {
    var lx := NewLexer([c] + rest);
    assert lx.input[0] == c && lx.input[1..] == rest;
    RoundGivesOne([c] + rest, Illegal("unexpected: " + [c]), rest);
  }

  /** `==` is one `Equal`. */
  lemma LexEqual(rest: string)
    ensures LexValues("==" + rest) == Then([Equal], LexValues(rest))
  {
    var lx := NewLexer("==" + rest);
    assert lx.input[0] == '=' && lx.input[1..][0] == '=' && lx.input[1..][1..] == rest;
    RoundGivesOne("==" + rest, Equal, rest);
  }

  /** `=` not followed by `=` is an `Assign`, and the next character is still unread. */
  lemma LexAssign(rest: string)
    requires rest == [] || rest[0] != '='
    ensures LexValues("=" + rest) == Then([Assign], LexValues(rest))
  {
    var lx := NewLexer("=" + rest);
    assert lx.input[0] == '=' && lx.input[1..] == rest;
    RoundGivesOne("=" + rest, Assign, rest);
  }

  lemma LexAnd(rest: string)
    ensures LexValues("&&" + rest) == Then([And], LexValues(rest))
  {
    var lx := NewLexer("&&" + rest);
    assert lx.input[0] == '&' && lx.input[1..][0] == '&' && lx.input[1..][1..] == rest;
    RoundGivesOne("&&" + rest, And, rest);
  }

  lemma LexOr(rest: string)
    ensures LexValues("||" + rest) == Then([Or], LexValues(rest))
  {
    var lx := NewLexer("||" + rest);
    assert lx.input[0] == '|' && lx.input[1..][0] == '|' && lx.input[1..][1..] == rest;
    RoundGivesOne("||" + rest, Or, rest);
  }

  /** A lone `&` or `|` is illegal, and the character after it is not consumed. */
  lemma LexLoneLogical(c: char, rest: string)
    requires c == '&' || c == '|'
    requires rest == [] || rest[0] != c
    ensures LexValues([c] + rest) == Then([Illegal("unexpected: " + [c])], LexValues(rest))
  {
    var lx := NewLexer([c] + rest);
    assert lx.input[0] == c && lx.input[1..] == rest;
    RoundGivesOne([c] + rest, Illegal("unexpected: " + [c]), rest);
  }

  // ---------------------------------------------------------------------------
  // Which scanner a round hands over to

  lemma RoundAtHash(lx: Lexer)
    requires |lx.input| > 0 && lx.input[0] == '#'
    ensures Step(lx) == SkipComment(Drop(lx))
  {
    var c := lx.input[0];
    assert c != ' ' && c != '\t' && c != '\r' && c != '\n';
  }

  lemma RoundAtLetter(lx: Lexer)
    requires |lx.input| > 0 && IsIdentChar(lx.input[0])
    ensures Step(lx) == One(ScanIdent(lx, ""))
  {
    var c := lx.input[0];
    assert c != ' ' && c != '\t' && c != '\r' && c != '\n' && c != '#';
    assert c != '=' && c != '&' && c != '|' && !IsDigit(c) && c != '"';
  }

  lemma RoundAtDigit(lx: Lexer)
    requires |lx.input| > 0 && IsDigit(lx.input[0])
    ensures Step(lx) == One(ScanNumber(lx, "", false))
  {
    var c := lx.input[0];
    assert c != ' ' && c != '\t' && c != '\r' && c != '\n' && c != '#';
    assert c != '=' && c != '&' && c != '|';
  }

  lemma RoundAtQuote(lx: Lexer)
    requires |lx.input| > 0 && lx.input[0] == '"'
    ensures Step(lx) == One(ScanString(Advance(lx), ""))
  {
    var c := lx.input[0];
    assert c != ' ' && c != '\t' && c != '\r' && c != '\n' && c != '#';
    assert c != '=' && c != '&' && c != '|' && !IsDigit(c);
  }

  // ---------------------------------------------------------------------------
  // Comments

  lemma {:induction false} SkipCommentLine(lx: Lexer, body: string, rest: string)
    requires '\n' !in body
    requires lx.input == body + ['\n'] + rest
    ensures SkipComment(lx).value == [] && SkipComment(lx).rest.input == rest
    decreases |body|
  {
    if |body| > 0 {
      assert Drop(lx).input == body[1..] + ['\n'] + rest;
      SkipCommentLine(Drop(lx), body[1..], rest);
    } else {
      assert lx.input[1..] == rest;
    }
  }

  lemma {:induction false} SkipCommentToEnd(lx: Lexer)
    requires '\n' !in lx.input
    ensures Values(SkipComment(lx).value) == [EOF] && SkipComment(lx).rest.input == []
    decreases |lx.input|
  {
    if |lx.input| > 0 {
      assert lx.input[0] != '\n';
      assert forall k :: 0 <= k < |Drop(lx).input| ==> Drop(lx).input[k] == lx.input[k + 1];
      SkipCommentToEnd(Drop(lx));
    }
  }

  /** A comment line, its line feed included, produces no token at all. */
  lemma LexCommentLine(body: string, rest: string)
    requires '\n' !in body
    ensures LexValues("#" + body + "\n" + rest) == LexValues(rest)
  {
    var input := "#" + body + "\n" + rest;
    var lx := NewLexer(input);
    assert lx.input[0] == '#';
    RoundAtHash(lx);
    assert Drop(lx).input == body + ['\n'] + rest;
    SkipCommentLine(Drop(lx), body, rest);
    RoundGives(input, [], rest);
    ThenNothing(LexValues(rest));
  }

  /** A comment that runs to the end of the input leaves two `EOF` tokens. */
  lemma LexCommentAtEnd(body: string)
    requires '\n' !in body
    ensures LexValues("#" + body) == Some([EOF, EOF])
  {
    var input := "#" + body;
    var lx := NewLexer(input);
    assert lx.input[0] == '#';
    RoundAtHash(lx);
    assert Drop(lx).input == body;
    SkipCommentToEnd(Drop(lx));
    RoundGives(input, [EOF], []);
    LexEmpty();
    assert [EOF] + [EOF] == [EOF, EOF];
  }

  // ---------------------------------------------------------------------------
  // Identifiers and keywords

  predicate AllIdentChars(s: string) {
    forall i :: 0 <= i < |s| ==> IsIdentChar(s[i])
  }

  lemma {:induction false} ScanIdentRun(lx: Lexer, word: string, run: string, rest: string)
    requires AllIdentChars(run)
    requires rest == [] || !IsIdentChar(rest[0])
    requires lx.input == run + rest
    ensures ScanIdent(lx, word).value.value == Keyword(word + run)
    ensures ScanIdent(lx, word).rest.input == rest
    decreases |run|
  {
    if |run| > 0 {
      assert Advance(lx).input == run[1..] + rest;
      assert word + [run[0]] + run[1..] == word + run;
      ScanIdentRun(Advance(lx), word + [run[0]], run[1..], rest);
    } else {
      assert word + run == word;
    }
  }

  /** An identifier is the longest run of letters and `_`; the five keywords get their own tokens. */
  lemma LexWord(run: string, rest: string)
    requires |run| > 0 && AllIdentChars(run)
    requires rest == [] || !IsIdentChar(rest[0])
    ensures LexValues(run + rest) == Then([Keyword(run)], LexValues(rest))
  {
    var input := run + rest;
    var lx := NewLexer(input);
    assert lx.input[0] == run[0];
    RoundAtLetter(lx);
    ScanIdentRun(lx, "", run, rest);
    assert "" + run == run;
    RoundGivesOne(input, Keyword(run), rest);
  }

  /** `Keyword` picks exactly the five reserved words and keeps every other word as an `Ident`. */
  lemma KeywordCases(word: string)
    ensures Keyword(word) == If <==> word == "if"
    ensures Keyword(word) == Elif <==> word == "elif"
    ensures Keyword(word) == Else <==> word == "else"
    ensures Keyword(word) == True <==> word == "true"
    ensures Keyword(word) == False <==> word == "false"
    ensures Keyword(word).Ident? <==> word !in {"if", "elif", "else", "true", "false"}
    ensures Keyword(word).Ident? ==> Keyword(word).text == word
  {
  }

  // ---------------------------------------------------------------------------
  // Numbers

  lemma {:induction false} ScanDigits(lx: Lexer, text: string, isFloat: bool, run: string, rest: string)
    requires AllDigits(run)
    requires text == [] ==> !isFloat && |run| > 0
    requires text != [] ==> NumberText(text, isFloat)
    requires lx.input == run + rest
    ensures NumberText(text + run, isFloat)
    ensures ScanNumber(lx, text, isFloat) == ScanNumber(LexerAfter(lx, |run|), text + run, isFloat)
    decreases |run|
  {
    if |run| > 0 {
      var c := run[0];
      assert lx.input[0] == c && IsDigit(c);
      NumberTextGrows(text, isFloat, c);
      assert ScanNumber(lx, text, isFloat) == ScanNumber(Advance(lx), text + [c], isFloat);
      assert Advance(lx).input == run[1..] + rest;
      assert text + [run[0]] + run[1..] == text + run;
      ScanDigits(Advance(lx), text + [run[0]], isFloat, run[1..], rest);
      LexerAfterStep(lx, |run|);
    } else {
      assert text + run == text;
    }
  }

  /** The scanner after `n` calls of `next`. */
  function LexerAfter(lx: Lexer, n: nat): (r: Lexer)
    requires n <= |lx.input|
    ensures r.input == lx.input[n..]
    decreases n
  {
    if n == 0 then lx else LexerAfter(Advance(lx), n - 1)
  }

  lemma LexerAfterStep(lx: Lexer, n: nat)
    requires 0 < n <= |lx.input|
    ensures LexerAfter(Advance(lx), n - 1) == LexerAfter(lx, n)
  {
  }

  predicate EndsNumber(rest: string) {
    rest == [] || !(IsDigit(rest[0]) || rest[0] == '_' || rest[0] == '.')
  }

  /** A digit run not followed by a digit, `.` or `_` is one `Integer` token holding those digits. */
  lemma LexInteger(run: string, rest: string)
    requires |run| > 0 && AllDigits(run)
    requires EndsNumber(rest)
    ensures LexValues(run + rest) == Then([Integer(run)], LexValues(rest))
  {
    var input := run + rest;
    var lx := NewLexer(input);
    assert lx.input[0] == run[0];
    RoundAtDigit(lx);
    ScanDigits(lx, "", false, run, rest);
    assert "" + run == run;
    ScanNumberEnd(LexerAfter(lx, |run|), run, false);
    RoundGivesOne(input, Integer(run), rest);
  }

  lemma ScanNumberEnd(lx: Lexer, text: string, isFloat: bool)
    requires NumberText(text, isFloat) && EndsNumber(lx.input)
    ensures ScanNumber(lx, text, isFloat).Scanned?
    ensures ScanNumber(lx, text, isFloat).value.value == if isFloat then Float(text) else Integer(text)
    ensures ScanNumber(lx, text, isFloat).rest.input == lx.input
  {
  }

  lemma ScanNumberDot(lx: Lexer, text: string)
    requires NumberText(text, false) && |lx.input| > 0 && lx.input[0] == '.'
    ensures NumberText(text + ".", true)
    ensures ScanNumber(lx, text, false) == ScanNumber(Advance(lx), text + ".", true)
  {
    NumberTextGrows(text, false, '.');
  }

  lemma ScanNumberSecondDot(lx: Lexer, text: string)
    requires NumberText(text, true) && |lx.input| > 0 && lx.input[0] == '.'
    ensures ScanNumber(lx, text, true).Scanned?
    ensures ScanNumber(lx, text, true).value.value == Illegal("unexpected: .")
    ensures ScanNumber(lx, text, true).rest.input == lx.input[1..]
  {
  }

  /** Scanning `whole.frac` and stopping before `rest`. */
  lemma ScanFloat(lx: Lexer, whole: string, frac: string, rest: string)
    requires |whole| > 0 && AllDigits(whole) && AllDigits(frac)
    requires lx.input == whole + (['.'] + (frac + rest))
    ensures NumberText(whole + ['.'] + frac, true)
    ensures LexerAfter(Advance(LexerAfter(lx, |whole|)), |frac|).input == rest
    ensures ScanNumber(lx, "", false)
         == ScanNumber(LexerAfter(Advance(LexerAfter(lx, |whole|)), |frac|), whole + ['.'] + frac, true)
  {
    ScanDigits(lx, "", false, whole, ['.'] + (frac + rest));
    assert "" + whole == whole;
    var lx1 := LexerAfter(lx, |whole|);
    ScanNumberDot(lx1, whole);
    var lx2 := Advance(lx1);
    assert lx2.input == frac + rest;
    ScanDigits(lx2, whole + ['.'], true, frac, rest);
  }

  /** Digits, one `.`, digits: one `Float` token holding the text as written. */
  lemma LexFloat(whole: string, frac: string, rest: string)
    requires |whole| > 0 && AllDigits(whole) && AllDigits(frac)
    requires EndsNumber(rest)
    ensures LexValues(whole + ['.'] + frac + rest) == Then([Float(whole + ['.'] + frac)], LexValues(rest))
  {
    var input := whole + ['.'] + frac + rest;
    var lx := NewLexer(input);
    assert lx.input == whole + (['.'] + (frac + rest));
    assert lx.input[0] == whole[0];
    RoundAtDigit(lx);
    ScanFloat(lx, whole, frac, rest);
    ScanNumberEnd(LexerAfter(Advance(LexerAfter(lx, |whole|)), |frac|), whole + ['.'] + frac, true);
    RoundGivesOne(input, Float(whole + ['.'] + frac), rest);
  }

  /**
   * A second `.` ends the number as `Illegal("unexpected: .")`: the dot is
   * consumed and the digits read so far are dropped.
   */
  lemma LexSecondDot(whole: string, frac: string, rest: string)
    requires |whole| > 0 && AllDigits(whole) && AllDigits(frac)
    ensures LexValues(whole + ['.'] + frac + ['.'] + rest) == Then([Illegal("unexpected: .")], LexValues(rest))
  {
    var input := whole + ['.'] + frac + ['.'] + rest;
    var lx := NewLexer(input);
    assert lx.input == whole + (['.'] + (frac + (['.'] + rest)));
    assert lx.input[0] == whole[0];
    RoundAtDigit(lx);
    ScanFloat(lx, whole, frac, ['.'] + rest);
    var lx3 := LexerAfter(Advance(LexerAfter(lx, |whole|)), |frac|);
    assert lx3.input[1..] == rest;
    ScanNumberSecondDot(lx3, whole + ['.'] + frac);
    RoundGivesOne(input, Illegal("unexpected: ."), rest);
  }

  /** Input that begins with digits followed by `_`: the lexer never returns. */
  lemma LexUnderscoreInNumber(run: string, rest: string)
    requires |run| > 0 && AllDigits(run)
    ensures LexValues(run + "_" + rest) == None
  {
    var input := run + "_" + rest;
    var lx := NewLexer(input);
    assert lx.input == run + ("_" + rest);
    assert lx.input[0] == run[0];
    RoundAtDigit(lx);
    ScanDigits(lx, "", false, run, "_" + rest);
    assert LexerAfter(lx, |run|).input[0] == '_';
    StepThen(lx);
  }

  // ---------------------------------------------------------------------------
  // Strings

  lemma {:induction false} ScanStringBody(lx: Lexer, text: string, body: string, rest: string)
    requires '"' !in body && '\\' !in body
    requires lx.input == body + "\"" + rest
    ensures ScanString(lx, text).Scanned?
    ensures ScanString(lx, text).value.value == String(text + body)
    ensures ScanString(lx, text).rest.input == rest
    decreases |body|
  {
    if |body| > 0 {
      assert lx.input[0] == body[0];
      assert Advance(lx).input == body[1..] + "\"" + rest;
      assert text + [body[0]] + body[1..] == text + body;
      ScanStringBody(Advance(lx), text + [body[0]], body[1..], rest);
    } else {
      assert text + body == text;
      assert Advance(lx).input == rest;
    }
  }

  lemma {:induction false} ScanStringUnterminated(lx: Lexer, text: string)
    requires '"' !in lx.input && '\\' !in lx.input
    ensures ScanString(lx, text).Scanned?
    ensures ScanString(lx, text).value.value == Illegal("unterminated quote string")
    ensures ScanString(lx, text).rest.input == []
    decreases |lx.input|
  {
    if |lx.input| > 0 {
      assert lx.input[0] != '"' && lx.input[0] != '\\';
      assert forall k :: 0 <= k < |Advance(lx).input| ==> Advance(lx).input[k] == lx.input[k + 1];
      ScanStringUnterminated(Advance(lx), text + [lx.input[0]]);
    }
  }

  /** Everything between the quotes, line feeds included, is the string's text. */
  lemma LexString(body: string, rest: string)
    requires '"' !in body && '\\' !in body
    ensures LexValues("\"" + body + "\"" + rest) == Then([String(body)], LexValues(rest))
  {
    var input := "\"" + body + "\"" + rest;
    var lx := NewLexer(input);
    assert lx.input[0] == '"';
    RoundAtQuote(lx);
    assert Advance(lx).input == body + "\"" + rest;
    ScanStringBody(Advance(lx), "", body, rest);
    assert "" + body == body;
    RoundGivesOne(input, String(body), rest);
  }

  /** A string with no closing quote is `Illegal("unterminated quote string")` and ends the input. */
  lemma LexUnterminatedString(body: string)
    requires '"' !in body && '\\' !in body
    ensures LexValues("\"" + body) == Some([Illegal("unterminated quote string"), EOF])
  {
    var input := "\"" + body;
    var lx := NewLexer(input);
    assert lx.input[0] == '"';
    RoundAtQuote(lx);
    assert Advance(lx).input == body;
    ScanStringUnterminated(Advance(lx), "");
    RoundGivesOne(input, Illegal("unterminated quote string"), []);
    LexEmpty();
    assert [Illegal("unterminated quote string")] + [EOF] == [Illegal("unterminated quote string"), EOF];
  }

  /** A backslash inside a string: the lexer never returns. */
  lemma LexBackslashInString(body: string, rest: string)
    requires '"' !in body && '\\' !in body
    ensures LexValues("\"" + body + "\\" + rest) == None
  {
    var input := "\"" + body + "\\" + rest;
    var lx := NewLexer(input);
    assert lx.input[0] == '"';
    RoundAtQuote(lx);
    assert Advance(lx).input == body + "\\" + rest;
    ScanStringToBackslash(Advance(lx), "", body, rest);
    StepThen(lx);
  }

  lemma {:induction false} ScanStringToBackslash(lx: Lexer, text: string, body: string, rest: string)
    requires '"' !in body && '\\' !in body
    requires lx.input == body + "\\" + rest
    ensures ScanString(lx, text).Stuck?
    decreases |body|
  {
    if |body| > 0 {
      assert lx.input[0] == body[0];
      assert Advance(lx).input == body[1..] + "\\" + rest;
      ScanStringToBackslash(Advance(lx), text + [body[0]], body[1..], rest);
    }
  }

  // ---------------------------------------------------------------------------
  // Shapes and totality

  /** A number scan yields integer text without a dot, float text with one, or the second-dot complaint; it spins only on a `_`. */
  lemma {:induction false} ScanNumberShape(lx: Lexer, text: string, isFloat: bool)
    requires text == [] ==> !isFloat && |lx.input| > 0 && IsDigit(lx.input[0])
    requires text != [] ==> NumberText(text, isFloat)
    ensures ScanNumber(lx, text, isFloat).Scanned? ==> IsNumberToken(ScanNumber(lx, text, isFloat).value.value)
    ensures ScanNumber(lx, text, isFloat).Stuck? ==> '_' in lx.input
    decreases |lx.input|
  {
    if |lx.input| > 0 && (IsDigit(lx.input[0]) || lx.input[0] == '.') {
      var c := lx.input[0];
      if IsDigit(c) {
        NumberTextGrows(text, isFloat, c);
        ScanNumberShape(Advance(lx), text + [c], isFloat);
      } else if !isFloat {
        NumberTextGrows(text, isFloat, c);
        ScanNumberShape(Advance(lx), text + ['.'], true);
      }
      if ScanNumber(lx, text, isFloat).Stuck? {
        assert '_' in Advance(lx).input;
        var i :| 0 <= i < |lx.input[1..]| && lx.input[1..][i] == '_';
        assert lx.input[i + 1] == '_';
      }
    }
  }

  /** No `_` and no backslash anywhere. */
  predicate Calm(s: string) {
    forall i :: 0 <= i < |s| ==> s[i] != '_' && s[i] != '\\'
  }

  lemma {:induction false} ScanNumberCalm(lx: Lexer, text: string, isFloat: bool)
    requires text == [] ==> !isFloat && |lx.input| > 0 && IsDigit(lx.input[0])
    requires text != [] ==> NumberText(text, isFloat)
    requires Calm(lx.input)
    ensures ScanNumber(lx, text, isFloat).Scanned? && Calm(ScanNumber(lx, text, isFloat).rest.input)
    decreases |lx.input|
  {
    if |lx.input| > 0 && (IsDigit(lx.input[0]) || lx.input[0] == '.') {
      var c := lx.input[0];
      if IsDigit(c) {
        NumberTextGrows(text, isFloat, c);
        ScanNumberCalm(Advance(lx), text + [c], isFloat);
      } else if !isFloat {
        NumberTextGrows(text, isFloat, c);
        ScanNumberCalm(Advance(lx), text + ['.'], true);
      }
    }
  }

  lemma {:induction false} ScanStringCalm(lx: Lexer, text: string)
    requires Calm(lx.input)
    ensures ScanString(lx, text).Scanned? && Calm(ScanString(lx, text).rest.input)
    decreases |lx.input|
  {
    if |lx.input| > 0 && lx.input[0] != '"' {
      ScanStringCalm(Advance(lx), text + [lx.input[0]]);
    }
  }

  lemma {:induction false} ScanIdentCalm(lx: Lexer, word: string)
    requires Calm(lx.input)
    ensures Calm(ScanIdent(lx, word).rest.input)
    decreases |lx.input|
  {
    if |lx.input| > 0 && IsIdentChar(lx.input[0]) {
      ScanIdentCalm(Advance(lx), word + [lx.input[0]]);
    }
  }

  lemma {:induction false} SkipCommentCalm(lx: Lexer)
    requires Calm(lx.input)
    ensures Calm(SkipComment(lx).rest.input)
    decreases |lx.input|
  {
    if |lx.input| > 0 && lx.input[0] != '\n' {
      SkipCommentCalm(Drop(lx));
    }
  }

  lemma StepCalm(lx: Lexer)
    requires |lx.input| > 0 && Calm(lx.input)
    ensures Step(lx).Scanned? && Calm(Step(lx).rest.input)
  {
    var c := lx.input[0];
    if c == '#' {
      RoundAtHash(lx);
      SkipCommentCalm(Drop(lx));
    } else if IsDigit(c) {
      RoundAtDigit(lx);
      ScanNumberCalm(lx, "", false);
    } else if c == '"' {
      RoundAtQuote(lx);
      ScanStringCalm(Advance(lx), "");
    } else if IsIdentChar(c) {
      RoundAtLetter(lx);
      ScanIdentCalm(lx, "");
    }
  }

  lemma {:induction false} LexFromCalm(lx: Lexer, acc: seq<Token>)
    requires Calm(lx.input)
    ensures LexFrom(lx, acc).Lexed?
    decreases |lx.input|
  {
    if |lx.input| > 0 {
      StepCalm(lx);
      LexFromCalm(Step(lx).rest, acc + Step(lx).value);
    }
  }

  /**
   * The lexer returns on every input without a `_` or a backslash; it never
   * reports an error, only `Illegal` tokens, and ends the stream with `EOF`.
   */
  lemma LexReturns(input: string)
    requires '_' !in input && '\\' !in input
    ensures Lex(input).Lexed?
    ensures Last(Lex(input).tokens).value == EOF
  {
    assert Calm(input);
    LexFromCalm(NewLexer(input), []);
  }

  // ---------------------------------------------------------------------------
  // A worked example

  /** Two rounds in a row: the first's tokens, then the second's, then the rest's. */
  lemma ThenThen(a: seq<TokenValue>, b: seq<TokenValue>, x: Option<seq<TokenValue>>, y: Option<seq<TokenValue>>, z: Option<seq<TokenValue>>)
    requires x == Then(a, y) && y == Then(b, z)
    ensures x == Then(a + b, z)
  {
    if z.Some? {
      assert a + (b + z.value) == a + b + z.value;
    }
  }

  lemma EqualsText(rest: string)
    ensures "===" + rest == "==" + ("=" + rest)
  {
  }

  lemma LexEqualAssign(rest: string)
    requires rest == [] || rest[0] != '='
    ensures LexValues("===" + rest) == Then([Equal, Assign], LexValues(rest))
  {
    var x, y, z := LexValues("===" + rest), LexValues("=" + rest), LexValues(rest);
    EqualsText(rest);
    LexEqual("=" + rest);
    assert x == Then([Equal], y);
    LexAssign(rest);
    assert y == Then([Assign], z);
    ThenThen([Equal], [Assign], x, y, z);
    assert [Equal] + [Assign] == [Equal, Assign];
  }

  /** A run of punctuation marks is one token per mark, in order. */
  lemma {:induction false} LexPunctuationRun(cs: string, vs: seq<TokenValue>, rest: string)
    requires |vs| == |cs|
    requires forall i :: 0 <= i < |cs| ==> Punctuation(cs[i]) == Some(vs[i])
    ensures LexValues(cs + rest) == Then(vs, LexValues(rest))
    decreases |cs|
  {
    if |cs| == 0 {
      assert cs + rest == rest;
      ThenNothing(LexValues(rest));
    } else {
      var c, tail := cs[0], cs[1..];
      assert cs + rest == [c] + (tail + rest);
      assert Punctuation(c) == Some(vs[0]);
      LexPunctuation(c, tail + rest);
      assert LexValues(cs + rest) == Then([vs[0]], LexValues(tail + rest));
      forall i | 0 <= i < |tail|
        ensures Punctuation(tail[i]) == Some(vs[1..][i])
      {
        assert tail[i] == cs[i + 1];
      }
      LexPunctuationRun(tail, vs[1..], rest);
      ThenThen([vs[0]], vs[1..], LexValues(cs + rest), LexValues(tail + rest), LexValues(rest));
      assert [vs[0]] + vs[1..] == vs;
    }
  }

  lemma OperatorsText(rest: string)
    ensures "===+-*/!" + rest == "===" + ("+-*/!" + rest)
  {
  }

  lemma OperatorsExample(rest: string)
    ensures LexValues("===+-*/!" + rest) == Then([Equal, Assign, Plus, Minus, Asterisk, Slash, Bang], LexValues(rest))
  {
    var marks, vs := "+-*/!", [Plus, Minus, Asterisk, Slash, Bang];
    forall i | 0 <= i < |marks|
      ensures Punctuation(marks[i]) == Some(vs[i])
    {
      if i == 0 { assert marks[i] == '+'; }
      else if i == 1 { assert marks[i] == '-'; }
      else if i == 2 { assert marks[i] == '*'; }
      else if i == 3 { assert marks[i] == '/'; }
      else { assert marks[i] == '!'; }
    }
    LexPunctuationRun(marks, vs, rest);
    OperatorsText(rest);
    LexEqualAssign(marks + rest);
    ThenThen([Equal, Assign], vs, LexValues("===+-*/!" + rest), LexValues(marks + rest), LexValues(rest));
    assert [Equal, Assign] + vs == [Equal, Assign, Plus, Minus, Asterisk, Slash, Bang];
  }

  // On its own, `===+-*/!` is those seven tokens and `EOF`.
  lemma OperatorsAlone()
    ensures LexValues("===+-*/!") == Some([Equal, Assign, Plus, Minus, Asterisk, Slash, Bang, EOF])
  {
    OperatorsExample([]);
    assert "===+-*/!" + [] == "===+-*/!";
    LexEmpty();
    assert [Equal, Assign, Plus, Minus, Asterisk, Slash, Bang] + [EOF] == [Equal, Assign, Plus, Minus, Asterisk, Slash, Bang, EOF];
  }
}
