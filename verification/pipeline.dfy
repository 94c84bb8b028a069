/**
 * The three stages joined the way src/main.rs runs a file: lex the text,
 * parse the tokens, evaluate the program in a fresh scope. A parse error is
 * reported with the parser's message; indexing past the token vector is a
 * panic; a lexer that stops advancing never returns.
 */
module Pipeline {
  import opened Common
  import opened Numbers
  import opened Tokens
  import opened Lexing
  import opened Syntax
  import opened Parsing
  import opened Values
  import opened Evaluation
  import opened LexerFacts
  import EvalFacts

  /** How running a source text ends. */
  datatype Run = LexerHangs | Finished(outcome: Outcome<Value>)

  function Interpret(input: string, fuel: nat): (r: Run)
  {
    match Lex(input)
    case Diverges => LexerHangs
    case Lexed(tokens) =>
      match Parse(tokens)
      case Panicked => Finished(Abort(IndexOutOfBounds))
      case Failed(msg, _) => Finished(Err(msg))
      case Parsed(program, _) => Finished(EvalProgram(program, fuel))
  }

  /** An empty source text is worth `null`. */
  lemma InterpretEmpty(fuel: nat)
    ensures Interpret("", fuel) == Finished(Ok(NULL))
  {
    LexEmpty();
    var tokens := Lex("").tokens;
    assert |tokens| == 1 && tokens[0].value == EOF;
    assert Parse(tokens) == Parsed(Program([]), NewParser(tokens));
  }

  /** A file that begins with digits followed by `_` never gets past the lexer, whatever follows. */
  lemma InterpretHangs(run: string, rest: string, fuel: nat)
    requires |run| > 0 && AllDigits(run)
    ensures Interpret(run + "_" + rest, fuel) == LexerHangs
  {
    LexUnderscoreInNumber(run, rest);
  }

  /**
   * Whenever the text gets past the lexer, the run ends: with the parser's
   * error message, its panic, or the evaluation's outcome.
   */
  lemma InterpretStages(input: string, fuel: nat)
    requires Lex(input).Lexed?
    ensures Interpret(input, fuel).Finished?
    ensures var r := Parse(Lex(input).tokens);
      && (r.Failed? ==> Interpret(input, fuel) == Finished(Err(r.msg)))
      && (r.Parsed? ==> Interpret(input, fuel) == Finished(EvalProgram(r.value, fuel)))
      && (r.Panicked? ==> Interpret(input, fuel) == Finished(Abort(IndexOutOfBounds)))
  {
  }

  /** A text with no `_` and no backslash always gets past the lexer, so its run ends. */
  lemma InterpretFinishes(input: string, fuel: nat)
    requires '_' !in input && '\\' !in input
    ensures Interpret(input, fuel).Finished?
  {
    LexReturns(input);
  }

  /**
   * The depth bound only cuts a run short: a run that ends other than by
   * running out ends the same way under every larger bound.
   */
  lemma InterpretFuel(input: string, f: nat, g: nat)
    requires f <= g
    ensures Interpret(input, f) != Finished(Abort(OutOfFuel)) ==> Interpret(input, g) == Interpret(input, f)
  {
    var lexed := Lex(input);
    if lexed.Lexed? {
      var r := Parse(lexed.tokens);
      if r.Parsed? {
        EvalFacts.FuelMonotone(r.value, f, g);
      }
    }
  }
}
