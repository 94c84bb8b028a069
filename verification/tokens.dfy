/**
 * The token vocabulary of the lexer (src/lexer/token.rs): token values,
 * source spans, and the display names that parser error messages quote.
 */
module Tokens {
  import opened Common
  import opened Numbers

  datatype TokenValue =
    | EOF
    | Semicolon
    | Newline
    | LeftParen
    | RightParen
    | LeftBracket
    | RightBracket
    | BlockStart
    | BlockEnd
    | If
    | Elif
    | Else
    | Assign
    | Equal
    | Plus
    | Minus
    | Asterisk
    | Slash
    | Bang
    | And
    | Or
    | Integer(text: string)
    | Float(text: string)
    | String(text: string)
    | True
    | False
    | Ident(text: string)
    | Illegal(text: string)

  /**
   * A source span. The program stores `i32`s; the model uses `int` (see the
   * README for the overflow this leaves out).
   */
  datatype Location = Location(lineStart: int, lineStop: int, colStart: int, colStop: int)

  /** `Token::new` is this constructor: it keeps its value and span as given. */
  datatype Token = Token(value: TokenValue, loc: Location)

  /** `Location::new`: a span opened at a line and column whose end is still unset. */
  function NewLocation(lineStart: int, colStart: int): (l: Location)
    ensures l.lineStart == lineStart && l.colStart == colStart
    ensures l.lineStop == 0 && l.colStop == 0
  {
    Location(lineStart, 0, colStart, 0)
  }

  /** `Location::stop`: a copy of the span with a new end. */
  function Stop(l: Location, lineStop: int, colStop: int): (r: Location)
    ensures r.lineStart == l.lineStart && r.colStart == l.colStart
    ensures r.lineStop == lineStop && r.colStop == colStop
  {
    Location(l.lineStart, lineStop, l.colStart, colStop)
  }

  /** Closing a span twice is closing it once with the later end; opening then closing fills all four fields. */
  lemma StopLaws(l: Location, a: int, b: int, c: int, d: int)
    ensures Stop(Stop(l, a, b), c, d) == Stop(l, c, d)
    ensures Stop(NewLocation(a, b), c, d) == Location(a, c, b, d)
  {
  }

  predicate IsPayloadFree(v: TokenValue) {
    !(v.Integer? || v.Float? || v.String? || v.Ident? || v.Illegal?)
  }

  /** The `Display` of a token value: a fixed name, or a kind prefix and the payload. */
  function TokenName(v: TokenValue): (s: string)
    ensures |s| > 0
  {
    match v
    case EOF => "eof"
    case Semicolon => "semicolon"
    case Newline => "newline"
    case LeftParen => "left paren"
    case RightParen => "right paren"
    case LeftBracket => "left bracket"
    case RightBracket => "right bracket"
    case If => "if"
    case Elif => "elif"
    case Else => "else"
    case Assign => "assign"
    case Equal => "equal"
    case Plus => "plus"
    case Minus => "minus"
    case Asterisk => "asterisk"
    case Slash => "slash"
    case Bang => "bang"
    case And => "and"
    case Or => "or"
    case BlockStart => "block start"
    case BlockEnd => "block end"
    case Integer(t) => "integer: " + t
    case Float(t) => "float: " + t
    case String(t) => "string: " + t
    case True => "boolean: true"
    case False => "boolean: false"
    case Ident(t) => "ident: " + t
    case Illegal(t) => "illegal: " + t
  }

  predicate HasPrefix(s: string, p: string) {
    |p| <= |s| && s[..|p|] == p
  }

  /** Reads a display name back into the token value it names. */
  function TokenFromName(s: string): Option<TokenValue> {
    if HasPrefix(s, "integer: ") then Some(Integer(s[9..]))
    else if HasPrefix(s, "float: ") then Some(Float(s[7..]))
    else if HasPrefix(s, "string: ") then Some(String(s[8..]))
    else if HasPrefix(s, "ident: ") then Some(Ident(s[7..]))
    else if HasPrefix(s, "illegal: ") then Some(Illegal(s[9..]))
    else FixedFromName(s)
  }

  /** The token values whose display name is fixed, read back from that name by its first letter. */
  function FixedFromName(s: string): Option<TokenValue> {
    if |s| == 0 then None
    else match s[0]
      case 'a' =>
        if s == "assign" then Some(Assign)
        else if s == "asterisk" then Some(Asterisk)
        else if s == "and" then Some(And)
        else None
      case 'b' =>
        if s == "bang" then Some(Bang)
        else if s == "block start" then Some(BlockStart)
        else if s == "block end" then Some(BlockEnd)
        else if s == "boolean: true" then Some(True)
        else if s == "boolean: false" then Some(False)
        else None
      case 'e' =>
        if s == "eof" then Some(EOF)
        else if s == "elif" then Some(Elif)
        else if s == "else" then Some(Else)
        else if s == "equal" then Some(Equal)
        else None
      case 'i' => if s == "if" then Some(If) else None
      case 'l' =>
        if s == "left paren" then Some(LeftParen)
        else if s == "left bracket" then Some(LeftBracket)
        else None
      case 'm' => if s == "minus" then Some(Minus) else None
      case 'n' => if s == "newline" then Some(Newline) else None
      case 'o' => if s == "or" then Some(Or) else None
      case 'p' => if s == "plus" then Some(Plus) else None
      case 'r' =>
        if s == "right paren" then Some(RightParen)
        else if s == "right bracket" then Some(RightBracket)
        else None
      case 's' =>
        if s == "semicolon" then Some(Semicolon)
        else if s == "slash" then Some(Slash)
        else None
      case _ => None
  }

  /**
   * Every display name identifies its token value, so the token an error
   * message quotes is never ambiguous.
   */
  lemma TokenNameRoundTrip(v: TokenValue)
    ensures TokenFromName(TokenName(v)) == Some(v)
  {
    match v
    case Integer(t) => IntegerNameRoundTrip(t);
    case Float(t) => FloatNameRoundTrip(t);
    case String(t) => StringNameRoundTrip(t);
    case Ident(t) => IdentNameRoundTrip(t);
    case Illegal(t) => IllegalNameRoundTrip(t);
    case _ => FixedNameRoundTrip(v);
  }

  lemma FixedNameRoundTrip(v: TokenValue)
    requires IsPayloadFree(v)
    ensures TokenFromName(TokenName(v)) == Some(v)
  {
    if v == Assign || v == Asterisk || v == And || v == Bang || v == BlockStart || v == BlockEnd {
      FixedNamesA(v);
    } else if v == True || v == False || v == EOF || v == Elif || v == Else || v == Equal {
      FixedNamesB(v);
    } else if v == If || v == LeftParen || v == LeftBracket || v == Minus || v == Newline || v == Or {
      FixedNamesC(v);
    } else if v == Plus || v == RightParen || v == RightBracket || v == Semicolon || v == Slash {
      FixedNamesD(v);
    }
  }

  /** The fixed names read back, a few at a time. */
  lemma FixedNamesA(v: TokenValue)
    requires v == Assign || v == Asterisk || v == And || v == Bang || v == BlockStart || v == BlockEnd
    ensures TokenFromName(TokenName(v)) == Some(v)
  {
    match v
    case Assign => NoPayloadPrefix("assign");
    case Asterisk => NoPayloadPrefix("asterisk");
    case And => NoPayloadPrefix("and");
    case Bang => NoPayloadPrefix("bang");
    case BlockStart => NoPayloadPrefix("block start");
    case BlockEnd => NoPayloadPrefix("block end");
  }

  lemma FixedNamesB(v: TokenValue)
    requires v == True || v == False || v == EOF || v == Elif || v == Else || v == Equal
    ensures TokenFromName(TokenName(v)) == Some(v)
  {
    match v
    case True => NoPayloadPrefix("boolean: true");
    case False => NoPayloadPrefix("boolean: false");
    case EOF => NoPayloadPrefix("eof");
    case Elif => NoPayloadPrefix("elif");
    case Else => NoPayloadPrefix("else");
    case Equal => NoPayloadPrefix("equal");
  }

  lemma FixedNamesC(v: TokenValue)
    requires v == If || v == LeftParen || v == LeftBracket || v == Minus || v == Newline || v == Or
    ensures TokenFromName(TokenName(v)) == Some(v)
  {
    match v
    case If => NoPayloadPrefix("if");
    case LeftParen => NoPayloadPrefix("left paren");
    case LeftBracket => NoPayloadPrefix("left bracket");
    case Minus => NoPayloadPrefix("minus");
    case Newline => NoPayloadPrefix("newline");
    case Or => NoPayloadPrefix("or");
  }

  lemma FixedNamesD(v: TokenValue)
    requires v == Plus || v == RightParen || v == RightBracket || v == Semicolon || v == Slash
    ensures TokenFromName(TokenName(v)) == Some(v)
  {
    match v
    case Plus => NoPayloadPrefix("plus");
    case RightParen => NoPayloadPrefix("right paren");
    case RightBracket => NoPayloadPrefix("right bracket");
    case Semicolon => NoPayloadPrefix("semicolon");
    case Slash => NoPayloadPrefix("slash");
  }

  /** No fixed name starts like a name with a payload. */
  lemma NoPayloadPrefix(s: string)
    requires ':' !in s || (|s| > 0 && s[0] == 'b')
    ensures TokenFromName(s) == FixedFromName(s)
  {
    if |s| >= 7 {
      assert s[..7][0] == s[0] && s[..7][5] == s[5];
    }
    if |s| >= 8 {
      assert s[..8][0] == s[0] && s[..8][6] == s[6];
    }
    if |s| >= 9 {
      assert s[..9][0] == s[0] && s[..9][7] == s[7];
    }
  }

  lemma IntegerNameRoundTrip(t: string)
    ensures TokenFromName(TokenName(Integer(t))) == Some(Integer(t))
  {
    var s := "integer: " + t;
    assert s[..9] == "integer: " && s[9..] == t;
    assert s[0] == 'i' && s[1] == 'n';
  }

  lemma FloatNameRoundTrip(t: string)
    ensures TokenFromName(TokenName(Float(t))) == Some(Float(t))
  {
    var s := "float: " + t;
    assert s[..7] == "float: " && s[7..] == t;
    assert s[0] == 'f' && s[1] == 'l';
  }

  lemma StringNameRoundTrip(t: string)
    ensures TokenFromName(TokenName(String(t))) == Some(String(t))
  {
    var s := "string: " + t;
    assert s[..8] == "string: " && s[8..] == t;
    assert s[0] == 's' && s[1] == 't';
  }

  lemma IdentNameRoundTrip(t: string)
    ensures TokenFromName(TokenName(Ident(t))) == Some(Ident(t))
  {
    var s := "ident: " + t;
    assert s[..7] == "ident: " && s[7..] == t;
    assert s[0] == 'i' && s[1] == 'd';
  }

  lemma IllegalNameRoundTrip(t: string)
    ensures TokenFromName(TokenName(Illegal(t))) == Some(Illegal(t))
  {
    var s := "illegal: " + t;
    assert s[..9] == "illegal: " && s[9..] == t;
    assert s[0] == 'i' && s[1] == 'l';
  }

  lemma TokenNameInjective(v: TokenValue, w: TokenValue)
    ensures TokenName(v) == TokenName(w) ==> v == w
  {
    TokenNameRoundTrip(v);
    TokenNameRoundTrip(w);
  }

  // ---------------------------------------------------------------------------
  // Display of a span: `line_start:line_stop, col_start:col_stop`.

  function LocationText(l: Location): (s: string)
    ensures InI64(l.lineStart) && InI64(l.lineStop) && InI64(l.colStart) && InI64(l.colStop)
      ==> ParseLocationText(s) == Some(l)
  {
    var a, b, c, d := IntToString(l.lineStart), IntToString(l.lineStop),
                      IntToString(l.colStart), IntToString(l.colStop);
    var s := a + ":" + b + ", " + c + ":" + d;
    if InI64(l.lineStart) && InI64(l.lineStop) && InI64(l.colStart) && InI64(l.colStop) then
      LocationTextReads(l, a, b, c, d);
      s
    else
      s
  }

  /** The text before the first `sep` and the text after it. */
  function SplitAt(s: string, sep: char): (r: Option<(string, string)>)
    ensures r.Some? ==> s == r.value.0 + [sep] + r.value.1 && sep !in r.value.0
    decreases |s|
  {
    if |s| == 0 then None
    else if s[0] == sep then Some(([], s[1..]))
    else
      match SplitAt(s[1..], sep)
      case None => None
      case Some((u, v)) => Some(([s[0]] + u, v))
  }

  function ParseLocationText(s: string): Option<Location> {
    match SplitAt(s, ':')
    case None => None
    case Some((a, s1)) =>
      match SplitAt(s1, ',')
      case None => None
      case Some((b, s2)) =>
        if |s2| == 0 || s2[0] != ' ' then None
        else
          match SplitAt(s2[1..], ':')
          case None => None
          case Some((c, d)) =>
            match (ParseI64(a), ParseI64(b), ParseI64(c), ParseI64(d))
            case (Ok(x), Ok(y), Ok(z), Ok(w)) => Some(Location(x as int, y as int, z as int, w as int))
            case _ => None
  }

  lemma {:induction false} SplitAtFirst(u: string, sep: char, rest: string)
    requires sep !in u
    ensures SplitAt(u + [sep] + rest, sep) == Some((u, rest))
    decreases |u|
  {
    if |u| == 0 {
      assert u + [sep] + rest == [sep] + rest;
    } else {
      assert (u + [sep] + rest)[1..] == u[1..] + [sep] + rest;
      SplitAtFirst(u[1..], sep, rest);
      assert [u[0]] + u[1..] == u;
    }
  }

  lemma IntTextHasNo(x: int, c: char)
    requires c != '-' && !IsDigit(c)
    ensures c !in IntToString(x)
  {
    var s := IntToString(x);
    forall i | 0 <= i < |s| ensures s[i] != c {}
  }

  /** The rendered span cut at its three separators. */
  lemma LocationTextPieces(a: string, b: string, c: string, d: string)
    ensures a + ":" + b + ", " + c + ":" + d == a + [':'] + (b + [','] + (" " + c + ":" + d))
    ensures (" " + c + ":" + d)[1..] == c + [':'] + d
  {
    var s2 := " " + c + ":" + d;
    var s1 := b + [','] + s2;
    assert b + ", " + c + ":" + d == s1;
    assert a + ":" + b + ", " + c + ":" + d == a + [':'] + (b + ", " + c + ":" + d);
  }

  lemma LocationTextReads(l: Location, a: string, b: string, c: string, d: string)
    requires InI64(l.lineStart) && InI64(l.lineStop) && InI64(l.colStart) && InI64(l.colStop)
    requires a == IntToString(l.lineStart) && b == IntToString(l.lineStop)
    requires c == IntToString(l.colStart) && d == IntToString(l.colStop)
    ensures ParseLocationText(a + ":" + b + ", " + c + ":" + d) == Some(l)
  {
    IntTextHasNo(l.lineStart, ':');
    IntTextHasNo(l.lineStop, ',');
    IntTextHasNo(l.colStart, ':');
    var s := a + ":" + b + ", " + c + ":" + d;
    var s2 := " " + c + ":" + d;
    var s1 := b + [','] + s2;
    LocationTextPieces(a, b, c, d);
    SplitAtFirst(a, ':', s1);
    assert SplitAt(s, ':') == Some((a, s1));
    SplitAtFirst(b, ',', s2);
    assert |s2| > 0 && s2[0] == ' ';
    SplitAtFirst(c, ':', d);
    assert SplitAt(s2[1..], ':') == Some((c, d));
    ParseRendered(l.lineStart as i64);
    ParseRendered(l.lineStop as i64);
    ParseRendered(l.colStart as i64);
    ParseRendered(l.colStop as i64);
    assert ParseI64(a) == Ok(l.lineStart as i64) && ParseI64(b) == Ok(l.lineStop as i64);
    assert ParseI64(c) == Ok(l.colStart as i64) && ParseI64(d) == Ok(l.colStop as i64);
  }
}
