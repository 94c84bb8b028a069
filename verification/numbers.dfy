/**
 * Rust's `i64` as the program uses it: its range, `/` (which rounds toward
 * zero, unlike Dafny's Euclidean `/`), `to_string`, and `str::parse::<i64>`,
 * all stated over unbounded `int`.
 */
module Numbers {
  import opened Common

  const I64_MIN: int := -0x8000_0000_0000_0000
  const I64_MAX: int := 0x7fff_ffff_ffff_ffff

  newtype i64 = x: int | -0x8000_0000_0000_0000 <= x <= 0x7fff_ffff_ffff_ffff

  predicate InI64(x: int) {
    I64_MIN <= x <= I64_MAX
  }

  function Abs(x: int): nat {
    if x < 0 then -x else x
  }

  /**
   * Rust's integer `/`: the quotient truncated toward zero. The remainder
   * `a - q * b` is smaller than the divisor in magnitude and is either zero
   * or has the sign of the dividend.
   */
  function TruncDiv(a: int, b: int): (q: int)
    requires b != 0
    ensures Abs(a - q * b) < Abs(b)
    ensures a - q * b == 0 || (a - q * b < 0 <==> a < 0)
  {
    var m := Abs(a) / Abs(b);
    var r := Abs(a) % Abs(b);
    assert Abs(a) == m * Abs(b) + r;
    if (a < 0) == (b < 0) then
      assert a - m * b == (if a < 0 then -r else r);
      m
    else
      assert a - (-m) * b == (if a < 0 then -r else r);
      -m
  }

  /** The two properties of `TruncDiv` single out one quotient. */
  lemma TruncDivUnique(a: int, b: int, q: int)
    requires b != 0
    requires Abs(a - q * b) < Abs(b)
    requires a - q * b == 0 || (a - q * b < 0 <==> a < 0)
    ensures q == TruncDiv(a, b)
  {
    var p := TruncDiv(a, b);
    var r, s := a - q * b, a - p * b;
    assert (p - q) * b == r - s;
    assert Abs(r - s) < Abs(b);
    if p != q {
      NonzeroMultiple(p - q, b);
    }
  }

  lemma NonzeroMultiple(x: int, y: int)
    requires x != 0
    ensures Abs(x * y) >= Abs(y)
  {
    var m: int, n: int := Abs(x), Abs(y);
    MulGrows(m, n);
    assert x * y == m * n || x * y == -(m * n);
  }

  lemma MulGrows(m: nat, n: nat)
    requires m >= 1
    ensures m * n >= n
  {
    assert m * n == n + (m - 1) * n;
  }

  // ---------------------------------------------------------------------------
  // Decimal digits

  predicate IsDigit(c: char) {
    '0' <= c <= '9'
  }

  predicate AllDigits(s: string) {
    forall i :: 0 <= i < |s| ==> IsDigit(s[i])
  }

  function DigitValue(c: char): nat
    requires IsDigit(c)
  {
    c as int - '0' as int
  }

  function DigitChar(d: nat): (c: char)
    requires d < 10
    ensures IsDigit(c) && DigitValue(c) == d
  {
    ('0' as int + d) as char
  }

  /** Reads the digits of `s` left to right onto the running value `acc`. */
  function DigitsFold(acc: int, s: string): (r: int)
    requires AllDigits(s)
    ensures acc >= 0 ==> r >= acc
    decreases |s|
  {
    if |s| == 0 then acc else DigitsFold(acc * 10 + DigitValue(s[0]), s[1..])
  }

  /** The number a digit string denotes. */
  function DigitsValue(s: string): nat
    requires AllDigits(s)
  {
    DigitsFold(0, s)
  }

  lemma {:induction false} DigitsFoldSnoc(acc: int, s: string, c: char)
    requires AllDigits(s) && IsDigit(c)
    ensures AllDigits(s + [c])
    ensures DigitsFold(acc, s + [c]) == DigitsFold(acc, s) * 10 + DigitValue(c)
    decreases |s|
  {
    if |s| == 0 {
      assert s + [c] == [c];
    } else {
      assert (s + [c])[1..] == s[1..] + [c];
      DigitsFoldSnoc(acc * 10 + DigitValue(s[0]), s[1..], c);
    }
  }

  /** `to_string` of a non-negative integer: its shortest decimal spelling. */
  function NatToString(n: nat): (s: string)
    ensures |s| > 0 && AllDigits(s)
    ensures DigitsValue(s) == n
    ensures |s| > 1 ==> s[0] != '0'
  {
    if n < 10 then
      assert DigitsFold(0, [DigitChar(n)]) == DigitsFold(n, []);
      [DigitChar(n)]
    else
      var t := NatToString(n / 10);
      DigitsFoldSnoc(0, t, DigitChar(n % 10));
      t + [DigitChar(n % 10)]
  }

  /** `to_string` of an `i64`: a minus sign for negatives, then the digits. */
  function IntToString(x: int): (s: string)
    ensures |s| > 0
    ensures forall i :: 0 <= i < |s| ==> IsDigit(s[i]) || (i == 0 && s[i] == '-')
  {
    if x < 0 then "-" + NatToString(-x) else NatToString(x)
  }

  // ---------------------------------------------------------------------------
  // `str::parse::<i64>` from the Rust standard library, with its messages.

  const EMPTY_MSG := "cannot parse integer from empty string"
  const INVALID_DIGIT_MSG := "invalid digit found in string"
  const TOO_LARGE_MSG := "number too large to fit in target type"
  const TOO_SMALL_MSG := "number too small to fit in target type"

  /**
   * Parses an optional sign and then decimal digits, reporting the first
   * non-digit or the first digit that takes the value out of range.
   */
  function ParseI64(s: string): (r: Outcome<i64>)
    ensures !r.Abort?
  {
    if |s| == 0 then Err(EMPTY_MSG)
    else if (s[0] == '+' || s[0] == '-') && |s| == 1 then Err(INVALID_DIGIT_MSG)
    else if s[0] == '-' then Accumulate(s[1..], 0, true)
    else if s[0] == '+' then Accumulate(s[1..], 0, false)
    else Accumulate(s, 0, false)
  }

  function Accumulate(digits: string, acc: int, negative: bool): (r: Outcome<i64>)
    requires InI64(acc)
    ensures !r.Abort?
    decreases |digits|
  {
    if |digits| == 0 then Ok(acc as i64)
    else if !IsDigit(digits[0]) then Err(INVALID_DIGIT_MSG)
    else
      var next := if negative then acc * 10 - DigitValue(digits[0]) else acc * 10 + DigitValue(digits[0]);
      if next > I64_MAX then Err(TOO_LARGE_MSG)
      else if next < I64_MIN then Err(TOO_SMALL_MSG)
      else Accumulate(digits[1..], next, negative)
  }

  lemma {:induction false} AccumulateUp(s: string, acc: int)
    requires AllDigits(s) && 0 <= acc
    requires DigitsFold(acc, s) <= I64_MAX
    ensures Accumulate(s, acc, false) == Ok(DigitsFold(acc, s) as i64)
    decreases |s|
  {
    if |s| > 0 {
      AccumulateUp(s[1..], acc * 10 + DigitValue(s[0]));
    }
  }

  lemma {:induction false} AccumulateDown(s: string, acc: int)
    requires AllDigits(s) && 0 <= acc
    requires DigitsFold(acc, s) <= -I64_MIN
    ensures Accumulate(s, -acc, true) == Ok((-DigitsFold(acc, s)) as i64)
    decreases |s|
  {
    if |s| > 0 {
      var next := acc * 10 + DigitValue(s[0]);
      assert -acc * 10 - DigitValue(s[0]) == -next;
      AccumulateDown(s[1..], next);
    }
  }

  lemma {:induction false} AccumulateTooLarge(s: string, acc: int)
    requires AllDigits(s) && 0 <= acc <= I64_MAX
    requires DigitsFold(acc, s) > I64_MAX
    ensures Accumulate(s, acc, false) == Err(TOO_LARGE_MSG)
    decreases |s|
  {
    var next := acc * 10 + DigitValue(s[0]);
    if next <= I64_MAX {
      AccumulateTooLarge(s[1..], next);
    }
  }

  /**
   * A digit run, as the lexer produces for an integer literal, parses to the
   * number it denotes when that fits in an i64, and fails with the standard
   * library's overflow message otherwise.
   */
  lemma ParseDigitRun(s: string)
    requires |s| > 0 && AllDigits(s)
    ensures DigitsValue(s) <= I64_MAX ==> ParseI64(s) == Ok(DigitsValue(s) as i64)
    ensures DigitsValue(s) > I64_MAX ==> ParseI64(s) == Err(TOO_LARGE_MSG)
  {
    assert IsDigit(s[0]);
    if DigitsValue(s) <= I64_MAX {
      AccumulateUp(s, 0);
    } else {
      AccumulateTooLarge(s, 0);
    }
  }

  /** Reading back what `to_string` wrote gives the same i64. */
  lemma ParseRendered(x: i64)
    ensures ParseI64(IntToString(x as int)) == Ok(x)
  {
    var n := Abs(x as int);
    var digits := NatToString(n);
    if x < 0 {
      assert IntToString(x as int) == "-" + digits;
      assert ("-" + digits)[1..] == digits;
      AccumulateDown(digits, 0);
    } else {
      assert IsDigit(digits[0]);
      AccumulateUp(digits, 0);
    }
  }
}
