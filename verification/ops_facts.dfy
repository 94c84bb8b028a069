/**
 * What operator arithmetic computes: the exact sum, difference, product and
 * quotient whenever `i64` does not overflow, the type of every result, and
 * which operand a type error names.
 */
module OpsFacts {
  import opened Common
  import opened Numbers
  import opened Syntax
  import opened Values
  import opened Ops

  predicate AllInts(ps: seq<Primitive>) {
    forall i :: 0 <= i < |ps| ==> ps[i].IntLit?
  }

  lemma IntsTail(ps: seq<Primitive>)
    requires |ps| > 0 && AllInts(ps)
    ensures AllInts(ps[1..]) && Ints(ps[1..]) == Ints(ps)[1..]
  {
  }

  // ---------------------------------------------------------------------------
  // `+` on integers

  /** A sum that does not panic is the exact sum. */
  lemma {:induction false} CheckedSumExact(acc: int, xs: seq<int>)
    ensures CheckedSum(acc, xs).Ok? ==> CheckedSum(acc, xs).value as int == acc + Sum(xs)
    decreases |xs|
  {
    if |xs| > 0 && InI64(acc + xs[0]) {
      CheckedSumExact(acc + xs[0], xs[1..]);
    }
  }

  /** A sum whose operands' magnitudes fit in an `i64` never overflows. */
  lemma {:induction false} CheckedSumFits(acc: int, xs: seq<int>)
    requires Abs(acc) + SumAbs(xs) <= I64_MAX
    ensures CheckedSum(acc, xs).Ok?
    decreases |xs|
  {
    if |xs| > 0 {
      CheckedSumFits(acc + xs[0], xs[1..]);
    }
  }

  /** Overflow is checked at each partial sum, so a sum that only ends in range can still panic. */
  lemma PartialSumOverflows(x: i64)
    requires x as int == I64_MAX
    ensures CheckedSum(0, [x as int, 1, -1]) == Abort(Overflow)
    ensures InI64(Sum([x as int, 1, -1]))
  {
    var xs := [x as int, 1, -1];
    assert xs[1..] == [1, -1] && xs[1..][1..] == [-1] && xs[1..][1..][1..] == [];
    assert CheckedSum(x as int, [1, -1]) == Abort(Overflow);
    assert Sum(xs) == x as int;
  }

  // ---------------------------------------------------------------------------
  // The integer folds

  /** `-` on integers subtracts every later operand from the first. */
  lemma {:induction false} SubtractExact(acc: i64, rest: seq<Primitive>)
    requires AllInts(rest)
    ensures var r := IntFold(Subtract, acc, rest);
      r.Ok? ==> r.value.prim.n as int == acc as int - Sum(Ints(rest))
    ensures Abs(acc as int) + SumAbs(Ints(rest)) <= I64_MAX ==> IntFold(Subtract, acc, rest).Ok?
    decreases |rest|
  {
    if |rest| > 0 {
      IntsTail(rest);
      var v := rest[0].n;
      var x := acc as int - v as int;
      if InI64(x) {
        SubtractExact(x as i64, rest[1..]);
      }
    }
  }

  /** `*` on integers multiplies all operands. */
  lemma {:induction false} MultiplyExact(acc: i64, rest: seq<Primitive>)
    requires AllInts(rest)
    ensures var r := IntFold(Multiply, acc, rest);
      r.Ok? ==> r.value.prim.n as int == acc as int * Product(Ints(rest))
    decreases |rest|
  {
    if |rest| > 0 {
      IntsTail(rest);
      var v := rest[0].n;
      var x := acc as int * v as int;
      if InI64(x) {
        MultiplyExact(x as i64, rest[1..]);
        assert acc as int * (v as int * Product(Ints(rest)[1..])) == x * Product(Ints(rest)[1..]);
      }
    }
  }

  /** A truncated quotient is no larger in magnitude than its dividend. */
  lemma TruncDivShrinks(a: int, b: int)
    requires b != 0
    ensures Abs(TruncDiv(a, b)) <= Abs(a)
  {
    var q := TruncDiv(a, b);
    var r := a - q * b;
    if q != 0 {
      NonzeroMultiple(q, b);
      assert Abs(q * b) >= Abs(b);
      MulGrows(Abs(q), Abs(b));
      assert Abs(q * b) == Abs(q) * Abs(b) by {
        assert q * b == Abs(q) * Abs(b) || q * b == -(Abs(q) * Abs(b));
      }
      assert Abs(q) <= Abs(q) * Abs(b) by {
        assert Abs(b) >= 1;
        MulGrows(Abs(b), Abs(q));
      }
    }
  }

  /**
   * `/` on integers divides left to right, truncating each quotient. It
   * cannot overflow unless the running value is `i64::MIN`; a zero divisor
   * panics when it is reached.
   */
  lemma {:induction false} DivideExact(acc: i64, rest: seq<Primitive>)
    requires AllInts(rest)
    ensures var r := IntFold(Divide, acc, rest);
      NoZero(Ints(rest)) && acc as int > I64_MIN ==>
        r.Ok? && r.value.prim.n as int == Quotient(acc as int, Ints(rest))
    ensures var r := IntFold(Divide, acc, rest);
      r.Ok? ==> NoZero(Ints(rest))
    decreases |rest|
  {
    if |rest| > 0 {
      IntsTail(rest);
      var v := rest[0].n;
      if v != 0 {
        var q := TruncDiv(acc as int, v as int);
        TruncDivShrinks(acc as int, v as int);
        if InI64(q) {
          DivideExact(q as i64, rest[1..]);
        }
      }
    }
  }

  /** `/ x 0` panics for every integer `x`. */
  lemma DivideByZeroPanics(x: i64, rest: seq<Primitive>)
    ensures EvalArithmetic(Divide, [IntLit(x), IntLit(0)] + rest) == Abort(DivideByZero)
  {
    assert ([IntLit(x), IntLit(0)] + rest)[1..] == [IntLit(0)] + rest;
  }

  /** `/ i64::MIN -1` overflows. */
  lemma DivideOverflows()
    ensures EvalArithmetic(Divide, [IntLit(I64_MIN as i64), IntLit(-1)]) == Abort(Overflow)
  {
    assert TruncDiv(I64_MIN, -1) == -I64_MIN by {
      TruncDivUnique(I64_MIN, -1, -I64_MIN);
    }
  }

  // ---------------------------------------------------------------------------
  // `+` on strings

  /** Strings are joined left to right: adding one more operand appends its text. */
  lemma {:induction false} ConcatSnoc(ps: seq<Primitive>, t: string)
    requires forall i :: 0 <= i < |ps| ==> ps[i].StrLit?
    ensures forall i :: 0 <= i < |ps + [StrLit(t)]| ==> (ps + [StrLit(t)])[i].StrLit?
    ensures Concat(ps + [StrLit(t)]) == Concat(ps) + t
    decreases |ps|
  {
    if |ps| == 0 {
      assert ps + [StrLit(t)] == [StrLit(t)];
      assert t + "" == t;
    } else {
      assert (ps + [StrLit(t)])[1..] == ps[1..] + [StrLit(t)];
      ConcatSnoc(ps[1..], t);
      assert ps[0].s + (Concat(ps[1..]) + t) == (ps[0].s + Concat(ps[1..])) + t;
    }
  }

  /** `+ "a" "b"` is `"ab"`. */
  lemma AddStrings(a: string, b: string)
    ensures EvalArithmetic(Add, [StrLit(a), StrLit(b)]) == Ok(Prim(StrLit(a + b)))
  {
    var vs := [StrLit(a), StrLit(b)];
    assert vs[1..] == [StrLit(b)];
    assert Mismatch(StrLit(a), vs[1..]) == None;
    assert a + "" == a;
    assert Concat([StrLit(a)]) == a;
    ConcatSnoc([StrLit(a)], b);
    assert vs == [StrLit(a)] + [StrLit(b)];
    assert Concat(vs) == a + b;
  }

  // ---------------------------------------------------------------------------
  // Types

  /** The mismatch found depends on the first operand only through its type. */
  lemma {:induction false} MismatchByType(first: Primitive, other: Primitive, rest: seq<Primitive>)
    requires SameType(first, other)
    ensures Mismatch(first, rest) == Mismatch(other, rest)
    decreases |rest|
  {
    if |rest| > 0 {
      MismatchByType(first, other, rest[1..]);
    }
  }

  /**
   * An integer fold ends in a type error exactly at the first operand that is
   * not an integer, and only if no panic came first; it succeeds only when
   * every operand is an integer.
   */
  lemma {:induction false} IntFoldTypes(k: OperatorKind, acc: i64, rest: seq<Primitive>)
    requires k == Subtract || k == Multiply || k == Divide
    ensures var r := IntFold(k, acc, rest);
      && (r.Err? ==> Mismatch(IntLit(acc), rest).Some? && r.msg == MismatchMessage(k, IntLit(acc), Mismatch(IntLit(acc), rest).value))
      && (r.Ok? ==> Mismatch(IntLit(acc), rest).None?)
    decreases |rest|
  {
    if |rest| > 0 && rest[0].IntLit? {
      var s := IntStep(k, acc, rest[0].n);
      if s.Ok? {
        IntFoldTypes(k, s.value, rest[1..]);
        MismatchByType(IntLit(acc), IntLit(s.value), rest[1..]);
      }
    }
  }

  /** The operation has a rule for operands of `first`'s type. */
  predicate HasRule(k: OperatorKind, first: Primitive) {
    first.IntLit? || first.FloatLit? || (first.StrLit? && k == Add)
  }

  /**
   * Every result has the first operand's type, and a later operand of
   * another type is never accepted. When the operation has a rule for the
   * first operand's type, a type error names the first such operand; for `+`
   * or a float first operand that error is the result, while an integer
   * `- * /` may panic before reaching it.
   */
  lemma ResultType(k: OperatorKind, values: seq<Primitive>)
    requires IsArithmetic(k) && |values| > 0
    ensures var r := EvalArithmetic(k, values);
      r.Ok? ==> r.value.Prim? && SameType(r.value.prim, values[0]) && HasRule(k, values[0])
    ensures var r, m := EvalArithmetic(k, values), Mismatch(values[0], values[1..]);
      m.Some? ==> !r.Ok?
    ensures var r, m := EvalArithmetic(k, values), Mismatch(values[0], values[1..]);
      m.Some? && HasRule(k, values[0]) ==> (r.Err? ==> r.msg == MismatchMessage(k, values[0], m.value))
    ensures var r, m := EvalArithmetic(k, values), Mismatch(values[0], values[1..]);
      m.Some? && HasRule(k, values[0]) && (k == Add || values[0].FloatLit?) ==>
        r == Err(MismatchMessage(k, values[0], m.value))
  {
    var first, m := values[0], Mismatch(values[0], values[1..]);
    var r := EvalArithmetic(k, values);
    if k != Add && first.IntLit? {
      assert first == IntLit(first.n);
      IntFoldTypes(k, first.n, values[1..]);
      assert r == IntFold(k, first.n, values[1..]);
    } else if k == Add {
      assert r == EvalAdd(values);
    } else {
      assert r == EvalFold(k, values);
    }
  }

  /** A first operand the operation has no rule for is reported by its type name. */
  lemma UnsupportedFirst(k: OperatorKind, values: seq<Primitive>)
    requires IsArithmetic(k) && |values| > 0
    ensures !HasRule(k, values[0]) <==>
        EvalArithmetic(k, values) == Err(UnsupportedMessage(k, values[0]))
  {
    var first := values[0];
    var u := UnsupportedMessage(k, first);
    if HasRule(k, first) {
      var r := EvalArithmetic(k, values);
      if r.Err? {
        if k != Add && first.IntLit? {
          IntFoldTypes(k, first.n, values[1..]);
        }
        var m := Mismatch(first, values[1..]);
        assert m.Some? && r.msg == MismatchMessage(k, first, m.value);
        assert |r.msg| > |u|;
      }
    }
  }
}
