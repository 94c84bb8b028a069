/**
 * Runtime values (src/eval/value.rs): a primitive or a function, with the
 * type name error messages quote and the text `value()` renders.
 */
module Values {
  import opened Common
  import opened Numbers
  import opened Syntax

  datatype Value = Prim(prim: Primitive) | Func(fn: Function)

  /** The value of a statement list with no statements. */
  const NULL: Value := Prim(NullLit)

  /** The `Display` of a value: a primitive's type name, or "function". */
  function TypeName(v: Value): (s: string)
    ensures |s| > 0
  {
    match v
    case Prim(p) => PrimitiveTypeName(p)
    case Func(_) => "function"
  }

  /**
   * `value()`: the text a value prints as. A float's text is not modelled
   * (`None`).
   */
  function Render(v: Value): (s: Option<string>)
    ensures s.None? <==> v == Prim(FloatLit)
  {
    match v
    case Prim(IntLit(n)) => Some(IntToString(n as int))
    case Prim(FloatLit) => None
    case Prim(StrLit(s)) => Some(s)
    case Prim(BoolLit(b)) => Some(if b then "true" else "false")
    case Prim(NullLit) => Some("null")
    case Func(_) => Some("function")
  }

  /** Every type name but "function" belongs to a primitive, so a function is never mistaken for one. */
  lemma TypeNameSeparatesFunctions(v: Value)
    ensures TypeName(v) == "function" <==> v.Func?
  {
    if v.Prim? {
      var s := TypeName(v);
      assert s[0] != 'f' || s == "float";
    }
  }

  /** An integer prints as text that `str::parse::<i64>` reads back to the same integer. */
  lemma RenderIntegerRoundTrip(n: i64)
    ensures Render(Prim(IntLit(n))).Some?
    ensures ParseI64(Render(Prim(IntLit(n))).value) == Ok(n)
  {
    ParseRendered(n);
  }
}
