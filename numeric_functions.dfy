/** The numeric functions: `ceil`, `floor`, `abs`, `exp`, `ln`, `sqrt` (unary),
    `round`, `trunc` (unary with optional decimals), `mod`, `power`, `log`
    (binary). */
module NumericFunctions {
  import opened Values
  import opened Typed
  import Decimals

  /** The transcendental functions of `java.lang.Math`, given as parameters:
      the model states nulls, guards, errors and types, not their values. */
  datatype MathLib = MathLib(exp: real -> real, ln: real -> real, sqrt: real -> real, pow: (real, real) -> real)

  /** `(Number) e.resolve(ctx)` followed by the null check and `doubleValue()`. */
  function NumberOperand(r: Result<Value>): (n: Result<Option<real>>)
    ensures r == Ok(VNull) ==> n == Ok(None)
    ensures r.Ok? && IsNumber(r.value) ==> n == Ok(Some(DoubleValue(r.value)))
  {
    var v :- r;
    if v.VNull? then Ok(None)
    else if IsNumber(v) then Ok(Some(DoubleValue(v)))
    else Err(ClassCast)
  }

  // ---------------------------------------------------------------------------
  // Rounding to integers

  /** `Math.ceil`: the least integer not below `x`. */
  function CeilOf(x: real): (c: int)
    ensures x <= c as real < x + 1.0
  {
    -((-x).Floor)
  }

  /** `Math.floor`: the greatest integer not above `x`. */
  function FloorOf(x: real): (f: int)
    ensures f as real <= x < f as real + 1.0
  {
    x.Floor
  }

  /** Java `%` on doubles: the quotient truncated towards zero. */
  function TruncOf(x: real): int
  {
    if x >= 0.0 then FloorOf(x) else CeilOf(x)
  }

  // ---------------------------------------------------------------------------
  // Unary functions

  const UNARY_OPS: set<Token> := {Ceil, Floor, Abs, Exp, Ln, Sqrt}

  /** The value one unary lambda computes from a non-null operand. `Math.log`
      of a non-positive value is an infinity or NaN, reported as NonFinite. */
  function UnaryOf(lib: MathLib, op: Token, x: real): (r: Result<Value>)
    requires op in UNARY_OPS
    ensures r.Err? <==> (op == Ln && x <= 0.0) || (op == Sqrt && x < 0.0)
    ensures r.Ok? ==> (if op == Floor then r.value.VLong? else r.value.VDouble?)
    ensures op == Ceil ==> r.Ok? && r.value.VDouble? && x <= r.value.d < x + 1.0
    ensures op == Abs ==> r.Ok? && r.value.VDouble? && r.value.d >= 0.0 && (r.value.d == x || r.value.d == -x)
  {
    if op == Ceil then Ok(VDouble(CeilOf(x) as real))
    else if op == Floor then Ok(VLong(SaturateToLong(FloorOf(x))))
    else if op == Abs then Ok(VDouble(Decimals.Abs(x)))
    else if op == Exp then Ok(VDouble(lib.exp(x)))
    else if op == Ln then (if x <= 0.0 then Err(NonFinite) else Ok(VDouble(lib.ln(x))))
    else if x < 0.0 then Err(InvalidArgument("Sqrt operand has to be 0 or positive"))
    else Ok(VDouble(lib.sqrt(x)))
  }

  /** Every unary lambda checks for null first: a null operand gives null. */
  function UnaryAt(lib: MathLib, op: Token, r: Result<Value>): Result<Value>
    requires op in UNARY_OPS
  {
    var n :- NumberOperand(r);
    if n.None? then Ok(VNull) else UnaryOf(lib, op, n.value)
  }

  /** `visitUnaryNumeric`. `ceil` goes through a reflective call whose argument
      check is not part of this model; the model lets it accept what the number
      check accepts and report FunctionNotFound otherwise. */
  function VisitUnaryNumeric(lib: MathLib, op: Token, operand: TypedExpr): (r: Result<TypedExpr>)
    ensures op !in UNARY_OPS ==> r == Err(UnsupportedOperation("unknown operator"))
    ensures op in UNARY_OPS ==> (r.Ok? <==> operand.ty in NUMBER_TYPES)
    ensures op == Ceil && operand.ty !in NUMBER_TYPES ==> r == Err(FunctionNotFound("ceil"))
    ensures op in UNARY_OPS - {Ceil} && operand.ty !in NUMBER_TYPES ==>
              r == Err(InvalidType(operand.ty, NUMBER_TYPES))
    ensures r.Ok? ==> r.value.ty == if op == Floor then TLong else TDouble
  {
    if op !in UNARY_OPS then Err(UnsupportedOperation("unknown operator"))
    else if op == Ceil && operand.ty !in NUMBER_TYPES then Err(FunctionNotFound("ceil"))
    else
      var e :- AssertNumber(operand);
      Ok(TypedExpr(if op == Floor then TLong else TDouble, (b: Bindings) => UnaryAt(lib, op, e.eval(b))))
  }

  /** `f(null)` is null for each of the six unary functions. */
  lemma UnaryOfNullIsNull(lib: MathLib, op: Token, operand: TypedExpr, b: Bindings)
    requires op in UNARY_OPS && operand.ty in NUMBER_TYPES
    requires operand.eval(b) == Ok(VNull)
    ensures VisitUnaryNumeric(lib, op, operand).Ok?
    ensures VisitUnaryNumeric(lib, op, operand).value.eval(b) == Ok(VNull)
  {
  }

  /** What the unary functions compute on a number: `ceil` and `floor` bracket
      it (`floor` saturating at the `long` bounds), `abs` is its magnitude,
      `sqrt` refuses a negative operand. */
  lemma UnaryOnNumber(lib: MathLib, op: Token, operand: TypedExpr, b: Bindings, v: Value)
    requires op in UNARY_OPS && operand.ty in NUMBER_TYPES
    requires operand.eval(b) == Ok(v) && IsNumber(v)
    ensures var x := DoubleValue(v);
            var r := VisitUnaryNumeric(lib, op, operand).value.eval(b);
            (op == Ceil ==> r.Ok? && r.value.VDouble? && x <= r.value.d < x + 1.0 &&
                            r.value.d.Floor as real == r.value.d) &&
            (op == Floor ==> r.Ok? && r.value.VLong? && InLong(r.value.i) &&
                             (InLong(x.Floor) ==> r.value.i as real <= x < r.value.i as real + 1.0)) &&
            (op == Abs ==> r.Ok? && r.value.VDouble? && r.value.d >= 0.0 && (r.value.d == x || r.value.d == -x)) &&
            (op == Exp ==> r == Ok(VDouble(lib.exp(x)))) &&
            (op == Ln ==> r == if x <= 0.0 then Err(NonFinite) else Ok(VDouble(lib.ln(x)))) &&
            (op == Sqrt ==> r == if x < 0.0 then Err(InvalidArgument("Sqrt operand has to be 0 or positive"))
                                 else Ok(VDouble(lib.sqrt(x))))
  {
    var x := DoubleValue(v);
    assert NumberOperand(operand.eval(b)) == Ok(Some(x));
    if op == Ceil {
      var c := CeilOf(x);
      assert (c as real).Floor == c;
    }
  }

  // ---------------------------------------------------------------------------
  // round and trunc

  /** The decimal count: `(Long) decimalValue.resolve(ctx)`. */
  function LongOperand(r: Result<Value>): (n: Result<Option<int>>)
    ensures r.Ok? && r.value.VLong? ==> n == Ok(Some(r.value.i))
  {
    var v :- r;
    var c :- Cast(v, TLong);
    if c.VNull? then Ok(None) else Ok(Some(c.i))
  }

  /** One round/trunc lambda: the operand is resolved and null-checked first,
      then the decimal count; the scale is `decimalLong.intValue()`. */
  function SetScaleAt(halfUp: bool, xr: Result<Value>, dr: Result<Value>): (r: Result<Value>)
    ensures xr.Err? ==> r == Err(xr.error)
    ensures xr == Ok(VNull) ==> r == Ok(VNull)
    ensures xr.Ok? && IsNumber(xr.value) && dr == Ok(VNull) ==> r == Ok(VNull)
    ensures r.Ok? ==> r.value.VNull? || r.value.VDouble?
  {
    var x :- NumberOperand(xr);
    if x.None? then Ok(VNull)
    else
      var d :- LongOperand(dr);
      if d.None? then Ok(VNull)
      else
        var s := Wrap32(d.value);
        Ok(VDouble(if halfUp then Decimals.RoundHalfUp(x.value, s) else Decimals.RoundDown(x.value, s)))
  }

  /** `visitUnaryWithOptionalNumeric`: the operand must be a number, the decimal
      count (0 when omitted) a Long. */
  function VisitUnaryWithOptionalNumeric(op: Token, operand: TypedExpr, decimals: Option<TypedExpr>): (r: Result<TypedExpr>)
    ensures op != Round && op != Trunc ==> r == Err(UnsupportedOperation("unknown operator"))
    ensures (op == Round || op == Trunc) ==>
              (r.Ok? <==> operand.ty in NUMBER_TYPES && (decimals.Some? ==> decimals.value.ty in LONG_TYPES))
    ensures (op == Round || op == Trunc) && operand.ty !in NUMBER_TYPES ==>
              r == Err(InvalidType(operand.ty, NUMBER_TYPES))
    ensures (op == Round || op == Trunc) && operand.ty in NUMBER_TYPES && decimals.Some? &&
            decimals.value.ty !in LONG_TYPES ==>
              r == Err(InvalidType(decimals.value.ty, LONG_TYPES))
    ensures r.Ok? ==> r.value.ty == TDouble
  {
    if op != Round && op != Trunc then Err(UnsupportedOperation("unknown operator"))
    else
      var e :- AssertNumber(operand);
      var d :- if decimals.None? then Ok(Constant(VLong(0))) else AssertLong(decimals.value);
      Ok(TypedExpr(TDouble, (b: Bindings) => SetScaleAt(op == Round, e.eval(b), d.eval(b))))
  }

  /** An omitted decimal count behaves as the constant 0. */
  lemma DecimalsDefaultToZero(op: Token, operand: TypedExpr, b: Bindings)
    requires op == Round || op == Trunc
    requires operand.ty in NUMBER_TYPES
    ensures VisitUnaryWithOptionalNumeric(op, operand, None).Ok?
    ensures VisitUnaryWithOptionalNumeric(op, operand, None).value.eval(b) ==
            VisitUnaryWithOptionalNumeric(op, operand, Some(Constant(VLong(0)))).value.eval(b)
  {
  }

  /** A null operand, or a null decimal count, gives null. */
  lemma SetScaleNull(halfUp: bool, xr: Result<Value>, dr: Result<Value>)
    requires xr == Ok(VNull) || (xr.Ok? && IsNumber(xr.value) && dr == Ok(VNull))
    ensures SetScaleAt(halfUp, xr, dr) == Ok(VNull)
  {
  }

  /** On a number and a Long count `d`, `round` is HALF_UP and `trunc` is DOWN
      at scale `d` (as an `int`); `trunc` never grows the magnitude, and either
      applied twice is applied once. */
  lemma SetScaleOnNumber(x: real, d: int)
    ensures SetScaleAt(true, Ok(VDouble(x)), Ok(VLong(d))) == Ok(VDouble(Decimals.RoundHalfUp(x, Wrap32(d))))
    ensures SetScaleAt(false, Ok(VDouble(x)), Ok(VLong(d))) == Ok(VDouble(Decimals.RoundDown(x, Wrap32(d))))
    ensures Decimals.Abs(Decimals.RoundDown(x, Wrap32(d))) <= Decimals.Abs(x)
    ensures SetScaleAt(true, Ok(VDouble(Decimals.RoundHalfUp(x, Wrap32(d)))), Ok(VLong(d)))
            == SetScaleAt(true, Ok(VDouble(x)), Ok(VLong(d)))
    ensures SetScaleAt(false, Ok(VDouble(Decimals.RoundDown(x, Wrap32(d)))), Ok(VLong(d)))
            == SetScaleAt(false, Ok(VDouble(x)), Ok(VLong(d)))
  {
    Decimals.RoundDownBounds(x, Wrap32(d));
    Decimals.SetScaleIsIdempotent(x, Wrap32(d));
  }

  // ---------------------------------------------------------------------------
  // Binary functions

  const BINARY_OPS: set<Token> := {Mod, Power, Log}

  /** Java `%` on doubles: the remainder of the quotient truncated towards zero. */
  function Remainder(a: real, b: real): real
    requires b != 0.0
  {
    a - b * TruncOf(a / b) as real
  }

  /** The remainder has the dividend's sign (or is zero), is smaller than the
      divisor in magnitude, and differs from the dividend by a multiple of it. */
  lemma RemainderIsTruncated(a: real, b: real)
    requires b != 0.0
    ensures Decimals.Abs(Remainder(a, b)) < Decimals.Abs(b)
    ensures a >= 0.0 ==> Remainder(a, b) >= 0.0
    ensures a <= 0.0 ==> Remainder(a, b) <= 0.0
    ensures (a - Remainder(a, b)) / b == TruncOf(a / b) as real
  {
    RemainderSign(a, b);
    RemainderBound(a, b);
    RemainderQuotient(a, b);
  }

  lemma RemainderQuotient(a: real, b: real)
    requires b != 0.0
    ensures (a - Remainder(a, b)) / b == TruncOf(a / b) as real
  {
    var t := TruncOf(a / b) as real;
    var d := a - Remainder(a, b);
    assert d == b * t by {
      RemainderIsScaledFraction(a, b, TruncOf(a / b));
    }
    MulDivCancel(t, b);
  }

  lemma RemainderSign(a: real, b: real)
    requires b != 0.0
    ensures a >= 0.0 ==> Remainder(a, b) >= 0.0
    ensures a <= 0.0 ==> Remainder(a, b) <= 0.0
  {
    var q := a / b;
    var f := q - TruncOf(q) as real;
    RemainderIsScaledFraction(a, b, TruncOf(q));
    TruncFraction(q);
    QuotientSign(a, b);
    ProductSigns(b, f);
  }

  lemma RemainderBound(a: real, b: real)
    requires b != 0.0
    ensures Decimals.Abs(Remainder(a, b)) < Decimals.Abs(b)
  {
    var q := a / b;
    var f := q - TruncOf(q) as real;
    RemainderIsScaledFraction(a, b, TruncOf(q));
    TruncFraction(q);
    AbsOfProduct(b, f);
    ScaledFractionIsSmaller(Decimals.Abs(Remainder(a, b)), Decimals.Abs(b), Decimals.Abs(f));
  }

  lemma MulDivCancel(x: real, b: real)
    requires b != 0.0
    ensures (b * x) / b == x
  {
  }

  lemma RemainderIsScaledFraction(a: real, b: real, t: int)
    requires b != 0.0 && t == TruncOf(a / b)
    ensures Remainder(a, b) == b * (a / b - t as real)
    ensures a - Remainder(a, b) == b * t as real
  {
    assert a == b * (a / b);
  }

  /** Truncation leaves a fraction of the quotient's sign, below 1 in magnitude. */
  lemma TruncFraction(q: real)
    ensures q >= 0.0 ==> 0.0 <= q - TruncOf(q) as real < 1.0
    ensures q < 0.0 ==> -1.0 < q - TruncOf(q) as real <= 0.0
  {
  }

  lemma QuotientSign(a: real, b: real)
    requires b != 0.0
    ensures a >= 0.0 && b > 0.0 ==> a / b >= 0.0
    ensures a >= 0.0 && b < 0.0 ==> a / b <= 0.0
    ensures a <= 0.0 && b > 0.0 ==> a / b <= 0.0
    ensures a <= 0.0 && b < 0.0 ==> a / b >= 0.0
  {
  }

  lemma ProductSigns(x: real, y: real)
    ensures (x >= 0.0 && y >= 0.0) || (x <= 0.0 && y <= 0.0) ==> x * y >= 0.0
    ensures (x >= 0.0 && y <= 0.0) || (x <= 0.0 && y >= 0.0) ==> x * y <= 0.0
  {
  }

  lemma AbsOfProduct(x: real, y: real)
    ensures Decimals.Abs(x * y) == Decimals.Abs(x) * Decimals.Abs(y)
  {
    ProductSigns(x, y);
    if x < 0.0 && y < 0.0 {
      assert x * y == (-x) * (-y);
    } else if x < 0.0 {
      assert -(x * y) == (-x) * y;
    } else if y < 0.0 {
      assert -(x * y) == x * (-y);
    }
  }

  lemma ScaledFractionIsSmaller(x: real, m: real, f: real)
    requires x == m * f && m > 0.0 && 0.0 <= f < 1.0
    ensures x < m
  {
    assert m - m * f == m * (1.0 - f);
  }

  /** `mod`: `a` itself when `b` is 0, else the remainder negated for a negative
      divisor. */
  function ModOf(a: real, b: real): (m: real)
    ensures b == 0.0 ==> m == a
    ensures b != 0.0 ==> Decimals.Abs(m) < Decimals.Abs(b)
  {
    if b == 0.0 then a
    else
      RemainderBound(a, b);
      Remainder(a, b) * (if b < 0.0 then -1.0 else 1.0)
  }

  /** The value one binary lambda computes from two non-null operands. */
  function BinaryOf(lib: MathLib, op: Token, a: real, b: real): (r: Result<Value>)
    requires op in BINARY_OPS
    ensures r.Ok? ==> r.value.VDouble?
    ensures op != Log ==> r.Ok?
    ensures op == Log ==> (r.Ok? <==> a > 0.0 && b >= 1.0 && lib.ln(b) != 0.0)
  {
    if op == Mod then Ok(VDouble(ModOf(a, b)))
    else if op == Power then Ok(VDouble(lib.pow(a, b)))
    else if a <= 0.0 then Err(InvalidArgument("Log operand has to be positive"))
    else if b < 1.0 then Err(InvalidArgument("Log base has to be greater or equal than 1"))
    else if lib.ln(b) == 0.0 then Err(NonFinite)
    else Ok(VDouble(lib.ln(a) / lib.ln(b)))
  }

  /** Both operands are resolved (left first) before the null check. */
  function BinaryAt(lib: MathLib, op: Token, lr: Result<Value>, rr: Result<Value>): Result<Value>
    requires op in BINARY_OPS
  {
    var a :- NumberOperand(lr);
    var b :- NumberOperand(rr);
    if a.None? || b.None? then Ok(VNull) else BinaryOf(lib, op, a.value, b.value)
  }

  function VisitBinaryNumeric(lib: MathLib, op: Token, left: TypedExpr, right: TypedExpr): (r: Result<TypedExpr>)
    ensures op !in BINARY_OPS ==> r == Err(UnsupportedOperation("unknown operator"))
    ensures op in BINARY_OPS ==> (r.Ok? <==> left.ty in NUMBER_TYPES && right.ty in NUMBER_TYPES)
    ensures op in BINARY_OPS && left.ty !in NUMBER_TYPES ==> r == Err(InvalidType(left.ty, NUMBER_TYPES))
    ensures op in BINARY_OPS && left.ty in NUMBER_TYPES && right.ty !in NUMBER_TYPES ==>
              r == Err(InvalidType(right.ty, NUMBER_TYPES))
    ensures r.Ok? ==> r.value.ty == TDouble
  {
    if op !in BINARY_OPS then Err(UnsupportedOperation("unknown operator"))
    else
      var l :- AssertNumber(left);
      var rt :- AssertNumber(right);
      Ok(TypedExpr(TDouble, (b: Bindings) => BinaryAt(lib, op, l.eval(b), rt.eval(b))))
  }

  /** A null operand gives null, for `mod`, `power` and `log` alike. */
  lemma BinaryNull(lib: MathLib, op: Token, lr: Result<Value>, rr: Result<Value>)
    requires op in BINARY_OPS
    requires lr.Ok? && rr.Ok? && (lr.value.VNull? || IsNumber(lr.value)) && (rr.value.VNull? || IsNumber(rr.value))
    requires lr == Ok(VNull) || rr == Ok(VNull)
    ensures BinaryAt(lib, op, lr, rr) == Ok(VNull)
  {
  }

  /** The three cases of `mod`. */
  lemma ModCases(a: real, b: real)
    ensures b == 0.0 ==> ModOf(a, b) == a
    ensures b > 0.0 ==> ModOf(a, b) == Remainder(a, b)
    ensures b < 0.0 ==> ModOf(a, b) == -Remainder(a, b)
    ensures b != 0.0 ==> Decimals.Abs(ModOf(a, b)) < Decimals.Abs(b)
    ensures b > 0.0 && a >= 0.0 ==> 0.0 <= ModOf(a, b) < b
  {
    if b != 0.0 {
      RemainderIsTruncated(a, b);
    }
  }

  /** `mod(7, 3)` is 1, `mod(-7, 3)` is -1, `mod(7, -3)` is -1 and `mod(7, 0)` is 7. */
  lemma ModExamples()
    ensures ModOf(7.0, 3.0) == 1.0
    ensures ModOf(-7.0, 3.0) == -1.0
    ensures ModOf(7.0, -3.0) == -1.0
    ensures ModOf(7.0, 0.0) == 7.0
  {
    assert (7.0 / 3.0).Floor == 2;
    assert (7.0 / -3.0) == -(7.0 / 3.0);
    assert (-7.0 / 3.0) == -(7.0 / 3.0);
    assert CeilOf(-(7.0 / 3.0)) == -2;
  }

  /** `log(a, base)` after the null check: the operand guard comes first, then
      the base guard. */
  lemma LogGuards(lib: MathLib, a: real, base: real)
    ensures a <= 0.0 ==> BinaryOf(lib, Log, a, base) == Err(InvalidArgument("Log operand has to be positive"))
    ensures a > 0.0 && base < 1.0 ==>
              BinaryOf(lib, Log, a, base) == Err(InvalidArgument("Log base has to be greater or equal than 1"))
    ensures a > 0.0 && base >= 1.0 && lib.ln(base) != 0.0 ==>
              BinaryOf(lib, Log, a, base) == Ok(VDouble(lib.ln(a) / lib.ln(base)))
  {
  }

  // ---------------------------------------------------------------------------
  // Soundness

  /** The numeric functions keep their static types honest. */
  lemma UnaryIsSound(lib: MathLib, op: Token, operand: TypedExpr, s: Schema)
    requires VisitUnaryNumeric(lib, op, operand).Ok?
    requires Sound(operand, s)
    ensures Sound(VisitUnaryNumeric(lib, op, operand).value, s)
  {
    var e := VisitUnaryNumeric(lib, op, operand).value;
    forall b | RowConforms(b, s)
      ensures SoundResult(e.eval(b), e.ty)
    {
      assert SoundResult(operand.eval(b), operand.ty);
    }
  }

  lemma OptionalIsSound(op: Token, operand: TypedExpr, decimals: Option<TypedExpr>, s: Schema)
    requires VisitUnaryWithOptionalNumeric(op, operand, decimals).Ok?
    requires Sound(operand, s) && (decimals.Some? ==> Sound(decimals.value, s))
    ensures Sound(VisitUnaryWithOptionalNumeric(op, operand, decimals).value, s)
  {
    var e := VisitUnaryWithOptionalNumeric(op, operand, decimals).value;
    forall b | RowConforms(b, s)
      ensures SoundResult(e.eval(b), e.ty)
    {
      assert SoundResult(operand.eval(b), operand.ty);
      if decimals.Some? {
        assert SoundResult(decimals.value.eval(b), decimals.value.ty);
      }
    }
  }

  lemma BinaryIsSound(lib: MathLib, op: Token, left: TypedExpr, right: TypedExpr, s: Schema)
    requires VisitBinaryNumeric(lib, op, left, right).Ok?
    requires Sound(left, s) && Sound(right, s)
    ensures Sound(VisitBinaryNumeric(lib, op, left, right).value, s)
  {
    var e := VisitBinaryNumeric(lib, op, left, right).value;
    forall b | RowConforms(b, s)
      ensures SoundResult(e.eval(b), e.ty)
    {
      assert e.eval(b) == BinaryAt(lib, op, left.eval(b), right.eval(b));
      BinaryAtSound(lib, op, left.ty, right.ty, left.eval(b), right.eval(b));
    }
  }

  lemma BinaryAtSound(lib: MathLib, op: Token, lt: Type, rt: Type, lr: Result<Value>, rr: Result<Value>)
    requires op in BINARY_OPS && lt in NUMBER_TYPES && rt in NUMBER_TYPES
    requires SoundResult(lr, lt) && SoundResult(rr, rt)
    ensures SoundResult(BinaryAt(lib, op, lr, rr), TDouble)
  {
  }
}
