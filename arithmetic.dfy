/** `*` and `/` (the Arithmetic visitor): a type table over Long and Double. */
module Arithmetic {
  import opened Values
  import opened Typed

  /** Resolve an operand and cast it to its static class. */
  function CastOperand(r: Result<Value>, t: Type): (c: Result<Value>)
    ensures c.Ok? ==> c.value.VNull? || TypeOf(c.value) == t
  {
    var v :- r;
    Cast(v, t)
  }

  /** A Double quotient; dividing by zero gives an infinity or NaN, which the
      model reports as NonFinite. */
  function Quotient(x: real, y: real): (r: Result<Value>)
    ensures y != 0.0 ==> r == Ok(VDouble(x / y))
    ensures y == 0.0 ==> r == Err(NonFinite)
  {
    if y == 0.0 then Err(NonFinite) else Ok(VDouble(x / y))
  }

  /** One multiplication lambda, `((L) l.resolve(c)) * ((R) r.resolve(c))`:
      the left operand is resolved, cast and unboxed before the right one is
      resolved; Long times Long is 64-bit `long` arithmetic. */
  function MulAt(lt: Type, rt: Type, lr: Result<Value>, rr: Result<Value>): (r: Result<Value>)
    requires IsNumericType(lt) && IsNumericType(rt)
    ensures r.Ok? ==> TypeOf(r.value) == (if lt == TLong && rt == TLong then TLong else TDouble)
    ensures lr == Ok(VNull) || rr == Ok(VNull) ==> r.Err?
    ensures lr.Err? ==> r == Err(lr.error)
    ensures lr == Ok(VNull) ==> r == Err(NullPointer)
  {
    var a :- CastOperand(lr, lt);
    if a.VNull? then Err(NullPointer)
    else
    var b :- CastOperand(rr, rt);
    if b.VNull? then Err(NullPointer)
    else if lt == TLong && rt == TLong then Ok(VLong(Wrap64(a.i * b.i)))
    else Ok(VDouble(DoubleValue(a) * DoubleValue(b)))
  }

  /** One division lambda: as for `*`, the left operand is resolved, cast and
      unboxed (for Long by Long, widened by `doubleValue()`) before the right
      one is resolved. */
  function DivAt(lt: Type, rt: Type, lr: Result<Value>, rr: Result<Value>): (r: Result<Value>)
    requires IsNumericType(lt) && IsNumericType(rt)
    ensures r.Ok? ==> r.value.VDouble?
    ensures lr == Ok(VNull) || rr == Ok(VNull) ==> r.Err?
    ensures lr.Err? ==> r == Err(lr.error)
    ensures lr == Ok(VNull) ==> r == Err(NullPointer)
  {
    var a :- CastOperand(lr, lt);
    if a.VNull? then Err(NullPointer)
    else
    var b :- CastOperand(rr, rt);
    if b.VNull? then Err(NullPointer)
    else Quotient(DoubleValue(a), DoubleValue(b))
  }

  /** A null left operand throws before the right operand is evaluated, so
      the right operand's error is never seen. */
  lemma LeftNullBeforeRightError(lt: Type, rt: Type, e: Error)
    requires IsNumericType(lt) && IsNumericType(rt)
    ensures MulAt(lt, rt, Ok(VNull), Err(e)) == Err(NullPointer)
    ensures DivAt(lt, rt, Ok(VNull), Err(e)) == Err(NullPointer)
  {
  }

  /** `handleMultiplication`: Long-typed exactly for Long times Long. */
  function HandleMultiplication(left: TypedExpr, right: TypedExpr): (r: TypedExpr)
    requires IsNumericType(left.ty) && IsNumericType(right.ty)
    ensures r.ty == TLong <==> left.ty == TLong && right.ty == TLong
    ensures r.ty in {TLong, TDouble}
  {
    TypedExpr(if left.ty == TLong && right.ty == TLong then TLong else TDouble,
              (b: Bindings) => MulAt(left.ty, right.ty, left.eval(b), right.eval(b)))
  }

  /** `handleDivision`: always Double-typed, Long by Long included. */
  function HandleDivision(left: TypedExpr, right: TypedExpr): (r: TypedExpr)
    requires IsNumericType(left.ty) && IsNumericType(right.ty)
    ensures r.ty == TDouble
  {
    TypedExpr(TDouble, (b: Bindings) => DivAt(left.ty, right.ty, left.eval(b), right.eval(b)))
  }

  /** `visitArithmeticExpr` with `handleNumberArithmeticExpr`: operands whose
      static types are not both numbers are refused, then the operator picks the
      handler. */
  function VisitArithmeticExpr(op: Token, left: TypedExpr, right: TypedExpr): (r: Result<TypedExpr>)
    ensures !(IsNumericType(left.ty) && IsNumericType(right.ty)) ==>
              r == Err(UnsupportedOperation("unsupported types"))
    ensures IsNumericType(left.ty) && IsNumericType(right.ty) && op != Mul && op != Div ==>
              r == Err(UnsupportedOperation("unknown operator"))
    ensures r.Ok? <==> IsNumericType(left.ty) && IsNumericType(right.ty) && (op == Mul || op == Div)
    ensures r.Ok? && op == Div ==> r.value.ty == TDouble
    ensures r.Ok? && op == Mul ==> (r.value.ty == TLong <==> left.ty == TLong && right.ty == TLong)
  {
    if !(IsNumericType(left.ty) && IsNumericType(right.ty)) then
      Err(UnsupportedOperation("unsupported types"))
    else if op == Mul then Ok(HandleMultiplication(left, right))
    else if op == Div then Ok(HandleDivision(left, right))
    else Err(UnsupportedOperation("unknown operator"))
  }

  /** The result type (and whether there is one) depends only on the operator
      and the operand types, never on the operands' values. */
  lemma ResultTypeDependsOnlyOnTypes(op: Token, l1: TypedExpr, r1: TypedExpr, l2: TypedExpr, r2: TypedExpr)
    requires l1.ty == l2.ty && r1.ty == r2.ty
    ensures VisitArithmeticExpr(op, l1, r1).Ok? == VisitArithmeticExpr(op, l2, r2).Ok?
    ensures VisitArithmeticExpr(op, l1, r1).Ok? ==>
              VisitArithmeticExpr(op, l1, r1).value.ty == VisitArithmeticExpr(op, l2, r2).value.ty
  {
  }

  /** The type of `a * b` is the type of `b * a`; so is that of `a / b` and `b / a`. */
  lemma ResultTypeIsSymmetric(op: Token, left: TypedExpr, right: TypedExpr)
    ensures VisitArithmeticExpr(op, left, right).Ok? == VisitArithmeticExpr(op, right, left).Ok?
    ensures VisitArithmeticExpr(op, left, right).Ok? ==>
              VisitArithmeticExpr(op, left, right).value.ty == VisitArithmeticExpr(op, right, left).value.ty
  {
  }

  /** Multiplication computes the product: exact for a Double operand, and for
      two Longs whenever that fits in a `long`. */
  lemma MultiplicationIsProduct(left: TypedExpr, right: TypedExpr, b: Bindings, u: Value, w: Value)
    requires IsNumericType(left.ty) && IsNumericType(right.ty)
    requires left.eval(b) == Ok(u) && right.eval(b) == Ok(w)
    requires TypeOf(u) == left.ty && TypeOf(w) == right.ty
    ensures left.ty == TLong && right.ty == TLong ==>
              HandleMultiplication(left, right).eval(b) == Ok(VLong(Wrap64(u.i * w.i)))
    ensures left.ty == TLong && right.ty == TLong && InLong(u.i * w.i) ==>
              HandleMultiplication(left, right).eval(b) == Ok(VLong(u.i * w.i))
    ensures (left.ty == TDouble || right.ty == TDouble) ==>
              HandleMultiplication(left, right).eval(b) == Ok(VDouble(DoubleValue(u) * DoubleValue(w)))
  {
    var lr, rr := left.eval(b), right.eval(b);
    assert CastOperand(lr, left.ty) == Ok(u);
    assert CastOperand(rr, right.ty) == Ok(w);
    assert IsNumber(u) && IsNumber(w);
    var z := MulAt(left.ty, right.ty, lr, rr);
    assert HandleMultiplication(left, right).eval(b) == z;
    if left.ty == TDouble || right.ty == TDouble {
      assert z.Ok?;
      assert z.value.VDouble?;
      assert z.value.d == DoubleValue(u) * DoubleValue(w);
    }
  }

  /** Division widens to Double and computes the quotient; a zero divisor gives
      no finite result. */
  lemma DivisionIsQuotient(left: TypedExpr, right: TypedExpr, b: Bindings, u: Value, w: Value)
    requires IsNumericType(left.ty) && IsNumericType(right.ty)
    requires left.eval(b) == Ok(u) && right.eval(b) == Ok(w)
    requires TypeOf(u) == left.ty && TypeOf(w) == right.ty
    ensures DoubleValue(w) != 0.0 ==>
              HandleDivision(left, right).eval(b) == Ok(VDouble(DoubleValue(u) / DoubleValue(w)))
    ensures DoubleValue(w) == 0.0 ==> HandleDivision(left, right).eval(b) == Err(NonFinite)
  {
  }

  /** `6 / 3` is the Double 2.0, not the Long 2. */
  lemma SixDividedByThreeIsDouble()
    ensures VisitArithmeticExpr(Div, Constant(VLong(6)), Constant(VLong(3))).Ok?
    ensures VisitArithmeticExpr(Div, Constant(VLong(6)), Constant(VLong(3))).value.ty == TDouble
    ensures VisitArithmeticExpr(Div, Constant(VLong(6)), Constant(VLong(3))).value.eval(map[]) == Ok(VDouble(2.0))
  {
    var six, three := Constant(VLong(6)), Constant(VLong(3));
    assert six.eval(map[]) == Ok(VLong(6)) && three.eval(map[]) == Ok(VLong(3));
    assert DivAt(TLong, TLong, Ok(VLong(6)), Ok(VLong(3))) == Quotient(6.0, 3.0);
    assert 6.0 / 3.0 == 2.0;
  }

  /** A null operand value makes either operator throw. */
  lemma NullOperandThrows(op: Token, left: TypedExpr, right: TypedExpr, b: Bindings)
    requires VisitArithmeticExpr(op, left, right).Ok?
    requires left.eval(b).Ok? && right.eval(b).Ok?
    requires SoundResult(left.eval(b), left.ty) && SoundResult(right.eval(b), right.ty)
    requires left.eval(b) == Ok(VNull) || right.eval(b) == Ok(VNull)
    ensures VisitArithmeticExpr(op, left, right).value.eval(b) == Err(NullPointer)
  {
  }

  /** `*` and `/` keep their static type honest. */
  lemma ArithmeticIsSound(op: Token, left: TypedExpr, right: TypedExpr, s: Schema)
    requires VisitArithmeticExpr(op, left, right).Ok?
    requires Sound(left, s) && Sound(right, s)
    ensures Sound(VisitArithmeticExpr(op, left, right).value, s)
  {
    var e := VisitArithmeticExpr(op, left, right).value;
    forall b | RowConforms(b, s)
      ensures SoundResult(e.eval(b), e.ty)
    {
      var lr, rr := left.eval(b), right.eval(b);
      assert SoundResult(lr, left.ty) && SoundResult(rr, right.ty);
      if op == Mul {
        MulAtSound(left.ty, right.ty, lr, rr);
      } else {
        DivAtSound(left.ty, right.ty, lr, rr);
      }
    }
  }

  lemma MulAtSound(lt: Type, rt: Type, lr: Result<Value>, rr: Result<Value>)
    requires IsNumericType(lt) && IsNumericType(rt)
    requires SoundResult(lr, lt) && SoundResult(rr, rt)
    ensures SoundResult(MulAt(lt, rt, lr, rr), if lt == TLong && rt == TLong then TLong else TDouble)
  {
  }

  lemma DivAtSound(lt: Type, rt: Type, lr: Result<Value>, rr: Result<Value>)
    requires IsNumericType(lt) && IsNumericType(rt)
    requires SoundResult(lr, lt) && SoundResult(rr, rt)
    ensures SoundResult(DivAt(lt, rt, lr, rr), TDouble)
  {
  }
}
