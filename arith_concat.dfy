/** `+`, `-` and `||` (the ArithmeticExprOrConcat visitor). */
module ArithmeticConcat {
  import opened Values
  import opened Typed

  // ---------------------------------------------------------------------------
  // Operand evaluation as the lambdas perform it

  /** The Long branch: resolve and cast the left operand, then the right one,
      then unbox both (a null operand throws). */
  function LongOperands(lr: Result<Value>, rr: Result<Value>): Result<(int, int)>
  {
    var a :- lr;
    var a' :- Cast(a, TLong);
    var b :- rr;
    var b' :- Cast(b, TLong);
    if a'.VNull? || b'.VNull? then Err(NullPointer) else Ok((a'.i, b'.i))
  }

  /** `v instanceof Long ? ((Long) v).doubleValue() : (Double) v`: the
      conditional has type `double`, so a null Double is unboxed on the spot. */
  function WidenToDouble(r: Result<Value>): Result<real>
  {
    var v :- r;
    if v.VLong? then Ok(v.i as real)
    else if v.VDouble? then Ok(v.d)
    else if v.VNull? then Err(NullPointer)
    else Err(ClassCast)
  }

  /** The Double branch: both operands are resolved, left then right, and
      only then widened, left then right. */
  function DoubleOperands(lr: Result<Value>, rr: Result<Value>): (r: Result<(real, real)>)
    ensures lr.Err? ==> r == Err(lr.error)
    ensures lr.Ok? && rr.Err? ==> r == Err(rr.error)
    ensures lr.Ok? && rr.Ok? && (lr.value.VNull? || rr.value.VNull?) ==> r.Err?
  {
    var a :- lr;
    var b :- rr;
    var x :- WidenToDouble(Ok(a));
    var y :- WidenToDouble(Ok(b));
    Ok((x, y))
  }

  /** With a Double operand the right operand's error comes before the left
      operand's null is unboxed. */
  lemma RightErrorBeforeLeftNull(e: Error)
    ensures AdditiveAt(Plus, false, Ok(VNull), Err(e)) == Err(e)
  {
  }

  predicate IsAdditive(op: Token) { op == Plus || op == Minus }

  /** Java `long` `+` / `-`. */
  function LongAdditive(op: Token, x: int, y: int): int
  {
    if op == Plus then Wrap64(x + y) else Wrap64(x - y)
  }

  /** Java `double` `+` / `-`, exact on reals. */
  function DoubleAdditive(op: Token, x: real, y: real): real
  {
    if op == Plus then x + y else x - y
  }

  function AdditiveAt(op: Token, longs: bool, lr: Result<Value>, rr: Result<Value>): Result<Value>
  {
    if longs then
      var p :- LongOperands(lr, rr);
      Ok(VLong(LongAdditive(op, p.0, p.1)))
    else
      var p :- DoubleOperands(lr, rr);
      Ok(VDouble(DoubleAdditive(op, p.0, p.1)))
  }

  /** The static result type of `+` and `-`: Long exactly when both operands
      are Long. */
  function AdditiveType(t: Type, u: Type): Type
  {
    if t == TLong && u == TLong then TLong else TDouble
  }

  // ---------------------------------------------------------------------------
  // handlePlus / handleMinus / handleConcat

  /** `handlePlus` and `handleMinus`: both operands must pass the number check,
      the left one first. */
  function HandleAdditive(op: Token, left: TypedExpr, right: TypedExpr): (r: Result<TypedExpr>)
    requires IsAdditive(op)
    ensures r.Ok? <==> left.ty in NUMBER_TYPES && right.ty in NUMBER_TYPES
    ensures left.ty !in NUMBER_TYPES ==> r == Err(InvalidType(left.ty, NUMBER_TYPES))
    ensures left.ty in NUMBER_TYPES && right.ty !in NUMBER_TYPES ==> r == Err(InvalidType(right.ty, NUMBER_TYPES))
    ensures r.Ok? ==> r.value.ty == AdditiveType(left.ty, right.ty)
  {
    var l :- AssertNumber(left);
    var rt :- AssertNumber(right);
    var longs := l.ty == TLong && rt.ty == TLong;
    Ok(TypedExpr(if longs then TLong else TDouble,
                 (b: Bindings) => AdditiveAt(op, longs, l.eval(b), rt.eval(b))))
  }

  /** `handleConcat`: both operands must pass the String check. */
  function HandleConcat(left: TypedExpr, right: TypedExpr): (r: Result<TypedExpr>)
    ensures r.Ok? <==> left.ty in STRING_TYPES && right.ty in STRING_TYPES
    ensures left.ty !in STRING_TYPES ==> r == Err(InvalidType(left.ty, STRING_TYPES))
    ensures left.ty in STRING_TYPES && right.ty !in STRING_TYPES ==> r == Err(InvalidType(right.ty, STRING_TYPES))
    ensures r.Ok? ==> r.value.ty == TString
  {
    var l :- AssertString(left);
    var rt :- AssertString(right);
    Ok(TypedExpr(TString, (b: Bindings) => ConcatAt(l.eval(b), rt.eval(b))))
  }

  /** Both operands cast to String, then `left.concat(right)`, which throws on
      either null. */
  function ConcatAt(lr: Result<Value>, rr: Result<Value>): Result<Value>
  {
    var a :- lr;
    var a' :- Cast(a, TString);
    var b :- rr;
    var b' :- Cast(b, TString);
    if a'.VNull? || b'.VNull? then Err(NullPointer) else Ok(VString(a'.s + b'.s))
  }

  /** `visitArithmeticExprOrConcat`. */
  function VisitArithmeticExprOrConcat(op: Token, left: TypedExpr, right: TypedExpr): (r: Result<TypedExpr>)
    ensures op !in {Plus, Minus, Concat} ==> r == Err(UnsupportedOperation("unknown operator"))
    ensures IsAdditive(op) ==> r == HandleAdditive(op, left, right)
    ensures op == Concat ==> r == HandleConcat(left, right)
  {
    if IsAdditive(op) then HandleAdditive(op, left, right)
    else if op == Concat then HandleConcat(left, right)
    else Err(UnsupportedOperation("unknown operator"))
  }

  // ---------------------------------------------------------------------------
  // Properties

  /** Long `+` / `-` is Java's 64-bit arithmetic, and the exact sum or
      difference whenever that fits in a `long`. */
  lemma LongAdditiveIsExact(op: Token, left: TypedExpr, right: TypedExpr, b: Bindings, x: int, y: int)
    requires IsAdditive(op) && left.ty == TLong && right.ty == TLong
    requires left.eval(b) == Ok(VLong(x)) && right.eval(b) == Ok(VLong(y))
    ensures HandleAdditive(op, left, right).Ok?
    ensures HandleAdditive(op, left, right).value.ty == TLong
    ensures op == Plus ==> HandleAdditive(op, left, right).value.eval(b) == Ok(VLong(Wrap64(x + y)))
    ensures op == Minus ==> HandleAdditive(op, left, right).value.eval(b) == Ok(VLong(Wrap64(x - y)))
    ensures op == Plus && InLong(x + y) ==> HandleAdditive(op, left, right).value.eval(b) == Ok(VLong(x + y))
    ensures op == Minus && InLong(x - y) ==> HandleAdditive(op, left, right).value.eval(b) == Ok(VLong(x - y))
  {
  }

  /** With a Double operand the result is Double, computed on the widened
      operands. */
  lemma DoubleAdditiveWidens(op: Token, left: TypedExpr, right: TypedExpr, b: Bindings, u: Value, w: Value)
    requires IsAdditive(op)
    requires left.ty in {TLong, TDouble} && right.ty in {TLong, TDouble}
    requires left.ty == TDouble || right.ty == TDouble
    requires left.eval(b) == Ok(u) && right.eval(b) == Ok(w) && IsNumber(u) && IsNumber(w)
    ensures HandleAdditive(op, left, right).Ok?
    ensures HandleAdditive(op, left, right).value.ty == TDouble
    ensures op == Plus ==> HandleAdditive(op, left, right).value.eval(b) == Ok(VDouble(DoubleValue(u) + DoubleValue(w)))
    ensures op == Minus ==> HandleAdditive(op, left, right).value.eval(b) == Ok(VDouble(DoubleValue(u) - DoubleValue(w)))
  {
  }

  /** `+` and `-` have no null guard: a null operand value throws. */
  lemma AdditiveNullThrows(op: Token, left: TypedExpr, right: TypedExpr, s: Schema, b: Bindings)
    requires IsAdditive(op) && HandleAdditive(op, left, right).Ok?
    requires Sound(left, s) && Sound(right, s) && RowConforms(b, s)
    requires left.eval(b).Ok? && right.eval(b).Ok?
    requires left.eval(b) == Ok(VNull) || right.eval(b) == Ok(VNull)
    ensures HandleAdditive(op, left, right).value.eval(b) == Err(NullPointer)
  {
    assert SoundResult(left.eval(b), left.ty);
    assert SoundResult(right.eval(b), right.ty);
  }

  /** The result type of `+`, and of `-`, is symmetric in the operand types. */
  lemma AdditiveTypeIsSymmetric(op: Token, left: TypedExpr, right: TypedExpr)
    requires IsAdditive(op)
    ensures HandleAdditive(op, left, right).Ok? == HandleAdditive(op, right, left).Ok?
    ensures HandleAdditive(op, left, right).Ok? ==>
              HandleAdditive(op, left, right).value.ty == HandleAdditive(op, right, left).value.ty
  {
  }

  /** `+` and `-` keep their static type honest. */
  lemma AdditiveIsSound(op: Token, left: TypedExpr, right: TypedExpr, s: Schema)
    requires IsAdditive(op) && HandleAdditive(op, left, right).Ok?
    requires Sound(left, s) && Sound(right, s)
    ensures Sound(HandleAdditive(op, left, right).value, s)
  {
    var e := HandleAdditive(op, left, right).value;
    forall b | RowConforms(b, s)
      ensures SoundResult(e.eval(b), e.ty)
    {
      assert SoundResult(left.eval(b), left.ty);
      assert SoundResult(right.eval(b), right.ty);
    }
  }

  /** Concatenation is left followed by right. */
  lemma ConcatIsLeftThenRight(left: TypedExpr, right: TypedExpr, b: Bindings, x: string, y: string)
    requires left.ty == TString && right.ty == TString
    requires left.eval(b) == Ok(VString(x)) && right.eval(b) == Ok(VString(y))
    ensures HandleConcat(left, right).Ok?
    ensures HandleConcat(left, right).value.eval(b).Ok?
    ensures HandleConcat(left, right).value.eval(b).value.VString?
    ensures var z := HandleConcat(left, right).value.eval(b).value.s;
            |z| == |x| + |y| && z[..|x|] == x && z[|x|..] == y
  {
    var z := HandleConcat(left, right).value.eval(b).value.s;
    assert z == x + y;
  }

  /** A null String operand makes `concat` throw. */
  lemma ConcatNullThrows(left: TypedExpr, right: TypedExpr, s: Schema, b: Bindings)
    requires HandleConcat(left, right).Ok?
    requires Sound(left, s) && Sound(right, s) && RowConforms(b, s)
    requires left.eval(b).Ok? && right.eval(b).Ok?
    requires left.eval(b) == Ok(VNull) || right.eval(b) == Ok(VNull)
    ensures HandleConcat(left, right).value.eval(b) == Err(NullPointer)
  {
    assert SoundResult(left.eval(b), left.ty);
    assert SoundResult(right.eval(b), right.ty);
  }

  lemma ConcatIsSound(left: TypedExpr, right: TypedExpr, s: Schema)
    requires HandleConcat(left, right).Ok?
    requires Sound(left, s) && Sound(right, s)
    ensures Sound(HandleConcat(left, right).value, s)
  {
    var e := HandleConcat(left, right).value;
    forall b | RowConforms(b, s)
      ensures SoundResult(e.eval(b), e.ty)
    {
      assert SoundResult(left.eval(b), left.ty);
      assert SoundResult(right.eval(b), right.ty);
    }
  }
}
