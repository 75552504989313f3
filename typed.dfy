/** Resolvable expressions: a static type paired with an evaluation function
    from variable bindings to a value (or the error evaluation raises). */
module Typed {
  import opened Values

  type Bindings = map<string, Value>

  datatype TypedExpr = TypedExpr(ty: Type, eval: Bindings -> Result<Value>)

  /** The operator tokens the expression visitors dispatch on. */
  datatype Token =
    | Plus | Minus | Concat | Mul | Div
    | Eq | Neq | Lt | Mt | Le | Me | In | NotIn
    | Ceil | Floor | Abs | Exp | Ln | Sqrt
    | Round | Trunc
    | Mod | Power | Log

  /** The static types of the columns a row is evaluated against. */
  type Schema = map<string, Type>

  predicate RowConforms(b: Bindings, s: Schema)
  {
    forall k | k in s && k in b :: Conforms(b[k], s[k])
  }

  /** An evaluation outcome honours a static type: a value of that type, or an
      error other than a failed cast. */
  predicate SoundResult(r: Result<Value>, t: Type)
  {
    (r.Ok? ==> Conforms(r.value, t)) && r != Err(ClassCast)
  }

  /** The static type of `e` never lies on rows that conform to `s`. */
  ghost predicate Sound(e: TypedExpr, s: Schema)
  {
    forall b | RowConforms(b, s) :: SoundResult(e.eval(b), e.ty)
  }

  /** A constant (`exprVisitor.visitConstant`): its value, whatever the bindings. */
  function Constant(v: Value): (e: TypedExpr)
    ensures e.ty == TypeOf(v)
  {
    TypedExpr(TypeOf(v), (b: Bindings) => Ok(v))
  }

  /** A component reference: `context.get(name)`, `null` when absent. */
  function Column(name: string, t: Type): TypedExpr
  {
    TypedExpr(t, (b: Bindings) => if name in b then Ok(b[name]) else Ok(VNull))
  }

  lemma ConstantIsSound(v: Value, s: Schema)
    requires Conforms(v, TypeOf(v))
    ensures Sound(Constant(v), s)
  {
  }

  lemma ColumnIsSound(name: string, s: Schema)
    requires name in s
    ensures Sound(Column(name, s[name]), s)
  {
  }

  predicate IsNumericType(t: Type) { t == TLong || t == TDouble }

  // TypeChecking is not part of this model. Its assert helpers are modelled as
  // accepting the named types and the type of the `null` literal, and as raising
  // InvalidType otherwise.

  const NUMBER_TYPES: set<Type> := {TLong, TDouble, TNull}
  const STRING_TYPES: set<Type> := {TString, TNull}
  const LONG_TYPES: set<Type> := {TLong, TNull}

  function Expect(e: TypedExpr, accepted: set<Type>): Result<TypedExpr>
  {
    if e.ty in accepted then Ok(e) else Err(InvalidType(e.ty, accepted))
  }

  function AssertNumber(e: TypedExpr): Result<TypedExpr> { Expect(e, NUMBER_TYPES) }
  function AssertString(e: TypedExpr): Result<TypedExpr> { Expect(e, STRING_TYPES) }
  function AssertLong(e: TypedExpr): Result<TypedExpr> { Expect(e, LONG_TYPES) }

  /** `assertNumberOrTypeExpression(e, t)`: both numeric, or the very same type. */
  predicate Comparable(t: Type, u: Type)
  {
    (IsNumericType(t) && IsNumericType(u)) || t == u
  }

  function AssertNumberOrType(e: TypedExpr, t: Type): Result<TypedExpr>
  {
    if Comparable(e.ty, t) then Ok(e)
    else Err(InvalidType(e.ty, if IsNumericType(t) then {TLong, TDouble} else {t}))
  }
}
