/** Comparison, membership (`in` / `not in`) and list-literal expressions. */
module Comparison {
  import opened Values
  import opened Typed

  // ---------------------------------------------------------------------------
  // compareTo of the four comparable classes

  /** The UTF-16 code units of one character: itself below U+10000, otherwise
      a high and a low surrogate. */
  function CodeUnits(c: char): (u: seq<int>)
    ensures 1 <= |u| <= 2 && forall k :: 0 <= k < |u| ==> 0 <= u[k] < 0x1_0000
    ensures |u| == 1 <==> (c as int) < 0x1_0000
  {
    var v := c as int;
    if v < 0x1_0000 then [v]
    else [0xD800 + (v - 0x1_0000) / 0x400, 0xDC00 + (v - 0x1_0000) % 0x400]
  }

  /** A Java string: the code units of its characters, one after the other. */
  function Utf16(s: string): (u: seq<int>)
    ensures |u| >= |s|
    decreases |s|
  {
    if s == [] then [] else CodeUnits(s[0]) + Utf16(s[1..])
  }

  /** Lexicographic order on code units, a proper prefix first, as a sign. */
  function UnitsCompare(u: seq<int>, w: seq<int>): (c: int)
    ensures -1 <= c <= 1
    decreases |u|
  {
    if u == [] then (if w == [] then 0 else -1)
    else if w == [] then 1
    else if u[0] < w[0] then -1
    else if u[0] > w[0] then 1
    else UnitsCompare(u[1..], w[1..])
  }

  /** `String.compareTo`, reduced to its sign: lexicographic on the UTF-16 code
      units, a proper prefix first. */
  function StringCompare(s: string, t: string): (c: int)
    ensures -1 <= c <= 1
  {
    UnitsCompare(Utf16(s), Utf16(t))
  }

  lemma {:induction false} UnitsCompareAntisymmetric(u: seq<int>, w: seq<int>)
    ensures UnitsCompare(u, w) == -UnitsCompare(w, u)
    decreases |u|
  {
    if u != [] && w != [] && u[0] == w[0] {
      UnitsCompareAntisymmetric(u[1..], w[1..]);
    }
  }

  lemma {:induction false} UnitsCompareZeroIffEqual(u: seq<int>, w: seq<int>)
    ensures UnitsCompare(u, w) == 0 <==> u == w
    decreases |u|
  {
    if u != [] && w != [] && u[0] == w[0] {
      UnitsCompareZeroIffEqual(u[1..], w[1..]);
      assert u == [u[0]] + u[1..];
      assert w == [w[0]] + w[1..];
    }
  }

  /** The first code unit of a character tells whether it is a surrogate pair,
      and the units give the character back. */
  lemma CodeUnitsInjective(c: char, d: char, x: seq<int>, y: seq<int>)
    requires CodeUnits(c) + x == CodeUnits(d) + y
    ensures c == d && x == y
  {
    var u, w := CodeUnits(c), CodeUnits(d);
    assert u[0] == (CodeUnits(c) + x)[0] == w[0];
    if |u| == 2 {
      assert 0xD800 <= u[0] < 0xDC00;
      assert |w| == 2;
      assert u[1] == (CodeUnits(c) + x)[1] == w[1];
      var v, e := c as int - 0x1_0000, d as int - 0x1_0000;
      assert v == (v / 0x400) * 0x400 + v % 0x400;
      assert e == (e / 0x400) * 0x400 + e % 0x400;
    } else {
      assert |w| == 1;
    }
    assert x == (u + x)[|u|..] && y == (w + y)[|w|..];
  }

  lemma {:induction false} Utf16Injective(s: string, t: string)
    requires Utf16(s) == Utf16(t)
    ensures s == t
    decreases |s|
  {
    if s != [] && t != [] {
      CodeUnitsInjective(s[0], t[0], Utf16(s[1..]), Utf16(t[1..]));
      Utf16Injective(s[1..], t[1..]);
      assert s == [s[0]] + s[1..];
      assert t == [t[0]] + t[1..];
    }
  }

  lemma StringCompareAntisymmetric(s: string, t: string)
    ensures StringCompare(s, t) == -StringCompare(t, s)
  {
    UnitsCompareAntisymmetric(Utf16(s), Utf16(t));
  }

  lemma StringCompareZeroIffEqual(s: string, t: string)
    ensures StringCompare(s, t) == 0 <==> s == t
  {
    UnitsCompareZeroIffEqual(Utf16(s), Utf16(t));
    if Utf16(s) == Utf16(t) {
      Utf16Injective(s, t);
    }
  }

  /** Code units, not code points: U+FFFF sorts after U+1F600, whose high
      surrogate is 0xD83D. */
  lemma StringCompareIsByCodeUnit()
    ensures StringCompare("\U{FFFF}", "\U{1F600}") == 1
    ensures StringCompare("a", "ab") == -1
  {
    assert Utf16("\U{1F600}") == [0xD83D, 0xDE00];
    assert Utf16("\U{FFFF}") == [0xFFFF];
    assert Utf16("ab") == [97, 98];
  }

  predicate SameClass(a: Value, b: Value) { TypeOf(a) == TypeOf(b) }

  /** `a.compareTo(b)` for two non-null values of one class, as a sign
      (`Boolean.compareTo` puts false before true). */
  function CompareTo(a: Value, b: Value): (c: int)
    requires !a.VNull? && SameClass(a, b)
    ensures -1 <= c <= 1
  {
    match a
    case VLong(x) => Sign((x - b.i) as real)
    case VDouble(x) => Sign(x - b.d)
    case VString(x) => StringCompare(x, b.s)
    case VBool(x) => if x == b.b then 0 else if x then 1 else -1
  }

  lemma CompareToAntisymmetric(a: Value, b: Value)
    requires !a.VNull? && SameClass(a, b)
    ensures !b.VNull? && SameClass(b, a) && CompareTo(a, b) == -CompareTo(b, a)
  {
    if a.VString? {
      StringCompareAntisymmetric(a.s, b.s);
    }
  }

  lemma CompareToZeroIffEqual(a: Value, b: Value)
    requires !a.VNull? && SameClass(a, b)
    ensures CompareTo(a, b) == 0 <==> a == b
  {
    if a.VString? {
      StringCompareZeroIffEqual(a.s, b.s);
    }
  }

  // ---------------------------------------------------------------------------
  // The generic comparators (`T extends Comparable<T>`)

  /** Generic `isEqual`: null when either operand is null, otherwise
      `compareTo == 0`, which is value equality. */
  function IsEqual(a: Value, b: Value): (r: Result<Value>)
    ensures r == Ok(VNull) <==> a.VNull? || b.VNull?
    ensures !a.VNull? && !b.VNull? && SameClass(a, b) ==> r == Ok(VBool(a == b))
    ensures !a.VNull? && !b.VNull? && !SameClass(a, b) ==> r == Err(ClassCast)
  {
    if a.VNull? || b.VNull? then Ok(VNull)
    else if !SameClass(a, b) then Err(ClassCast)
    else
      CompareToZeroIffEqual(a, b);
      Ok(VBool(CompareTo(a, b) == 0))
  }

  /** Generic `isLessThan`: null when either operand is null, otherwise
      `compareTo < 0`. */
  function IsLessThan(a: Value, b: Value): (r: Result<Value>)
    ensures r == Ok(VNull) <==> a.VNull? || b.VNull?
    ensures !a.VNull? && !b.VNull? && SameClass(a, b) ==> r == Ok(VBool(CompareTo(a, b) < 0))
    ensures !a.VNull? && !b.VNull? && !SameClass(a, b) ==> r == Err(ClassCast)
  {
    if a.VNull? || b.VNull? then Ok(VNull)
    else if !SameClass(a, b) then Err(ClassCast)
    else Ok(VBool(CompareTo(a, b) < 0))
  }

  /** Generic `isGreaterThan`: null when either operand is null, otherwise
      `compareTo > 0`. */
  function IsGreaterThan(a: Value, b: Value): (r: Result<Value>)
    ensures r == Ok(VNull) <==> a.VNull? || b.VNull?
    ensures !a.VNull? && !b.VNull? && SameClass(a, b) ==> r == Ok(VBool(CompareTo(a, b) > 0))
    ensures !a.VNull? && !b.VNull? && !SameClass(a, b) ==> r == Err(ClassCast)
  {
    if a.VNull? || b.VNull? then Ok(VNull)
    else if !SameClass(a, b) then Err(ClassCast)
    else Ok(VBool(CompareTo(a, b) > 0))
  }

  /** `!x` on a `java.lang.Boolean`, as the source writes it: unboxing a null
      Boolean throws. */
  function NotAsWritten(r: Result<Value>): Result<Value>
  {
    match r
    case Err(e) => Err(e)
    case Ok(VBool(x)) => Ok(VBool(!x))
    case Ok(VNull) => Err(NullPointer)
    case Ok(_) => Err(ClassCast)
  }

  /** Three-valued negation: the negation of null is null. */
  function Not3(r: Result<Value>): Result<Value>
  {
    match r
    case Err(e) => Err(e)
    case Ok(VBool(x)) => Ok(VBool(!x))
    case Ok(VNull) => Ok(VNull)
    case Ok(_) => Err(ClassCast)
  }

  predicate IsComparisonOp(op: Token) { op in {Eq, Neq, Lt, Mt, Le, Me} }

  /** The generic comparators as written: `isNotEqual`, `isLessThanOrEqual` and
      `isGreaterThanOrEqual` negate a Boolean that may be null. */
  function GenericAsWritten(op: Token, a: Value, b: Value): (r: Result<Value>)
    requires IsComparisonOp(op)
    ensures r.Ok? ==> r.value.VBool? || r.value.VNull?
    ensures r.Err? ==> r.error == ClassCast || r.error == NullPointer
    ensures !a.VNull? && !b.VNull? ==> (r.Err? <==> !SameClass(a, b))
  {
    if op == Eq then IsEqual(a, b)
    else if op == Neq then NotAsWritten(IsEqual(a, b))
    else if op == Lt then IsLessThan(a, b)
    else if op == Mt then IsGreaterThan(a, b)
    else if op == Le then NotAsWritten(IsGreaterThan(a, b))
    else NotAsWritten(IsLessThan(a, b))
  }

  /** The generic comparators with the evidently intended three-valued
      negation; the rest of the model uses this. */
  function Generic(op: Token, a: Value, b: Value): (r: Result<Value>)
    requires IsComparisonOp(op)
    ensures r.Ok? ==> r.value.VBool? || r.value.VNull?
    ensures r.Err? <==> !a.VNull? && !b.VNull? && !SameClass(a, b)
    ensures r.Err? ==> r.error == ClassCast
  {
    if op == Eq then IsEqual(a, b)
    else if op == Neq then Not3(IsEqual(a, b))
    else if op == Lt then IsLessThan(a, b)
    else if op == Mt then IsGreaterThan(a, b)
    else if op == Le then Not3(IsGreaterThan(a, b))
    else Not3(IsLessThan(a, b))
  }

  /** As written, a null operand makes the three negated comparators throw,
      e.g. `x <> 1` on a row where `x` is null. */
  lemma NegatedComparisonAsWrittenThrowsOnNull(op: Token, b: Value)
    requires op in {Neq, Le, Me}
    ensures GenericAsWritten(op, VNull, b) == Err(NullPointer)
    ensures GenericAsWritten(op, b, VNull) == Err(NullPointer)
  {
  }

  /** Every generic comparator, corrected, yields null exactly when an operand
      is null. */
  lemma GenericNullIffNullOperand(op: Token, a: Value, b: Value)
    requires IsComparisonOp(op)
    ensures Generic(op, a, b) == Ok(VNull) <==> a.VNull? || b.VNull?
  {
  }

  /** The corrected comparators differ from the code as written only where the
      latter throws: a null operand of `<>`, `<=` or `>=`, which yields null
      instead. */
  lemma GenericDiffersOnlyOnNegatedNull(op: Token, a: Value, b: Value)
    requires IsComparisonOp(op)
    ensures !(op in {Neq, Le, Me} && (a.VNull? || b.VNull?)) ==> Generic(op, a, b) == GenericAsWritten(op, a, b)
    ensures op in {Neq, Le, Me} && (a.VNull? || b.VNull?) ==>
              GenericAsWritten(op, a, b) == Err(NullPointer) && Generic(op, a, b) == Ok(VNull)
  {
  }

  /** `a < b` is `b > a`. */
  lemma LessThanIsConverseOfGreaterThan(a: Value, b: Value)
    ensures IsLessThan(a, b) == IsGreaterThan(b, a)
  {
    if !a.VNull? && !b.VNull? && SameClass(a, b) {
      CompareToAntisymmetric(a, b);
    }
  }

  /** On two non-null values of one class, `<=` holds exactly when `<` or `=`
      does, and `>=` exactly when `>` or `=` does. */
  lemma OrEqualComparators(a: Value, b: Value)
    requires !a.VNull? && !b.VNull? && SameClass(a, b)
    ensures Generic(Le, a, b) == Ok(VBool(IsLessThan(a, b) == Ok(VBool(true)) || a == b))
    ensures Generic(Me, a, b) == Ok(VBool(IsGreaterThan(a, b) == Ok(VBool(true)) || a == b))
    ensures Generic(Neq, a, b) == Ok(VBool(a != b))
  {
    CompareToZeroIffEqual(a, b);
  }

  // ---------------------------------------------------------------------------
  // The mixed Long / Double comparators (exact decimal comparison)

  /** `BigDecimal.valueOf(x).compareTo(BigDecimal.valueOf(y))`; unboxing a null
      operand throws. */
  function MixedCompare(a: Value, b: Value): (r: Result<int>)
    ensures a.VNull? || b.VNull? ==> r == Err(NullPointer)
    ensures r.Ok? <==> IsNumber(a) && IsNumber(b)
    ensures r.Ok? ==> -1 <= r.value <= 1 && (r.value == 0 <==> DoubleValue(a) == DoubleValue(b))
  {
    if a.VNull? || b.VNull? then Err(NullPointer)
    else if !(IsNumber(a) && IsNumber(b)) then Err(ClassCast)
    else Ok(Sign(DoubleValue(a) - DoubleValue(b)))
  }

  /** What a comparator makes of a compareTo sign; the `<>`, `<=` and `>=`
      overloads negate `=`, `>` and `<`. */
  predicate Holds(op: Token, c: int)
  {
    if op == Eq then c == 0
    else if op == Neq then !(c == 0)
    else if op == Lt then c < 0
    else if op == Mt then c > 0
    else if op == Le then !(c > 0)
    else !(c < 0)
  }

  function Mixed(op: Token, a: Value, b: Value): (r: Result<Value>)
    requires IsComparisonOp(op)
    ensures a.VNull? || b.VNull? ==> r == Err(NullPointer)
    ensures r.Ok? <==> IsNumber(a) && IsNumber(b)
    ensures r.Ok? ==> r.value.VBool?
  {
    var c :- MixedCompare(a, b);
    Ok(VBool(Holds(op, c)))
  }

  /** The mixed comparators compare the exact values. */
  lemma MixedIsExact(op: Token, x: int, y: real)
    requires IsComparisonOp(op)
    ensures Mixed(op, VLong(x), VDouble(y)) == Ok(VBool(Holds(op, Sign(x as real - y))))
    ensures Mixed(Eq, VLong(x), VDouble(y)) == Ok(VBool(x as real == y))
    ensures Mixed(Lt, VLong(x), VDouble(y)) == Ok(VBool(x as real < y))
  {
  }

  /** The mixed comparators are symmetric: `=` and `<>` commute, `<` is the
      converse of `>`, `<=` of `>=`. */
  lemma MixedSymmetric(a: Value, b: Value)
    ensures Mixed(Eq, a, b) == Mixed(Eq, b, a)
    ensures Mixed(Neq, a, b) == Mixed(Neq, b, a)
    ensures Mixed(Lt, a, b) == Mixed(Mt, b, a)
    ensures Mixed(Le, a, b) == Mixed(Me, b, a)
  {
  }

  // ---------------------------------------------------------------------------
  // visitComparisonExpr

  /** Whether `compareExpressions` (not part of this model) picks the mixed
      overloads: assumed to be so exactly when the static types are one Long and
      one Double. */
  predicate IsMixed(t: Type, u: Type)
  {
    (t == TLong && u == TDouble) || (t == TDouble && u == TLong)
  }

  /** Evaluation of a comparison: left operand, right operand, comparator. The
      generic comparators are the corrected ones (`Generic`); as written,
      `GenericAsWritten` throws where they yield null. */
  function CompareAt(op: Token, mixed: bool, lr: Result<Value>, rr: Result<Value>): (r: Result<Value>)
    requires IsComparisonOp(op)
    ensures lr.Err? ==> r == Err(lr.error)
    ensures lr.Ok? && rr.Err? ==> r == Err(rr.error)
    ensures r.Ok? ==> r.value.VBool? || r.value.VNull?
    ensures mixed && r.Ok? ==> r.value.VBool?
    ensures lr.Ok? && rr.Ok? ==>
              r == (if mixed then Mixed(op, lr.value, rr.value) else Generic(op, lr.value, rr.value))
  {
    var a :- lr;
    var b :- rr;
    if mixed then Mixed(op, a, b) else Generic(op, a, b)
  }

  function VisitComparisonExpr(op: Token, left: TypedExpr, right: TypedExpr): (r: Result<TypedExpr>)
    ensures r.Ok? ==> r.value.ty == TBoolean
    ensures left.ty == TNull || right.ty == TNull ==>
              r.Ok? && forall b :: r.value.eval(b) == Ok(VNull)
    ensures left.ty != TNull && right.ty != TNull ==>
              (r.Ok? <==> Comparable(right.ty, left.ty) && IsComparisonOp(op))
    ensures left.ty != TNull && right.ty != TNull && !Comparable(right.ty, left.ty) ==>
              r.Err? && r.error.InvalidType? && r.error.actual == right.ty
    ensures left.ty != TNull && right.ty != TNull && Comparable(right.ty, left.ty) && !IsComparisonOp(op) ==>
              r == Err(UnsupportedOperation("unknown operator"))
    ensures r.Ok? && left.ty != TNull && right.ty != TNull ==>
              forall b :: r.value.eval(b) == CompareAt(op, IsMixed(left.ty, right.ty), left.eval(b), right.eval(b))
  {
    if left.ty == TNull || right.ty == TNull then
      Ok(TypedExpr(TBoolean, (b: Bindings) => Ok(VNull)))
    else
      var checked :- AssertNumberOrType(right, left.ty);
      if IsComparisonOp(op) then
        var mixed := IsMixed(left.ty, right.ty);
        Ok(TypedExpr(TBoolean, (b: Bindings) => CompareAt(op, mixed, left.eval(b), right.eval(b))))
      else
        Err(UnsupportedOperation("unknown operator"))
  }

  /** A comparison built from sound operands is sound: its value is a Boolean
      or null, and no comparator meets operands of two classes. */
  lemma ComparisonIsSound(op: Token, left: TypedExpr, right: TypedExpr, s: Schema)
    requires Sound(left, s) && Sound(right, s)
    requires VisitComparisonExpr(op, left, right).Ok?
    ensures Sound(VisitComparisonExpr(op, left, right).value, s)
  {
    var e := VisitComparisonExpr(op, left, right).value;
    if left.ty != TNull && right.ty != TNull {
      forall b | RowConforms(b, s)
        ensures SoundResult(e.eval(b), e.ty)
      {
        assert SoundResult(left.eval(b), left.ty);
        assert SoundResult(right.eval(b), right.ty);
      }
    }
  }

  // ---------------------------------------------------------------------------
  // Lists and `in` / `not in`

  datatype ListExpr = ListExpr(containedType: Type, values: seq<Value>)

  function TypesOf(cs: seq<Value>): set<Type>
  {
    set i | 0 <= i < |cs| :: TypeOf(cs[i])
  }

  predicate OneType(cs: seq<Value>)
    requires |cs| > 0
  {
    forall i :: 0 <= i < |cs| ==> TypeOf(cs[i]) == TypeOf(cs[0])
  }

  lemma TypesOfSize(cs: seq<Value>)
    requires |cs| > 0
    ensures OneType(cs) <==> |TypesOf(cs)| == 1
    ensures OneType(cs) ==> TypesOf(cs) == {TypeOf(cs[0])}
    ensures |TypesOf(cs)| >= 1
  {
    assert TypeOf(cs[0]) in TypesOf(cs);
    if OneType(cs) {
      assert TypesOf(cs) == {TypeOf(cs[0])};
    } else {
      var i :| 0 <= i < |cs| && TypeOf(cs[i]) != TypeOf(cs[0]);
      assert {TypeOf(cs[0]), TypeOf(cs[i])} <= TypesOf(cs);
      assert |{TypeOf(cs[0]), TypeOf(cs[i])}| == 2;
      SubsetCardinality({TypeOf(cs[0]), TypeOf(cs[i])}, TypesOf(cs));
    }
  }

  lemma SubsetCardinality<T>(a: set<T>, b: set<T>)
    requires a <= b
    ensures |a| <= |b|
  {
    assert b == a + (b - a);
  }

  /** `visitLists`: a list literal (the grammar gives it at least one constant)
      has one element type, else ConflictingTypes; its values keep source order. */
  function VisitLists(constants: seq<Value>): (r: Result<ListExpr>)
    requires |constants| > 0
    ensures r.Ok? <==> OneType(constants)
    ensures r.Ok? ==> r.value.containedType == TypeOf(constants[0]) && r.value.values == constants
    ensures r.Err? ==> r.error == ConflictingTypes(TypesOf(constants)) && |TypesOf(constants)| > 1
  {
    var types := TypesOf(constants);
    TypesOfSize(constants);
    if |types| > 1 then Err(ConflictingTypes(types))
    else Ok(ListExpr(TypeOf(constants[0]), constants))
  }

  function MembershipAt(r: Result<Value>, values: seq<Value>, positive: bool): (m: Result<Value>)
    ensures m.Ok? <==> r.Ok?
    ensures r.Err? ==> m == Err(r.error)
    ensures m.Ok? ==> m.value.VBool? && (m.value.b <==> (r.value in values) == positive)
  {
    var v :- r;
    Ok(VBool((v in values) == positive))
  }

  /** `visitInNotInExpr`: the operand type must equal the list's contained type,
      checked before anything is evaluated. */
  function VisitInNotInExpr(op: Token, operand: TypedExpr, list: ListExpr): (r: Result<TypedExpr>)
    ensures operand.ty != list.containedType ==> r == Err(InvalidType(operand.ty, {list.containedType}))
    ensures operand.ty == list.containedType ==> (r.Ok? <==> op == In || op == NotIn)
    ensures operand.ty == list.containedType && op != In && op != NotIn ==>
              r == Err(IllegalState("Unexpected value"))
    ensures r.Ok? ==> r.value.ty == TBoolean
    ensures r.Ok? ==> forall b :: r.value.eval(b) == MembershipAt(operand.eval(b), list.values, op == In)
  {
    if operand.ty != list.containedType then
      Err(InvalidType(operand.ty, {list.containedType}))
    else if op == In then
      Ok(TypedExpr(TBoolean, (b: Bindings) => MembershipAt(operand.eval(b), list.values, true)))
    else if op == NotIn then
      Ok(TypedExpr(TBoolean, (b: Bindings) => MembershipAt(operand.eval(b), list.values, false)))
    else
      Err(IllegalState("Unexpected value"))
  }

  /** `x in L` is value membership and `x not in L` its exact negation, for
      every binding; neither is ever null. */
  lemma InIsMembershipAndNotInItsNegation(operand: TypedExpr, list: ListExpr, b: Bindings)
    requires operand.ty == list.containedType
    requires operand.eval(b).Ok?
    ensures VisitInNotInExpr(In, operand, list).Ok? && VisitInNotInExpr(NotIn, operand, list).Ok?
    ensures VisitInNotInExpr(In, operand, list).value.eval(b) == Ok(VBool(operand.eval(b).value in list.values))
    ensures VisitInNotInExpr(NotIn, operand, list).value.eval(b) == Ok(VBool(operand.eval(b).value !in list.values))
  {
  }

  /** `3 in {1, 2, 3}` is true; `"x" in {1, 2, 3}` raises InvalidType. */
  lemma MembershipExamples()
    ensures VisitLists([VLong(1), VLong(2), VLong(3)]) == Ok(ListExpr(TLong, [VLong(1), VLong(2), VLong(3)]))
    ensures VisitInNotInExpr(In, Constant(VLong(3)), ListExpr(TLong, [VLong(1), VLong(2), VLong(3)])).value.eval(map[])
              == Ok(VBool(true))
    ensures VisitInNotInExpr(In, Constant(VString("x")), ListExpr(TLong, [VLong(1), VLong(2), VLong(3)]))
              == Err(InvalidType(TString, {TLong}))
    ensures VisitLists([VLong(1), VString("a")]).Err?
  {
    assert OneType([VLong(1), VLong(2), VLong(3)]);
    assert TypeOf([VLong(1), VString("a")][1]) != TypeOf([VLong(1), VString("a")][0]);
  }
}
