# Trevas VTL engine core, modelled in Dafny

This project models three parts of Trevas, an engine for the VTL statistical data
transformation language:

- **The typed expression layer.** Every expression compiles to a static type and an
  evaluation function from row bindings to a value or an error. The model covers:
  - `+`, `-`, `*` and `/` with their Long/Double type promotion, and concatenation;
  - the six comparisons, with three-valued nulls and exact mixed Long/Double comparison;
  - list literals and `in` / `not in`;
  - the numeric functions `ceil`, `floor`, `abs`, `exp`, `ln`, `sqrt`, `round`,
    `trunc`, `mod`, `power` and `log`.
- **The clause planner.** It turns `keep`/`drop`, `calc`, `rename` and `aggr`
  clauses into calls of the processing engine. The plan is a tree of those calls
  (`Datasets.DatasetExpr`).
- **The backend-independent parts of the Spark processing engine:**
  - column renaming, its inverse and their round trip;
  - role maps;
  - the union compatibility check and de-duplication key;
  - the alias scheme of `calc`;
  - the per-row semantics and output filtering of datapoint-ruleset and simple validation.
  A dataset of `union` is a structure (a column list) and rows that are tuples, one
  value per column in that structure's order, because Spark's `union` matches columns
  by position. Elsewhere a row is a map from column name to value.

Modules, one per file:

| File | Module | Contents |
|---|---|---|
| values.dfy | `Values` | values, types, errors and Java integer widths |
| typed.dfy | `Typed` | typed expressions and the type-check helpers |
| comparison.dfy | `Comparison` | comparisons, list literals and membership |
| arith_concat.dfy | `ArithmeticConcat` | `+`, `-` and `\|\|` |
| arithmetic.dfy | `Arithmetic` | `*` and `/` |
| decimals.dfy | `Decimals` | `BigDecimal.setScale` as HALF_UP and DOWN on exact decimals |
| numeric_functions.dfy | `NumericFunctions` | the numeric functions |
| ordered_map.dfy | `OrderedMap` | `LinkedHashMap` |
| datasets.dfy | `Datasets` | roles, components and engine calls |
| clause_visitor.dfy | `ClauseVisitor` | the clause planner |
| spark_engine.dfy | `SparkEngine` | the Spark engine helpers |

Modelling conventions:

- Java `double` is an exact `real`. A non-finite IEEE result (a division by zero,
  `log` in base 1) is the error `NonFinite`.
- `Math.exp`, `Math.log`, `Math.sqrt` and `Math.pow` are fields of a `MathLib`
  parameter.
- Long `+`, `-` and `*` wrap to 64 bits explicitly. `floor` saturates as `longValue()`
  does. The decimal count of `round`/`trunc` is read with `intValue()`.
- Unboxing a `null` is `NullPointer`; a failed reference cast is `ClassCast`.
- A `LinkedHashMap` is an ordered map. `Collectors.toMap` with a repeated key is
  `DuplicateKey`.

Where the code and its documentation disagree, the model follows the code, with one
exception: the generic `<>`, `<=` and `>=` are evaluated with three-valued negation,
while the code as written throws on a null operand (see Findings, and the matching
line under "## Left out").
`ArithmeticExprTest` expects `6 / 3` to give the Long `2`. The division code gives the
Double `2.0`, and `Arithmetic.SixDividedByThreeIsDouble` states that.

Loops in the source are methods with loop invariants, each proved equal to a
specification function on its inputs, with lemmas about that function:

- the calc, rename and aggr loops of the clause visitor;
- `rename`, the `executeRename` role loop, the `executeCalc` alias loop,
  `executeCalcEvaluated`, `checkColNameCompatibility` and the loops of `executeUnion`.

## Model

| member | source | states |
|---|---|---|
| Values.Wrap64 | vtl-engine/src/main/java/fr/insee/vtl/engine/visitors/expression/ArithmeticExprOrConcatVisitor.java:43 | Java `long` `+`/`-`/`*`: the result is in the 64-bit range, congruent to the exact result modulo 2^64, and equal to it when it fits |
| Values.Wrap32 | vtl-engine/src/main/java/fr/insee/vtl/engine/visitors/expression/functions/NumericFunctionsVisitor.java:176 | `Long.intValue()` of the decimal count: a 32-bit value congruent to the long, equal to it when it fits |
| Values.SaturateToLong | vtl-engine/src/main/java/fr/insee/vtl/engine/visitors/expression/functions/NumericFunctionsVisitor.java:101 | `Double.longValue()` of `Math.floor`: saturates at the 64-bit bounds, exact inside them |
| Values.Cast | java-vtl-engine/src/main/java/fr/insee/vtl/engine/visitors/expression/ArithmeticVisitor.java:57 | a reference cast `(Long) v` / `(Double) v` passes `null` and values of the class unchanged and throws ClassCast otherwise |
| Comparison.CodeUnits | vtl-engine/src/main/java/fr/insee/vtl/engine/visitors/expression/ComparisonVisitor.java:58-63 | the UTF-16 encoding of one character: one unit below U+10000, else a surrogate pair, every unit below 0x10000 |
| Comparison.Utf16Injective | vtl-engine/src/main/java/fr/insee/vtl/engine/visitors/expression/ComparisonVisitor.java:58-63 | different strings have different UTF-16 encodings |
| Comparison.StringCompare | vtl-engine/src/main/java/fr/insee/vtl/engine/visitors/expression/ComparisonVisitor.java:58-63 | `String.compareTo` read as a sign in {-1, 0, 1}: lexicographic order of the UTF-16 code units |
| Comparison.StringCompareIsByCodeUnit | vtl-engine/src/main/java/fr/insee/vtl/engine/visitors/expression/ComparisonVisitor.java:58-63 | U+FFFF sorts after U+1F600 (whose first unit is a surrogate), and a proper prefix sorts first |
| Comparison.StringCompareAntisymmetric | vtl-engine/src/main/java/fr/insee/vtl/engine/visitors/expression/ComparisonVisitor.java:85-105 | swapping the strings negates the sign |
| Comparison.StringCompareZeroIffEqual | vtl-engine/src/main/java/fr/insee/vtl/engine/visitors/expression/ComparisonVisitor.java:58-63 | the sign is 0 exactly for equal strings |
| Comparison.CompareTo | vtl-engine/src/main/java/fr/insee/vtl/engine/visitors/expression/ComparisonVisitor.java:58-63 | `compareTo` of two non-null values of one class is a sign in {-1, 0, 1} |
| Comparison.CompareToAntisymmetric | vtl-engine/src/main/java/fr/insee/vtl/engine/visitors/expression/ComparisonVisitor.java:85-105 | `a.compareTo(b) == -b.compareTo(a)` |
| Comparison.CompareToZeroIffEqual | vtl-engine/src/main/java/fr/insee/vtl/engine/visitors/expression/ComparisonVisitor.java:58-63 | `compareTo` is 0 exactly for equal values |
| Comparison.IsEqual | vtl-engine/src/main/java/fr/insee/vtl/engine/visitors/expression/ComparisonVisitor.java:58-63 | generic `isEqual` is null exactly when an operand is null, otherwise the Boolean of value equality; values of different classes throw ClassCast |
| Comparison.IsLessThan | vtl-engine/src/main/java/fr/insee/vtl/engine/visitors/expression/ComparisonVisitor.java:85-90 | generic `isLessThan` is null exactly when an operand is null; otherwise `compareTo < 0` for values of one class, and ClassCast for values of different classes |
| Comparison.IsGreaterThan | vtl-engine/src/main/java/fr/insee/vtl/engine/visitors/expression/ComparisonVisitor.java:100-105 | generic `isGreaterThan` is null exactly when an operand is null; otherwise `compareTo > 0` for values of one class, and ClassCast for values of different classes |
| Comparison.NegatedComparisonAsWrittenThrowsOnNull | vtl-engine/src/main/java/fr/insee/vtl/engine/visitors/expression/ComparisonVisitor.java:73-75 | as written, `!isEqual`, `!isGreaterThan` and `!isLessThan` throw NullPointer when either operand is null (see Findings) |
| Comparison.GenericAsWritten | vtl-engine/src/main/java/fr/insee/vtl/engine/visitors/expression/ComparisonVisitor.java:58-129 | the generic comparators as written: a Boolean or null; with non-null operands an error exactly when their classes differ; every error is ClassCast or NullPointer |
| Comparison.Generic | vtl-engine/src/main/java/fr/insee/vtl/engine/visitors/expression/ComparisonVisitor.java:58-129 | the generic comparators with three-valued negation: a Boolean or null, and an error exactly for non-null operands of different classes, which is ClassCast |
| Comparison.GenericDiffersOnlyOnNegatedNull | vtl-engine/src/main/java/fr/insee/vtl/engine/visitors/expression/ComparisonVisitor.java:73-129 | the two differ only for `<>`, `<=` and `>=` with a null operand, where the code as written throws NullPointer and the corrected one gives null |
| Comparison.GenericNullIffNullOperand | vtl-engine/src/main/java/fr/insee/vtl/engine/visitors/expression/ComparisonVisitor.java:73-75 | with three-valued negation every generic comparator yields null exactly when an operand is null (see Findings) |
| Comparison.LessThanIsConverseOfGreaterThan | vtl-engine/src/main/java/fr/insee/vtl/engine/visitors/expression/ComparisonVisitor.java:85-105 | `isLessThan(a, b) == isGreaterThan(b, a)` on all values, nulls included |
| Comparison.OrEqualComparators | vtl-engine/src/main/java/fr/insee/vtl/engine/visitors/expression/ComparisonVisitor.java:107-129 | on non-null values of one class, `<=` is `<` or `=`, `>=` is `>` or `=`, and `<>` is the negation of `=` |
| Comparison.MixedCompare | vtl-engine/src/main/java/fr/insee/vtl/engine/visitors/expression/ComparisonVisitor.java:50-56 | `BigDecimal.compareTo` of a Long and a Double: NullPointer on a null operand, defined exactly for two numbers, a sign that is 0 exactly for equal values |
| Comparison.Mixed | vtl-engine/src/main/java/fr/insee/vtl/engine/visitors/expression/ComparisonVisitor.java:50-129 | each mixed comparator throws NullPointer on a null operand and otherwise gives a Boolean, for exactly the number operands |
| Comparison.MixedIsExact | vtl-engine/src/main/java/fr/insee/vtl/engine/visitors/expression/ComparisonVisitor.java:50-56 | the mixed Long/Double comparators compare the exact values, `=` being exact equality and `<` exact order |
| Comparison.MixedSymmetric | vtl-engine/src/main/java/fr/insee/vtl/engine/visitors/expression/ComparisonVisitor.java:50-98 | mixed `=` and `<>` commute, and mixed `<` (`<=`) of `(a, b)` is `>` (`>=`) of `(b, a)` |
| Comparison.CompareAt | vtl-engine/src/main/java/fr/insee/vtl/engine/visitors/expression/ComparisonVisitor.java:155-170 | a comparison on a binding evaluates the left operand, then the right one (their errors propagate in that order), then applies the mixed comparator for a Long/Double pair and the generic one otherwise; the value is a Boolean or null, never null from the mixed comparator |
| Comparison.VisitComparisonExpr | vtl-engine/src/main/java/fr/insee/vtl/engine/visitors/expression/ComparisonVisitor.java:138-175 | Boolean-typed; a statically null operand gives an expression that is always null; otherwise the operand types must be comparable (InvalidType) and the operator known (UnsupportedOperation), and the result evaluates both operands then the comparator |
| Comparison.ComparisonIsSound | vtl-engine/src/main/java/fr/insee/vtl/engine/visitors/expression/ComparisonVisitor.java:138-175 | a comparison of sound operands evaluates to a Boolean or null, or fails |
| Comparison.TypesOfSize | vtl-engine/src/main/java/fr/insee/vtl/engine/visitors/expression/ComparisonVisitor.java:228-237 | a list has one type exactly when its set of types has one element, which is then the first constant's type |
| Comparison.VisitLists | vtl-engine/src/main/java/fr/insee/vtl/engine/visitors/expression/ComparisonVisitor.java:220-250 | a list literal succeeds exactly when its constants share one type; the contained type is that type and the values keep source order; otherwise ConflictingTypes with the set of types found |
| Comparison.VisitInNotInExpr | vtl-engine/src/main/java/fr/insee/vtl/engine/visitors/expression/ComparisonVisitor.java:184-211 | the operand type must equal the contained type (InvalidType, before any evaluation); only `in`/`not in` succeed; the result is Boolean and evaluates membership of the operand's value |
| Comparison.MembershipAt | vtl-engine/src/main/java/fr/insee/vtl/engine/visitors/expression/ComparisonVisitor.java:195-207 | membership on a binding fails exactly when the operand fails, with its error, and is otherwise the Boolean `(value in list) == positive` |
| Comparison.InIsMembershipAndNotInItsNegation | vtl-engine/src/main/java/fr/insee/vtl/engine/visitors/expression/ComparisonVisitor.java:195-207 | `x in L` is value membership and `x not in L` its exact negation, for every binding with a non-null operand |
| Comparison.MembershipExamples | vtl-engine/src/main/java/fr/insee/vtl/engine/visitors/expression/ComparisonVisitor.java:184-250 | `3 in {1, 2, 3}` is true, `"x" in {1, 2, 3}` raises InvalidType, and a mixed list is rejected |
| ArithmeticConcat.DoubleOperands | vtl-engine/src/main/java/fr/insee/vtl/engine/visitors/expression/ArithmeticExprOrConcatVisitor.java:47-50 | the Double lambdas resolve the left then the right operand before widening either: the left error first, then the right error, and only then a null operand fails |
| ArithmeticConcat.RightErrorBeforeLeftNull | vtl-engine/src/main/java/fr/insee/vtl/engine/visitors/expression/ArithmeticExprOrConcatVisitor.java:47-50 | so `x + e` with `x` null and `e` failing gives the error of `e`, not NullPointer |
| ArithmeticConcat.HandleAdditive | vtl-engine/src/main/java/fr/insee/vtl/engine/visitors/expression/ArithmeticExprOrConcatVisitor.java:36-72 | `+`/`-` succeed exactly when both operands pass the number check (the left one is reported first); the result type is Long exactly for Long and Long |
| ArithmeticConcat.HandleConcat | vtl-engine/src/main/java/fr/insee/vtl/engine/visitors/expression/ArithmeticExprOrConcatVisitor.java:74-82 | `||` succeeds exactly when both operands pass the String check (the left one is reported first) and is String-typed |
| ArithmeticConcat.VisitArithmeticExprOrConcat | vtl-engine/src/main/java/fr/insee/vtl/engine/visitors/expression/ArithmeticExprOrConcatVisitor.java:22-34 | PLUS and MINUS go to the additive handler, CONCAT to the concatenation, anything else raises UnsupportedOperation |
| ArithmeticConcat.LongAdditiveIsExact | vtl-engine/src/main/java/fr/insee/vtl/engine/visitors/expression/ArithmeticExprOrConcatVisitor.java:39-64 | Long `+`/`-` of Long operands is Long-typed and evaluates to the 64-bit wrapped sum/difference, the exact one when it fits |
| ArithmeticConcat.DoubleAdditiveWidens | vtl-engine/src/main/java/fr/insee/vtl/engine/visitors/expression/ArithmeticExprOrConcatVisitor.java:46-71 | with a Double operand the result is Double-typed and is the sum/difference of the widened operands |
| ArithmeticConcat.AdditiveNullThrows | vtl-engine/src/main/java/fr/insee/vtl/engine/visitors/expression/ArithmeticExprOrConcatVisitor.java:41-69 | there is no null guard: a null operand value throws NullPointer |
| ArithmeticConcat.AdditiveTypeIsSymmetric | vtl-engine/src/main/java/fr/insee/vtl/engine/visitors/expression/ArithmeticExprOrConcatVisitor.java:36-72 | whether `+`/`-` type-check, and their result type, do not depend on the operand order |
| ArithmeticConcat.AdditiveIsSound | vtl-engine/src/main/java/fr/insee/vtl/engine/visitors/expression/ArithmeticExprOrConcatVisitor.java:36-72 | sound operands give a sound `+`/`-` expression: its value always has its static type |
| ArithmeticConcat.ConcatIsLeftThenRight | vtl-engine/src/main/java/fr/insee/vtl/engine/visitors/expression/ArithmeticExprOrConcatVisitor.java:77-81 | the concatenation has length `|x| + |y|`, prefix `x` and suffix `y` |
| ArithmeticConcat.ConcatNullThrows | vtl-engine/src/main/java/fr/insee/vtl/engine/visitors/expression/ArithmeticExprOrConcatVisitor.java:78-80 | a null String operand makes `concat` throw NullPointer |
| ArithmeticConcat.ConcatIsSound | vtl-engine/src/main/java/fr/insee/vtl/engine/visitors/expression/ArithmeticExprOrConcatVisitor.java:74-82 | sound operands give a sound concatenation |
| Arithmetic.CastOperand | java-vtl-engine/src/main/java/fr/insee/vtl/engine/visitors/expression/ArithmeticVisitor.java:57-93 | a resolved operand cast to its static class is null or of that class |
| Arithmetic.MulAt | java-vtl-engine/src/main/java/fr/insee/vtl/engine/visitors/expression/ArithmeticVisitor.java:53-74 | `*` on a binding: the left operand is resolved, cast and unboxed before the right one, so a null left operand throws NullPointer whatever the right one does; a value is Long exactly for Long by Long, else Double |
| Arithmetic.DivAt | java-vtl-engine/src/main/java/fr/insee/vtl/engine/visitors/expression/ArithmeticVisitor.java:76-98 | `/` on a binding: the left error first, a null left operand throws NullPointer before the right one is evaluated, any null fails, and a value is always a Double |
| Arithmetic.LeftNullBeforeRightError | java-vtl-engine/src/main/java/fr/insee/vtl/engine/visitors/expression/ArithmeticVisitor.java:56-92 | for every operand type pair, `*` and `/` of a null left operand and a failing right one throw NullPointer, not the right error |
| Arithmetic.HandleMultiplication | java-vtl-engine/src/main/java/fr/insee/vtl/engine/visitors/expression/ArithmeticVisitor.java:53-74 | `*` is Long-typed exactly for Long by Long, else Double-typed |
| Arithmetic.HandleDivision | java-vtl-engine/src/main/java/fr/insee/vtl/engine/visitors/expression/ArithmeticVisitor.java:76-98 | `/` is always Double-typed, Long by Long included |
| Arithmetic.VisitArithmeticExpr | java-vtl-engine/src/main/java/fr/insee/vtl/engine/visitors/expression/ArithmeticVisitor.java:36-113 | non-numeric operands raise "unsupported types"; an operator other than MUL/DIV raises "unknown operator"; otherwise the type table of `*` and `/` |
| Arithmetic.ResultTypeDependsOnlyOnTypes | java-vtl-engine/src/main/java/fr/insee/vtl/engine/visitors/expression/ArithmeticVisitor.java:53-98 | success and result type depend only on the operator and the two operand types |
| Arithmetic.ResultTypeIsSymmetric | java-vtl-engine/src/main/java/fr/insee/vtl/engine/visitors/expression/ArithmeticVisitor.java:53-98 | the type of `a * b` is that of `b * a`, and likewise for `/` |
| Arithmetic.MultiplicationIsProduct | java-vtl-engine/src/main/java/fr/insee/vtl/engine/visitors/expression/ArithmeticVisitor.java:53-74 | `*` evaluates to the product: 64-bit wrapped for Long by Long (exact when it fits), exact on the widened values otherwise |
| Arithmetic.DivisionIsQuotient | java-vtl-engine/src/main/java/fr/insee/vtl/engine/visitors/expression/ArithmeticVisitor.java:76-98 | `/` widens the left Long and evaluates to the exact quotient; a zero divisor gives the non-finite result |
| Arithmetic.SixDividedByThreeIsDouble | java-vtl-engine/src/main/java/fr/insee/vtl/engine/visitors/expression/ArithmeticVisitor.java:86-90 | `6 / 3` is the Double 2.0, not the Long 2 |
| Arithmetic.NullOperandThrows | java-vtl-engine/src/main/java/fr/insee/vtl/engine/visitors/expression/ArithmeticVisitor.java:57-93 | a null operand value makes `*` and `/` throw NullPointer |
| Arithmetic.ArithmeticIsSound | java-vtl-engine/src/main/java/fr/insee/vtl/engine/visitors/expression/ArithmeticVisitor.java:53-98 | sound operands give a sound `*`/`/` expression |
| Decimals.RoundToIsMultiple | vtl-engine/src/main/java/fr/insee/vtl/engine/visitors/expression/functions/NumericFunctionsVisitor.java:175-192 | rounding either way lands on a multiple of the unit, with the sign of the input or zero |
| Decimals.RoundedIsAtScale | vtl-engine/src/main/java/fr/insee/vtl/engine/visitors/expression/functions/NumericFunctionsVisitor.java:175-192 | HALF_UP and DOWN results have at most `s` decimals |
| Decimals.MagnitudeOfInteger | vtl-engine/src/main/java/fr/insee/vtl/engine/visitors/expression/functions/NumericFunctionsVisitor.java:175-192 | an integer multiple of the unit has itself as rounded magnitude and sign |
| Decimals.RoundToMultipleIsIdentity | vtl-engine/src/main/java/fr/insee/vtl/engine/visitors/expression/functions/NumericFunctionsVisitor.java:175-192 | rounding a multiple of the unit changes nothing |
| Decimals.RoundingAtScaleIsIdentity | vtl-engine/src/main/java/fr/insee/vtl/engine/visitors/expression/functions/NumericFunctionsVisitor.java:175-192 | setting a scale the value already has changes nothing |
| Decimals.SetScaleIsIdempotent | vtl-engine/src/main/java/fr/insee/vtl/engine/visitors/expression/functions/NumericFunctionsVisitor.java:175-192 | `round(round(x, d), d) == round(x, d)` and `trunc(trunc(x, d), d) == trunc(x, d)` |
| Decimals.RoundToDownBounds | vtl-engine/src/main/java/fr/insee/vtl/engine/visitors/expression/functions/NumericFunctionsVisitor.java:190-192 | DOWN removes less than one unit of magnitude and never grows the magnitude |
| Decimals.RoundDownBounds | vtl-engine/src/main/java/fr/insee/vtl/engine/visitors/expression/functions/NumericFunctionsVisitor.java:190-192 | `trunc` moves towards zero by less than one unit of the scale, so `|trunc(x, d)| <= |x|` |
| Decimals.RoundHalfUpBounds | vtl-engine/src/main/java/fr/insee/vtl/engine/visitors/expression/functions/NumericFunctionsVisitor.java:175-177 | `round` moves by at most half a unit of the scale |
| Decimals.RoundingExamples | vtl-engine/src/main/java/fr/insee/vtl/engine/visitors/expression/functions/NumericFunctionsVisitor.java:175-192 | HALF_UP breaks ties away from zero (2.345 to 2.35, -2.5 to -3), DOWN cuts (2.34, -2), and a negative scale rounds to hundreds |
| NumericFunctions.NumberOperand | vtl-engine/src/main/java/fr/insee/vtl/engine/visitors/expression/functions/NumericFunctionsVisitor.java:98-100 | `(Number)` cast, null check and `doubleValue()`: null gives no number, a Long or Double gives its real value |
| NumericFunctions.CeilOf | vtl-engine/src/main/java/fr/insee/vtl/engine/visitors/expression/functions/NumericFunctionsVisitor.java:77-82 | `Math.ceil` is the least integer not below `x` |
| NumericFunctions.FloorOf | vtl-engine/src/main/java/fr/insee/vtl/engine/visitors/expression/functions/NumericFunctionsVisitor.java:95-103 | `Math.floor` is the greatest integer not above `x` |
| NumericFunctions.UnaryOf | vtl-engine/src/main/java/fr/insee/vtl/engine/visitors/expression/functions/NumericFunctionsVisitor.java:77-145 | a unary function of a number fails exactly for `ln` of a non-positive and `sqrt` of a negative; `floor` gives a Long, the others a Double; `ceil` lies in `[x, x + 1)` and `abs` is `x` or `-x`, never negative |
| NumericFunctions.VisitUnaryNumeric | vtl-engine/src/main/java/fr/insee/vtl/engine/visitors/expression/functions/NumericFunctionsVisitor.java:57-145 | an unknown operator raises UnsupportedOperation; the six functions succeed exactly on a number operand (`ceil` reports FunctionNotFound, the others InvalidType); `floor` is Long-typed, the others Double-typed |
| NumericFunctions.UnaryOfNullIsNull | vtl-engine/src/main/java/fr/insee/vtl/engine/visitors/expression/functions/NumericFunctionsVisitor.java:77-145 | each of the six unary functions maps null to null (the null check runs before the sqrt guard) |
| NumericFunctions.UnaryOnNumber | vtl-engine/src/main/java/fr/insee/vtl/engine/visitors/expression/functions/NumericFunctionsVisitor.java:77-145 | on a number: `ceil`/`floor` bracket the value, `abs` is its magnitude, `exp`/`ln` are the library values, `sqrt` of a negative raises InvalidArgument "Sqrt operand has to be 0 or positive" |
| NumericFunctions.LongOperand | vtl-engine/src/main/java/fr/insee/vtl/engine/visitors/expression/functions/NumericFunctionsVisitor.java:173-188 | the decimal count is read as a Long |
| NumericFunctions.VisitUnaryWithOptionalNumeric | vtl-engine/src/main/java/fr/insee/vtl/engine/visitors/expression/functions/NumericFunctionsVisitor.java:153-194 | only ROUND/TRUNC succeed; the operand must be a number and a given decimal count a Long (InvalidType otherwise); the result is Double-typed |
| NumericFunctions.DecimalsDefaultToZero | vtl-engine/src/main/java/fr/insee/vtl/engine/visitors/expression/functions/NumericFunctionsVisitor.java:168-183 | an omitted decimal count behaves exactly as the constant 0 |
| NumericFunctions.SetScaleAt | vtl-engine/src/main/java/fr/insee/vtl/engine/visitors/expression/functions/NumericFunctionsVisitor.java:170-192 | `round`/`trunc` on a binding: the operand's error propagates, a null operand or decimal count gives null, and a value is a Double |
| NumericFunctions.SetScaleNull | vtl-engine/src/main/java/fr/insee/vtl/engine/visitors/expression/functions/NumericFunctionsVisitor.java:170-189 | a null operand, or a null decimal count, gives null |
| NumericFunctions.SetScaleOnNumber | vtl-engine/src/main/java/fr/insee/vtl/engine/visitors/expression/functions/NumericFunctionsVisitor.java:175-192 | `round` is HALF_UP and `trunc` DOWN at the int-truncated scale; `|trunc(x, d)| <= |x|`; applying either twice equals applying it once |
| NumericFunctions.RemainderIsTruncated | vtl-engine/src/main/java/fr/insee/vtl/engine/visitors/expression/functions/NumericFunctionsVisitor.java:227 | Java `%`: smaller than the divisor in magnitude, with the dividend's sign, and the remainder of the quotient truncated towards zero |
| NumericFunctions.VisitBinaryNumeric | vtl-engine/src/main/java/fr/insee/vtl/engine/visitors/expression/functions/NumericFunctionsVisitor.java:202-259 | an unknown operator raises UnsupportedOperation; `mod`/`power`/`log` succeed exactly on two number operands (left reported first) and are Double-typed |
| NumericFunctions.BinaryNull | vtl-engine/src/main/java/fr/insee/vtl/engine/visitors/expression/functions/NumericFunctionsVisitor.java:223-250 | a null operand gives null for `mod`, `power` and `log` |
| NumericFunctions.ModOf | vtl-engine/src/main/java/fr/insee/vtl/engine/visitors/expression/functions/NumericFunctionsVisitor.java:217-229 | `mod(a, 0)` is `a`, and otherwise the result is smaller than the divisor in magnitude |
| NumericFunctions.BinaryOf | vtl-engine/src/main/java/fr/insee/vtl/engine/visitors/expression/functions/NumericFunctionsVisitor.java:223-257 | `mod` and `power` of two numbers always give a Double; `log` gives one exactly when `a > 0`, `base >= 1` and `ln(base) != 0` |
| NumericFunctions.ModCases | vtl-engine/src/main/java/fr/insee/vtl/engine/visitors/expression/functions/NumericFunctionsVisitor.java:217-229 | `mod(a, 0)` is `a`; otherwise the truncated remainder, negated for a negative divisor, smaller than the divisor in magnitude |
| NumericFunctions.ModExamples | vtl-engine/src/main/java/fr/insee/vtl/engine/visitors/expression/functions/NumericFunctionsVisitor.java:226-227 | `mod(7, 3) = 1`, `mod(-7, 3) = -1`, `mod(7, -3) = -1`, `mod(7, 0) = 7` |
| NumericFunctions.LogGuards | vtl-engine/src/main/java/fr/insee/vtl/engine/visitors/expression/functions/NumericFunctionsVisitor.java:253-257 | `log` raises "Log operand has to be positive" for `a <= 0`, then "Log base has to be greater or equal than 1" for `base < 1`, else the quotient of logarithms |
| NumericFunctions.UnaryIsSound | vtl-engine/src/main/java/fr/insee/vtl/engine/visitors/expression/functions/NumericFunctionsVisitor.java:57-145 | sound operands give sound unary expressions |
| NumericFunctions.OptionalIsSound | vtl-engine/src/main/java/fr/insee/vtl/engine/visitors/expression/functions/NumericFunctionsVisitor.java:153-194 | sound operands give sound `round`/`trunc` expressions |
| NumericFunctions.BinaryIsSound | vtl-engine/src/main/java/fr/insee/vtl/engine/visitors/expression/functions/NumericFunctionsVisitor.java:202-259 | sound operands give sound binary expressions |
| OrderedMap.Empty | vtl-engine/src/main/java/fr/insee/vtl/engine/visitors/ClauseVisitor.java:172 | a new `LinkedHashMap` is empty and well formed |
| OrderedMap.Put | vtl-engine/src/main/java/fr/insee/vtl/engine/visitors/ClauseVisitor.java:182 | `put` sets the key, leaves every other key and the existing order, and appends a new key last |
| OrderedMap.PutValid | vtl-engine/src/main/java/fr/insee/vtl/engine/visitors/ClauseVisitor.java:182 | `put` keeps the map well formed: the insertion order lists every key exactly once |
| OrderedMap.FromPairsValid | vtl-engine/src/main/java/fr/insee/vtl/engine/visitors/ClauseVisitor.java:172-183 | `put` of each pair in turn gives a well-formed ordered map |
| OrderedMap.FromPairsKeys | vtl-engine/src/main/java/fr/insee/vtl/engine/visitors/ClauseVisitor.java:172-183 | the keys of the built map are exactly the pairs' keys |
| OrderedMap.FromPairsLastWins | vtl-engine/src/main/java/fr/insee/vtl/engine/visitors/ClauseVisitor.java:182 | each key holds the value of its last pair |
| OrderedMap.FromPairsOrder | vtl-engine/src/main/java/fr/insee/vtl/engine/visitors/ClauseVisitor.java:172-183 | with distinct keys the insertion order is the order of the pairs |
| ClauseVisitor.GetName | vtl-engine/src/main/java/fr/insee/vtl/engine/visitors/ClauseVisitor.java:55-67 | the single quote `'` alone makes `substring(1, 0)` throw and is the only text that fails; an unquoted text is returned unchanged |
| ClauseVisitor.GetNameUnquotes | vtl-engine/src/main/java/fr/insee/vtl/engine/visitors/ClauseVisitor.java:55-67 | a quoted text loses exactly one pair of surrounding quotes: putting them back gives the text |
| ClauseVisitor.QuotedNameRoundTrip | vtl-engine/src/main/java/fr/insee/vtl/engine/visitors/ClauseVisitor.java:62-66 | quoting a name and reading it back gives the name |
| ClauseVisitor.NameExamples | vtl-engine/src/main/java/fr/insee/vtl/engine/visitors/ClauseVisitor.java:62-66 | only one pair of quotes is removed and an unquoted name stays as it is |
| ClauseVisitor.NameSet | vtl-engine/src/main/java/fr/insee/vtl/engine/visitors/ClauseVisitor.java:116-117 | the names of the component ids as a set: fails exactly when a name cannot be read |
| ClauseVisitor.NameSetMembers | vtl-engine/src/main/java/fr/insee/vtl/engine/visitors/ClauseVisitor.java:116-117 | the set holds the name of every id and nothing else |
| ClauseVisitor.KeepOrDropMembership | vtl-engine/src/main/java/fr/insee/vtl/engine/visitors/ClauseVisitor.java:118-120 | a column is kept exactly when it is a column and `keep == names.contains(column)` |
| ClauseVisitor.KeepOrDropKeepsOrder | vtl-engine/src/main/java/fr/insee/vtl/engine/visitors/ClauseVisitor.java:118-120 | the selection distributes over concatenation, so it keeps the structure's order |
| ClauseVisitor.KeepAndDropPartition | vtl-engine/src/main/java/fr/insee/vtl/engine/visitors/ClauseVisitor.java:113-123 | `keep S` and `drop S` split the columns between them (as multisets) |
| ClauseVisitor.VisitKeepOrDropClause | vtl-engine/src/main/java/fr/insee/vtl/engine/visitors/ClauseVisitor.java:113-123 | one projection of the clause's dataset on the selected columns, in structure order |
| ClauseVisitor.ConvertToAggregation | vtl-engine/src/main/java/fr/insee/vtl/engine/visitors/ClauseVisitor.java:77-110 | COUNT needs no operand; the nine other functions need a number operand (InvalidType) and aggregate that column; any other function raises NotImplemented |
| ClauseVisitor.CalcStep | vtl-engine/src/main/java/fr/insee/vtl/engine/visitors/ClauseVisitor.java:134-153 | one item goes through exactly when its name reads and its expression is visited, and otherwise fails with the first of those errors; an analytic item leaves the batch alone and any other item leaves the current dataset alone |
| ClauseVisitor.CalcPlan | vtl-engine/src/main/java/fr/insee/vtl/engine/visitors/ClauseVisitor.java:134-161 | the clause goes through exactly when every item does; no items give the dataset unchanged |
| ClauseVisitor.CalcFoldStopsAtError | vtl-engine/src/main/java/fr/insee/vtl/engine/visitors/ClauseVisitor.java:134-155 | once an item fails the loop result no longer changes |
| ClauseVisitor.VisitCalcClause | vtl-engine/src/main/java/fr/insee/vtl/engine/visitors/ClauseVisitor.java:125-162 | the loop over the items computes the calc plan |
| ClauseVisitor.CalcFoldResolves | vtl-engine/src/main/java/fr/insee/vtl/engine/visitors/ClauseVisitor.java:134-155 | the loop fails exactly on an unreadable name or an expression the expression visitor rejects |
| ClauseVisitor.CalcPlanFailsAt | vtl-engine/src/main/java/fr/insee/vtl/engine/visitors/ClauseVisitor.java:134-155 | the first failing item fails the whole clause with its own error, the name's before the expression's |
| ClauseVisitor.CalcFoldDecomposes | vtl-engine/src/main/java/fr/insee/vtl/engine/visitors/ClauseVisitor.java:134-155 | the running dataset is the analytic items chained in item order, and the batch maps are `put` of the other items in item order, role MEASURE by default |
| ClauseVisitor.CalcPlanShape | vtl-engine/src/main/java/fr/insee/vtl/engine/visitors/ClauseVisitor.java:134-161 | the clause goes through exactly when every name reads and every expression is visited; then analytic items first, in order, then exactly one `executeCalc` of the batch if the batch is non-empty and none otherwise |
| ClauseVisitor.CalcFoldLastDefinition | vtl-engine/src/main/java/fr/insee/vtl/engine/visitors/ClauseVisitor.java:136-152 | each batch column has the text and role of its last item, MEASURE when that item gives none |
| ClauseVisitor.BatchNamesAgree | vtl-engine/src/main/java/fr/insee/vtl/engine/visitors/ClauseVisitor.java:150-152 | the expression and role maps receive the same names in the same order |
| ClauseVisitor.CalcBatchKeepsItemOrder | vtl-engine/src/main/java/fr/insee/vtl/engine/visitors/ClauseVisitor.java:128-152 | with distinct names the batch and its roles list the names in item order |
| ClauseVisitor.RenameStep | vtl-engine/src/main/java/fr/insee/vtl/engine/visitors/ClauseVisitor.java:174-181 | one item goes through exactly when both names read and the target is new; an unreadable target is IndexOutOfBounds; a success adds the target to the used set |
| ClauseVisitor.RenamePlan | vtl-engine/src/main/java/fr/insee/vtl/engine/visitors/ClauseVisitor.java:171-185 | a plan is one `executeRename` of the clause's dataset; no items give the empty map |
| ClauseVisitor.RenameFoldStopsAtError | vtl-engine/src/main/java/fr/insee/vtl/engine/visitors/ClauseVisitor.java:174-183 | once an item fails the loop result no longer changes |
| ClauseVisitor.VisitRenameClause | vtl-engine/src/main/java/fr/insee/vtl/engine/visitors/ClauseVisitor.java:170-185 | the loop over the items computes the rename plan |
| ClauseVisitor.RenameStepRejects | vtl-engine/src/main/java/fr/insee/vtl/engine/visitors/ClauseVisitor.java:175-181 | an item fails on an unreadable target name, then on an unreadable source name, then on a target already used, with that error |
| ClauseVisitor.RenamePlanFailsAt | vtl-engine/src/main/java/fr/insee/vtl/engine/visitors/ClauseVisitor.java:174-181 | the first failing item fails the whole clause with its own error |
| ClauseVisitor.RenameFoldAccepts | vtl-engine/src/main/java/fr/insee/vtl/engine/visitors/ClauseVisitor.java:172-183 | with readable names and distinct targets the map is `put` of the pairs in item order and the set holds the targets |
| ClauseVisitor.RenameStepRejectsRepeat | vtl-engine/src/main/java/fr/insee/vtl/engine/visitors/ClauseVisitor.java:177-181 | the first item whose target repeats an earlier one raises "duplicate column: <target>" |
| ClauseVisitor.RenameFoldRejectsRepeat | vtl-engine/src/main/java/fr/insee/vtl/engine/visitors/ClauseVisitor.java:174-183 | the whole clause fails with the first repeated target |
| ClauseVisitor.RenameFoldOkOnlyIfDistinct | vtl-engine/src/main/java/fr/insee/vtl/engine/visitors/ClauseVisitor.java:174-183 | the loop goes through only if every name reads and the targets are distinct |
| ClauseVisitor.RenamePlanShape | vtl-engine/src/main/java/fr/insee/vtl/engine/visitors/ClauseVisitor.java:171-185 | accepted exactly for readable names with distinct targets, and then one `executeRename` with the map in item order |
| ClauseVisitor.DatasetItems | vtl-engine/src/main/java/fr/insee/vtl/engine/visitors/ClauseVisitor.java:191-193 | the items over an expression, and only those, in item order |
| ClauseVisitor.ToMaps | vtl-engine/src/main/java/fr/insee/vtl/engine/visitors/ClauseVisitor.java:195-209 | the three `toMap` fail only on an unreadable name, an expression the expression visitor rejects, or a DuplicateKey |
| ClauseVisitor.ToMapsFailsAt | vtl-engine/src/main/java/fr/insee/vtl/engine/visitors/ClauseVisitor.java:195-200 | the first failing item fails the maps with its own error: its unreadable name, then its rejected expression, then its repeated name |
| ClauseVisitor.ToMapsValid | vtl-engine/src/main/java/fr/insee/vtl/engine/visitors/ClauseVisitor.java:195-209 | when the three `toMap` go through, both maps are well formed |
| ClauseVisitor.ToMapsAccepts | vtl-engine/src/main/java/fr/insee/vtl/engine/visitors/ClauseVisitor.java:195-209 | with distinct names the maps go through and list the names in item order |
| ClauseVisitor.ToMapsValues | vtl-engine/src/main/java/fr/insee/vtl/engine/visitors/ClauseVisitor.java:195-209 | each name carries its own item's source text and role, MEASURE when none is given |
| ClauseVisitor.ToMapsOkOnlyIfDistinct | vtl-engine/src/main/java/fr/insee/vtl/engine/visitors/ClauseVisitor.java:195-209 | the maps go through only if every name reads, every expression is visited and no name repeats |
| ClauseVisitor.Collector | vtl-engine/src/main/java/fr/insee/vtl/engine/visitors/ClauseVisitor.java:220-242 | an alias absent from the normalised structure gets `count()`; a present one gets the converted aggregation over the column named by the alias, a non-dataset grouping failing the cast |
| ClauseVisitor.CollectorFoldStopsAtError | vtl-engine/src/main/java/fr/insee/vtl/engine/visitors/ClauseVisitor.java:219-243 | once an item fails the loop result no longer changes |
| ClauseVisitor.CollectorFold | vtl-engine/src/main/java/fr/insee/vtl/engine/visitors/ClauseVisitor.java:218-243 | the collector map has at most one entry per item |
| ClauseVisitor.CollectAggregations | vtl-engine/src/main/java/fr/insee/vtl/engine/visitors/ClauseVisitor.java:218-243 | the second loop computes the collector map |
| ClauseVisitor.VisitAggrClause | vtl-engine/src/main/java/fr/insee/vtl/engine/visitors/ClauseVisitor.java:187-246 | one `executeCalc` of the expression items, then one `executeAggr` with the collector map |
| ClauseVisitor.CollectorFoldOk | vtl-engine/src/main/java/fr/insee/vtl/engine/visitors/ClauseVisitor.java:219-243 | the second loop goes through exactly when every alias reads and every collector can be built |
| ClauseVisitor.CollectorFoldDecomposes | vtl-engine/src/main/java/fr/insee/vtl/engine/visitors/ClauseVisitor.java:218-243 | the collector map is `put` of each item's alias and aggregation in item order |
| ClauseVisitor.AggrPlan | vtl-engine/src/main/java/fr/insee/vtl/engine/visitors/ClauseVisitor.java:187-246 | a plan is one `executeAggr` with the group-by list over one `executeCalc` of the clause's dataset |
| ClauseVisitor.AggrPlanShape | vtl-engine/src/main/java/fr/insee/vtl/engine/visitors/ClauseVisitor.java:188-246 | the aggr plan goes through exactly when both phases do, and is then `executeAggr` over the normalised `executeCalc` |
| ClauseVisitor.NormalizedColumns | vtl-engine/src/main/java/fr/insee/vtl/engine/visitors/ClauseVisitor.java:191-211 | the first phase goes through exactly for distinct readable names whose expressions are visited, and names one column after each aggregate over an expression, in order |
| ClauseVisitor.AggrCollectors | vtl-engine/src/main/java/fr/insee/vtl/engine/visitors/ClauseVisitor.java:218-243 | each alias holds the aggregation of its last item, and with distinct aliases the collector order is the item order |
| SparkEngine.RoleMap | vtl-spark/src/main/java/fr/insee/vtl/spark/SparkProcessingEngine.java:52-62 | `getRoleMap`: keys are the component names, each name maps to its component's role; a repeated name raises DuplicateKey |
| SparkEngine.RoleMapOkIffDistinct | vtl-spark/src/main/java/fr/insee/vtl/spark/SparkProcessingEngine.java:52-58 | the role map is built exactly when no name repeats |
| SparkEngine.IdentifierNames | vtl-spark/src/main/java/fr/insee/vtl/spark/SparkProcessingEngine.java:148-153 | the names of the IDENTIFIER components, and only those |
| SparkEngine.IdentifierNamesAppend | vtl-spark/src/main/java/fr/insee/vtl/spark/SparkProcessingEngine.java:148-153 | the identifier names keep component order: they distribute over concatenation |
| SparkEngine.Renamed | vtl-spark/src/main/java/fr/insee/vtl/spark/SparkProcessingEngine.java:265-275 | `rename` selects no more columns than it is given |
| SparkEngine.RenameColumns | vtl-spark/src/main/java/fr/insee/vtl/spark/SparkProcessingEngine.java:265-275 | the loop selects, in input order, each key renamed to its value, each name that is neither key nor value, and drops values that are no key |
| SparkEngine.RenamedAppend | vtl-spark/src/main/java/fr/insee/vtl/spark/SparkProcessingEngine.java:267-273 | renaming distributes over concatenation: input order is kept |
| SparkEngine.RenamedMembership | vtl-spark/src/main/java/fr/insee/vtl/spark/SparkProcessingEngine.java:268-272 | a name is selected exactly when some column is a key renamed to it, or is that name and neither a key nor a value |
| SparkEngine.RenameKeepsUntouched | vtl-spark/src/main/java/fr/insee/vtl/spark/SparkProcessingEngine.java:270-271 | columns that are neither keys nor values are kept as they are |
| SparkEngine.InvertMap | vtl-spark/src/main/java/fr/insee/vtl/spark/SparkProcessingEngine.java:686-690 | on success every value of the map is a key of the result; a failure is DuplicateKey |
| SparkEngine.InvertEntries | vtl-spark/src/main/java/fr/insee/vtl/spark/SparkProcessingEngine.java:686-690 | `toMap(value, key)` over the entries: each value maps back to one of its keys, or a repeated value raises DuplicateKey |
| SparkEngine.InvertEntriesOk | vtl-spark/src/main/java/fr/insee/vtl/spark/SparkProcessingEngine.java:686-690 | the inversion goes through exactly when the listed keys have distinct values |
| SparkEngine.InvertEntriesValues | vtl-spark/src/main/java/fr/insee/vtl/spark/SparkProcessingEngine.java:686-690 | on success every value maps back to the key it came from |
| SparkEngine.InvertMapOk | vtl-spark/src/main/java/fr/insee/vtl/spark/SparkProcessingEngine.java:686-690 | `invertMap` succeeds exactly on an injective map, and its result maps each value back to its key and has the values as keys |
| SparkEngine.RenameOneRoundTrip | vtl-spark/src/main/java/fr/insee/vtl/spark/SparkProcessingEngine.java:601 | one column renamed by the map and then by its inverse comes back |
| SparkEngine.RenameRoundTrip | vtl-spark/src/main/java/fr/insee/vtl/spark/SparkProcessingEngine.java:531-601 | when the map is injective and no target names a non-source column, renaming by the map then by its inverse restores the column list |
| SparkEngine.RenameRoundTripWithExtra | vtl-spark/src/main/java/fr/insee/vtl/spark/SparkProcessingEngine.java:597-601 | columns added between the two renames (the rule columns) that are neither keys nor values survive the inverse rename after the restored ones |
| SparkEngine.RenameRoles | vtl-spark/src/main/java/fr/insee/vtl/spark/SparkProcessingEngine.java:256-260 | the role loop of `executeRename` computes the specified role map |
| SparkEngine.RenamedRolesUntouched | vtl-spark/src/main/java/fr/insee/vtl/spark/SparkProcessingEngine.java:256-260 | a name that is no target keeps its original role, or stays absent |
| SparkEngine.RenamedRolesTarget | vtl-spark/src/main/java/fr/insee/vtl/spark/SparkProcessingEngine.java:258-260 | a target takes the role its source had in the original map (null when the source had none); the last entry for a target wins |
| SparkEngine.AsMap | vtl-spark/src/main/java/fr/insee/vtl/spark/SparkProcessingEngine.java:292-296 | the structure as a map from name to component, keyed by the column names |
| SparkEngine.AsMapDistinct | vtl-spark/src/main/java/fr/insee/vtl/spark/SparkProcessingEngine.java:292-296 | with distinct names each name looks up its own component |
| SparkEngine.SameStructureIgnoresOrder | vtl-spark/src/main/java/fr/insee/vtl/spark/SparkProcessingEngine.java:296 | structure equality ignores the column order |
| SparkEngine.CheckColNameCompatibility | vtl-spark/src/main/java/fr/insee/vtl/spark/SparkProcessingEngine.java:290-302 | true exactly when every structure equals the first |
| SparkEngine.Stack | vtl-spark/src/main/java/fr/insee/vtl/spark/SparkProcessingEngine.java:332-336 | the stacked rows number the rows of all the tables, and begin with the first table's rows |
| SparkEngine.StackMembership | vtl-spark/src/main/java/fr/insee/vtl/spark/SparkProcessingEngine.java:332-336 | a tuple is stacked exactly when it is a row of one of the input tables |
| SparkEngine.StackOrder | vtl-spark/src/main/java/fr/insee/vtl/spark/SparkProcessingEngine.java:332-336 | `union` keeps every row in place: row `k` of table `i` is at position (rows of the tables before `i`) + `k` |
| SparkEngine.ReorderedInputIsMisread | vtl-spark/src/main/java/fr/insee/vtl/spark/SparkProcessingEngine.java:290-336 | two structures with the same columns in another order pass the compatibility check, and the positional `union` then reads the second table's measure as the identifier |
| SparkEngine.DataRoles | vtl-spark/src/main/java/fr/insee/vtl/spark/SparkProcessingEngine.java:311-317 | the union's roles map each name of the first structure |
| SparkEngine.DataRolesAreRoleMap | vtl-spark/src/main/java/fr/insee/vtl/spark/SparkProcessingEngine.java:311-317 | with distinct names the union's roles are the first structure's `getRoleMap` |
| SparkEngine.IdColumnsAreIdentifierNames | vtl-spark/src/main/java/fr/insee/vtl/spark/SparkProcessingEngine.java:319-326 | the de-duplication key is the IDENTIFIER columns in the first dataset's column order |
| SparkEngine.UnionRoles | vtl-spark/src/main/java/fr/insee/vtl/spark/SparkProcessingEngine.java:313-317 | the `dataRoles` loop computes the union's roles |
| SparkEngine.UnionIdColumns | vtl-spark/src/main/java/fr/insee/vtl/spark/SparkProcessingEngine.java:320-326 | the `idColList` loop computes the de-duplication key |
| SparkEngine.StackRows | vtl-spark/src/main/java/fr/insee/vtl/spark/SparkProcessingEngine.java:332-336 | the `union` fold stacks the tuples of every table, table after table, by position |
| SparkEngine.ExecuteUnion | vtl-spark/src/main/java/fr/insee/vtl/spark/SparkProcessingEngine.java:305-340 | an empty list fails at `get(0)`; incompatible structures raise "The schema of the dataset is not compatible"; a single input is returned unchanged; otherwise the positionally stacked tuples with the first structure's roles and identifier key |
| SparkEngine.DecimalString | vtl-spark/src/main/java/fr/insee/vtl/spark/SparkProcessingEngine.java:179 | `Integer.toString` of a size: only digits, at least one |
| SparkEngine.DecimalStringInjective | vtl-spark/src/main/java/fr/insee/vtl/spark/SparkProcessingEngine.java:179 | different numbers print differently |
| SparkEngine.LastUnderscoreOfAlias | vtl-spark/src/main/java/fr/insee/vtl/spark/SparkProcessingEngine.java:179 | the underscore an alias adds is its last one |
| SparkEngine.AliasInjective | vtl-spark/src/main/java/fr/insee/vtl/spark/SparkProcessingEngine.java:179 | `name + "_" + k` determines both the name and the position |
| SparkEngine.Aliases | vtl-spark/src/main/java/fr/insee/vtl/spark/SparkProcessingEngine.java:178-183 | item `k` (in map order) gets the alias `name_k` |
| SparkEngine.AliasMapFacts | vtl-spark/src/main/java/fr/insee/vtl/spark/SparkProcessingEngine.java:178-183 | every alias maps back to its name, and the map holds nothing else |
| SparkEngine.CalcAliases | vtl-spark/src/main/java/fr/insee/vtl/spark/SparkProcessingEngine.java:175-183 | the alias loop builds that map, one entry per item (the size counter is the position) |
| SparkEngine.CalcEvaluated | vtl-spark/src/main/java/fr/insee/vtl/spark/SparkProcessingEngine.java:201-222 | every alias that is not already a column is appended, in order; existing columns are skipped |
| SparkEngine.ExecuteCalc | vtl-spark/src/main/java/fr/insee/vtl/spark/SparkProcessingEngine.java:168-199 | a structure with a repeated name raises DuplicateKey; otherwise the columns are the evaluated ones renamed back by the alias map, and the roles are `getRoleMap` overridden by the supplied roles |
| SparkEngine.CalcRoles | vtl-spark/src/main/java/fr/insee/vtl/spark/SparkProcessingEngine.java:195-196 | the roles of `executeCalc`'s result: every column of the structure and every supplied name has a role, a supplied role wins, and a column not supplied keeps its own role |
| SparkEngine.MissingAll | vtl-spark/src/main/java/fr/insee/vtl/spark/SparkProcessingEngine.java:204-208 | when no alias is a column, every alias is appended |
| SparkEngine.RenameAliasesBack | vtl-spark/src/main/java/fr/insee/vtl/spark/SparkProcessingEngine.java:192 | the aliases rename back to the item names, in order |
| SparkEngine.RenameKeptColumns | vtl-spark/src/main/java/fr/insee/vtl/spark/SparkProcessingEngine.java:192 | existing columns that are no alias are kept by the back-rename, except those an item recomputes |
| SparkEngine.CalcColumns | vtl-spark/src/main/java/fr/insee/vtl/spark/SparkProcessingEngine.java:175-192 | when no alias is already a column, `calc` yields the columns it does not recompute followed by the item names in order |
| SparkEngine.DatapointRoles | vtl-spark/src/main/java/fr/insee/vtl/spark/SparkProcessingEngine.java:537-541 | `ruleid` is an IDENTIFIER, `bool_var`, `errorlevel`, `errorcode` are MEASUREs, and every other role is unchanged |
| SparkEngine.SimpleRoles | vtl-spark/src/main/java/fr/insee/vtl/spark/SparkProcessingEngine.java:662-664 | `errorlevel` and `errorcode` are MEASUREs, every other role is unchanged |
| SparkEngine.RuleValidity | vtl-spark/src/main/java/fr/insee/vtl/spark/SparkProcessingEngine.java:581-589 | a null antecedent gives the consequent, else a null consequent gives the antecedent, else `!a || c`; null exactly when both are null; FALSE exactly for (T, F), (null, F), (F, null) |
| SparkEngine.DatapointError | vtl-spark/src/main/java/fr/insee/vtl/spark/SparkProcessingEngine.java:555-579 | the error code/level is non-null exactly when the expression exists with a non-null value, the antecedent is TRUE and the consequent FALSE, and is then that value |
| SparkEngine.DatapointErrorOnlyWhenInvalid | vtl-spark/src/main/java/fr/insee/vtl/spark/SparkProcessingEngine.java:555-589 | an error code or level only appears on a row the rule marks invalid |
| SparkEngine.InvalidWithoutErrorCode | vtl-spark/src/main/java/fr/insee/vtl/spark/SparkProcessingEngine.java:565-587 | a row can be invalid (null antecedent, FALSE consequent) and still carry no error code |
| SparkEngine.RuleRow | vtl-spark/src/main/java/fr/insee/vtl/spark/SparkProcessingEngine.java:546-597 | a rule's row has exactly the input row's columns and the four rule columns |
| SparkEngine.RuleRowColumns | vtl-spark/src/main/java/fr/insee/vtl/spark/SparkProcessingEngine.java:546-597 | a rule's row carries `ruleid` = rule name, `bool_var` = validity, and the error level and code; every other column is unchanged |
| SparkEngine.RuleRows | vtl-spark/src/main/java/fr/insee/vtl/spark/SparkProcessingEngine.java:597 | one result row per input row, in order |
| SparkEngine.DatapointRowsMembership | vtl-spark/src/main/java/fr/insee/vtl/spark/SparkProcessingEngine.java:546-601 | a row is in the stacked result exactly when it is the row of some rule on some input row |
| SparkEngine.KeepInvalidDropsBoolVar | vtl-spark/src/main/java/fr/insee/vtl/spark/SparkProcessingEngine.java:606-607 | the filter drops `bool_var` from every kept row and keeps no more rows than it is given |
| SparkEngine.KeepInvalidMembership | vtl-spark/src/main/java/fr/insee/vtl/spark/SparkProcessingEngine.java:606-607 | the filter keeps exactly the rows whose `bool_var` is FALSE (not null), without that column |
| SparkEngine.ValidateDatapoints | vtl-spark/src/main/java/fr/insee/vtl/spark/SparkProcessingEngine.java:597-610 | `check_datapoint` fails with IndexOutOfBounds exactly for a ruleset without rules (`executeUnion`'s `get(0)`, line 306); otherwise it returns no more rows than the rules produce, and with output null or "invalid" none of them has `bool_var` |
| SparkEngine.DatapointInvalidOutput | vtl-spark/src/main/java/fr/insee/vtl/spark/SparkProcessingEngine.java:603-609 | for a ruleset with rules and output null or "invalid", a row is returned exactly when it is some rule's row on some input row the rule marks invalid, without `bool_var` |
| SparkEngine.DatapointOtherOutput | vtl-spark/src/main/java/fr/insee/vtl/spark/SparkProcessingEngine.java:601-610 | with any other output every stacked row is returned, and a ruleset without rules fails |
| SparkEngine.BoolVarOf | vtl-spark/src/main/java/fr/insee/vtl/spark/SparkProcessingEngine.java:648-658 | unboxing `bool_var`: a Boolean gives its value, null throws NullPointer, anything else ClassCast |
| SparkEngine.SimpleError | vtl-spark/src/main/java/fr/insee/vtl/spark/SparkProcessingEngine.java:642-660 | no expression gives null; otherwise null on a valid row and the expression's value on an invalid one, and a null `bool_var` throws |
| SparkEngine.SimpleRow | vtl-spark/src/main/java/fr/insee/vtl/spark/SparkProcessingEngine.java:666-671 | `errorlevel` and `errorcode` are added unless the row already has such a column; every existing column is unchanged |
| SparkEngine.SimpleNullValidity | vtl-spark/src/main/java/fr/insee/vtl/spark/SparkProcessingEngine.java:648-659 | a null `bool_var` makes a present error expression throw NullPointer |
| SparkEngine.SimpleRows | vtl-spark/src/main/java/fr/insee/vtl/spark/SparkProcessingEngine.java:671 | every row is computed, in order, and the whole fails if one row does |
| SparkEngine.ValidateSimple | vtl-spark/src/main/java/fr/insee/vtl/spark/SparkProcessingEngine.java:674-683 | by default and for "all" every computed row, otherwise only the invalid rows without `bool_var` |
| SparkEngine.DefaultOutputsDiffer | vtl-spark/src/main/java/fr/insee/vtl/spark/SparkProcessingEngine.java:603-683 | the default outputs differ: a valid row is dropped by `check_datapoint` and kept by the simple validation |

## Left out

- The Spark runtime itself is not modelled, because these are thin calls into a library that is not shown:
  - `select`, `withColumn`, window specifications and `over`;
  - `groupBy().agg` and `convertAggregation`;
  - the joins and `executeJoin`, and so the left join with the imbalance dataset in `executeValidationSimple`;
  - `dropDuplicates`, whose choice among duplicate rows is backend-defined;
  - the analytic functions, UDF wrapping, `colNameToCol`, `buildOrderCol`, `toAliasedDatasets`;
  - `executeAggr`, `executeProject`, `executeFilter` and the `Factory` session lookup.
- The union is left out in part:
  - SparkEngine.ExecuteUnion returns the stacked tuples together with the de-duplication key, without de-duplicating;
  - the tuples carry no column names, as a Spark row does not; `SparkEngine.Column` reads one under a structure;
  - `IndexedHashMap.equals` is not part of this model. Structure equality is taken to compare the name-to-component maps and to ignore column order (`SparkEngine.SameStructureIgnoresOrder`). So reordered inputs pass the check and are then stacked by position (`SparkEngine.ReorderedInputIsMisread`);
  - the `Unchanged` case carries the single input table.
- The first pass of `executeCalc` is not modelled. It is `executeCalcInterpreted`, a Spark-SQL pass that swallows exceptions, with the `System.out.println` in `executeCalcEvaluated`.
  - Columns that pass creates are not modelled either.
  - SparkEngine.ExecuteCalc gives the columns of the evaluated pass only.
- SparkEngine.ExecuteCalc: states the columns and the role map only, not the row values that the expressions compute.
- SparkEngine.CalcColumns assumes that no generated alias names an existing column. The code does not report that collision, and the model does not prove what happens then.
- The datapoint rules work at row level, over rows that the alias renaming has already produced. The renaming there and back is proved on column lists (`SparkEngine.RenameRoundTripWithExtra`), not on rows.
- The rule expressions are functions from a row to an outcome (`SparkEngine.DatapointRule`, `SparkEngine.SimpleRule`).
  - The ruleset's own construction, and the `errorCodeType.cast` of the error value, are not modelled.
  - The model takes the value to be of the declared type.
- The values of `ValidationOutput.INVALID` and `ValidationOutput.ALL` are taken to be `"invalid"` and `"all"`. That enum is not part of this model.
- The order in which `HashMap` iterates is not modelled:
  - for the `toMap` maps of the aggr clause, the model uses item order;
  - for the rule's expression map, the order does not affect a row map.
- Floating point is not modelled: IEEE rounding, infinities and NaN (other than the `NonFinite` error), and the conversion of a `BigDecimal` back to `double`.
  - NumericFunctions.UnaryOnNumber: `exp`, `ln`, `sqrt` and `power` only state that their value is the library value.
  - Decimals.RoundHalfUpBounds: `round` works on `Double.toString` of the operand. The model rounds the exact value.
- The following are parameters or are not modelled:
  - the reflective `invokeFunction` of `ceil`, modelled as accepting number types and raising FunctionNotFound otherwise;
  - the `TypeChecking` helpers, modelled as passing the accepted types (and the null-literal type) and raising InvalidType otherwise;
  - `compareExpressions`, modelled as using the mixed comparator exactly for a Long and a Double operand;
  - `getSource` (expressions are carried by their text), `GroupByVisitor` (the group-by list is a parameter), `AnalyticsVisitor` (an analytic item is a plan node) and the engine's `getDataStructure` (a parameter `structureOf`);
  - `Role.valueOf` of an unknown role text;
  - grouping alternatives other than an aggregate over an expression, which fail the cast to `AggrDatasetContext` as ClassCast.
- Comparison.CompareAt: applies the corrected generic comparators (`Comparison.Generic`), so a null operand of `<>`, `<=` or `>=` gives null where the code as written throws NullPointer.
- Comparison.VisitComparisonExpr: evaluates the generic `<>`, `<=` and `>=` with three-valued negation, so a null operand gives null. As written they throw NullPointer on a null operand. `Comparison.GenericAsWritten` models the code as written and `Comparison.GenericDiffersOnlyOnNegatedNull` states where the two differ.
- Comparison.IsEqual and the other generic comparators: ComparisonVisitor.java declares two pairs of methods with the same erasure, the private `boolean isEqual(T, T)` and `boolean isNotEqual(T, T)` at 42-48 and the public `Boolean` ones at 58-75. Java rejects such a pair, so the text does not settle which body `ComparisonVisitor::isEqual` (line 158) and the `!isEqual` at line 74 refer to. The model takes the public, null-guarded pair. Under the private pair, `=` and `<>` with a null operand would also throw NullPointer, at `compareTo`.
- SparkEngine.ValidateDatapoints: with two or more rules the per-rule results go through `executeUnion`, which drops rows that repeat the identifier columns, `ruleid` among them (SparkProcessingEngine.java:538 and 336). The model keeps every row, so it does not capture that de-duplication. Rows are then read by name, since every per-rule result has the same structure.
- The expression visitor itself (`componentExpressionVisitor`) is not modelled inside the clause planner. A calc item's body may be `IllTyped` and an aggr item's grouping may carry a `fault`; either stands for the error that visitor raises, at ClauseVisitor.java:147 for calc and inside the `toMap` at 197-200 for aggr.
- The filter clause is not modelled. It is a single call into the engine.
- SparkEngine.CheckColNameCompatibility requires a non-empty list. `executeUnion` fails on an empty list at `datasets.get(0)` before calling it, and `SparkEngine.ExecuteUnion` models that failure.
- `MembershipVisitor` and `VtlResults` are stubs and have nothing to model.
- The `between`, `match_characters`, `isnull`, `levenshtein`, `nvl` and `if-then-else` functions, and ruleset definition, are not part of this model. Their implementations are not among the modelled files.

## Findings

| source | as written | input that shows it | evidently intended | confidence | as-written member | corrected member |
|---|---|---|---|---|---|---|
| vtl-engine/src/main/java/fr/insee/vtl/engine/visitors/expression/ComparisonVisitor.java:73-129 | the generic `isNotEqual`, `isLessThanOrEqual` and `isGreaterThanOrEqual` return `!isEqual(..)`, `!isGreaterThan(..)` and `!isLessThan(..)`, which unbox a `null` Boolean | `1 <> x` with `x` a Long column whose value is `null`: `isEqual` returns `null`, and `!null` throws NullPointerException | three-valued results, `null` whenever an operand is `null`, as the non-negated comparators give | medium, not executed: derived from the public `Boolean` pair; the same-erasure private `boolean` pair at 42-48 leaves open which body is called (see "## Left out") | Comparison.NegatedComparisonAsWrittenThrowsOnNull | Comparison.GenericNullIffNullOperand |
