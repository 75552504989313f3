/** Values, static types and errors of the VTL expression layer.

    A Java `Class<?>` type tag becomes the closed `Type` enum; a boxed Java value
    (or `null`) becomes a `Value`. Java `Double` is modelled as an exact `real`. */
module Values {

  /** The static type of an expression. `TNull` is the type carried by the
      `null` literal. */
  datatype Type = TLong | TDouble | TString | TBoolean | TNull

  datatype Value =
    | VNull
    | VLong(i: int)
    | VDouble(d: real)
    | VString(s: string)
    | VBool(b: bool)

  /** Errors the engine raises. The Java runtime exceptions that the shown code
      provokes without meaning to (unboxing `null`, a failed cast, an index out
      of range, a duplicate key in `Collectors.toMap`) are listed as well. */
  datatype Error =
    | InvalidType(actual: Type, expected: set<Type>)
    | ConflictingTypes(types: set<Type>)
    | InvalidArgument(message: string)
    | UnsupportedOperation(message: string)
    | IllegalState(message: string)
    | FunctionNotFound(name: string)
    | NotImplemented
    | NullPointer
    | ClassCast
    | NonFinite
    | IndexOutOfBounds
    | DuplicateKey(key: string)
    | SchemaNotCompatible

  datatype Result<+T> = Ok(value: T) | Err(error: Error) {
    predicate IsFailure() { Err? }
    function PropagateFailure<U>(): Result<U> requires Err? { Err(error) }
    function Extract(): T requires Ok? { value }
  }

  datatype Option<+T> = None | Some(value: T)

  /** The static type of a constant. */
  function TypeOf(v: Value): Type
  {
    match v
    case VNull => TNull
    case VLong(_) => TLong
    case VDouble(_) => TDouble
    case VString(_) => TString
    case VBool(_) => TBoolean
  }

  const LONG_MIN: int := -0x8000_0000_0000_0000
  const LONG_MAX: int := 0x7FFF_FFFF_FFFF_FFFF
  const TWO_64: int := 0x1_0000_0000_0000_0000
  const INT_MIN: int := -0x8000_0000
  const INT_MAX: int := 0x7FFF_FFFF
  const TWO_32: int := 0x1_0000_0000

  predicate InLong(x: int) { LONG_MIN <= x <= LONG_MAX }
  predicate InInt(x: int) { INT_MIN <= x <= INT_MAX }

  /** A value is of the given static type: `null` is of every type; a Long must
      lie in the 64-bit range. */
  predicate Conforms(v: Value, t: Type)
  {
    match v
    case VNull => true
    case VLong(i) => t == TLong && InLong(i)
    case VDouble(_) => t == TDouble
    case VString(_) => t == TString
    case VBool(_) => t == TBoolean
  }

  /** Java `long` arithmetic: the exact result reduced into the 64-bit range. */
  function Wrap64(x: int): (r: int)
    ensures InLong(r)
    ensures (r - x) % TWO_64 == 0
    ensures InLong(x) ==> r == x
  {
    (x - LONG_MIN) % TWO_64 + LONG_MIN
  }

  /** `Long.intValue()`: the low 32 bits, as a signed int. */
  function Wrap32(x: int): (r: int)
    ensures InInt(r)
    ensures (r - x) % TWO_32 == 0
    ensures InInt(x) ==> r == x
  {
    (x - INT_MIN) % TWO_32 + INT_MIN
  }

  /** `(long) d` for an integral double `d`: saturates at the 64-bit bounds. */
  function SaturateToLong(x: int): (r: int)
    ensures InLong(r)
    ensures InLong(x) ==> r == x
    ensures x < LONG_MIN ==> r == LONG_MIN
    ensures x > LONG_MAX ==> r == LONG_MAX
  {
    if x < LONG_MIN then LONG_MIN else if x > LONG_MAX then LONG_MAX else x
  }

  /** A Java reference cast `(T) v`: `null` and values of class `t` pass,
      anything else fails. */
  function Cast(v: Value, t: Type): (r: Result<Value>)
    ensures r.Ok? <==> v.VNull? || TypeOf(v) == t
    ensures r.Ok? ==> r.value == v
    ensures r.Err? ==> r.error == ClassCast
  {
    if v.VNull? || TypeOf(v) == t then Ok(v) else Err(ClassCast)
  }

  /** A boxed Java `Number` and its `doubleValue()`. */
  predicate IsNumber(v: Value) { v.VLong? || v.VDouble? }

  function DoubleValue(v: Value): real
    requires IsNumber(v)
  {
    if v.VLong? then v.i as real else v.d
  }

  /** Sign of a comparison, as `compareTo` results are read. */
  function Sign(x: real): int
  {
    if x < 0.0 then -1 else if x > 0.0 then 1 else 0
  }
}
