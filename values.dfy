/**
 * Tagged values (value_t as used by vm.c and lib/memory.c): nil, booleans,
 * numbers and references to heap objects, with the interpreter's notions of
 * falsiness and equality.
 *
 * Numbers are host doubles. Their arithmetic is not modelled: `Number` is an
 * abstract type and every floating-point operation the interpreter needs is
 * supplied from outside, as a `NumberOps` record.
 */
module Values {

  datatype Option<+T> = None | Some(value: T)

  /** A host double; nothing is assumed about it beyond equality of bit patterns. */
  type Number(==)

  /**
   * The host's floating-point operations (IEEE 754 semantics live here, outside
   * the model): the arithmetic of BINARY_OP and OP_NEGATE, the two orderings,
   * the `==` that _values_equal applies to numbers, and strtod for literals.
   */
  datatype NumberOps = NumberOps(
    add: (Number, Number) -> Number,
    subtract: (Number, Number) -> Number,
    multiply: (Number, Number) -> Number,
    divide: (Number, Number) -> Number,
    negate: Number -> Number,
    greater: (Number, Number) -> bool,
    less: (Number, Number) -> bool,
    equal: (Number, Number) -> bool,
    parse: seq<char> -> Number)

  /** Identity of a heap object: the model's stand-in for an obj_t pointer. */
  type ObjId = nat

  /** The four value tags, in the order VAL_BOOL, VAL_NIL, VAL_NUMBER, VAL_OBJ. */
  datatype ValueType = ValBool | ValNil | ValNumber | ValObj

  datatype Value =
    | Nil
    | Bool(boolean: bool)
    | Num(number: Number)
    | Obj(ref: ObjId)

  function TypeOf(v: Value): ValueType {
    match v
    case Nil => ValNil
    case Bool(_) => ValBool
    case Num(_) => ValNumber
    case Obj(_) => ValObj
  }

  /** The object a value refers to, if it is an object reference (IS_OBJ / AS_OBJ). */
  function RefOf(v: Value): (r: Option<ObjId>)
    ensures r.Some? <==> TypeOf(v) == ValObj
    ensures r.Some? ==> v == Obj(r.value)
  {
    if v.Obj? then Some(v.ref) else None
  }

  /** _is_falsey: only nil and false are falsy; every number is truthy. */
  function IsFalsey(v: Value): bool {
    v.Nil? || (v.Bool? && !v.boolean)
  }

  /**
   * _values_equal: values of different tags are never equal; nils are always
   * equal; booleans compare by payload and numbers by the host's `==`. The
   * switch in vm.c has no case for VAL_OBJ, so object values fall into its
   * default branch and compare unequal, even to themselves.
   */
  function ValuesEqual(ops: NumberOps, a: Value, b: Value): (r: bool)
    ensures TypeOf(a) != TypeOf(b) ==> !r
    ensures a.Nil? && b.Nil? ==> r
    ensures a.Bool? && b.Bool? ==> (r <==> a.boolean == b.boolean)
    ensures a.Num? && b.Num? ==> (r <==> ops.equal(a.number, b.number))
    ensures a.Obj? ==> !r
  {
    if TypeOf(a) != TypeOf(b) then false
    else
      match a
      case Bool(x) => x == b.boolean
      case Nil => true
      case Num(x) => ops.equal(x, b.number)
      case Obj(_) => false
  }

  /** Equality is reflexive on nil and booleans, whatever the host does with numbers. */
  lemma ValuesEqualReflexive(ops: NumberOps, v: Value)
    requires v.Nil? || v.Bool?
    ensures ValuesEqual(ops, v, v)
  {
  }

  /** Equality is symmetric as soon as the host's number equality is. */
  lemma ValuesEqualSymmetric(ops: NumberOps, a: Value, b: Value)
    requires forall x, y :: ops.equal(x, y) == ops.equal(y, x)
    ensures ValuesEqual(ops, a, b) == ValuesEqual(ops, b, a)
  {
  }

  /** A value is falsy exactly when it equals nil or false under _values_equal. */
  lemma FalseyIsNilOrFalse(ops: NumberOps, v: Value)
    ensures IsFalsey(v) <==> ValuesEqual(ops, v, Nil) || ValuesEqual(ops, v, Bool(false))
  {
  }

  /** Every number, including zero and NaN, is truthy. */
  lemma NumbersAreTruthy(n: Number)
    ensures !IsFalsey(Num(n))
  {
  }
}
