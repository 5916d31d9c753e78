/**
 * The value vocabulary shared by the engine: field values as far as the
 * engine looks into them, and the per-field internal state (src/types/state.ts).
 */
module FormTypes {

  /**
   * A JavaScript field value. Numbers are integers. Arrays and objects are
   * references: the engine only sees their identity and, for an array, its
   * `length`.
   */
  datatype Value =
    | Null
    | Undefined
    | Bool(b: bool)
    | Num(n: int)
    | Str(s: string)
    | Arr(id: nat, length: nat)
    | Obj(id: nat)

  /** `a === b`: primitives compare by value, arrays and objects by reference. */
  predicate StrictEquals(a: Value, b: Value) {
    match (a, b)
    case (Arr(i, _), Arr(j, _)) => i == j
    case _ => a == b
  }

  /** `v == null`, which also holds for `undefined`. */
  predicate IsNullish(v: Value) {
    v.Null? || v.Undefined?
  }

  /** JavaScript truthiness, as used by `!value`. */
  predicate Truthy(v: Value) {
    match v
    case Null => false
    case Undefined => false
    case Bool(b) => b
    case Num(n) => n != 0
    case Str(s) => s != ""
    case Arr(_, _) => true
    case Obj(_) => true
  }

  /** The internal state of one field: `{ value, dirty, touched }`. */
  datatype Entry = Entry(value: Value, dirty: bool, touched: bool)

  /** The internal state of a form, keyed by field name. */
  type Snapshot = map<string, Entry>

  /** A plain field-name to value map, as handed to and returned by the form. */
  type FormData = map<string, Value>

  lemma StrictEqualsIsEquivalence(a: Value, b: Value, c: Value)
    ensures StrictEquals(a, a)
    ensures StrictEquals(a, b) ==> StrictEquals(b, a)
    ensures StrictEquals(a, b) && StrictEquals(b, c) ==> StrictEquals(a, c)
  {
  }
}
