/** The JavaScript values the library receives as inputs and placeholder arguments. */
module Values {

  /**
   * A JavaScript value, as far as the library distinguishes them. A number is
   * kept as the text `String(n)` gives; an object other than an array only by
   * an identity, since its rendering belongs to the configured inspector.
   */
  datatype Value =
    | Null
    | Undefined
    | Bool(b: bool)
    | Num(text: string)
    | Str(s: string)
    | Arr(items: seq<Value>)
    | Obj(id: nat)

  /** JavaScript truthiness: `!!v`. */
  predicate Truthy(v: Value) {
    match v
    case Null => false
    case Undefined => false
    case Bool(b) => b
    case Num(t) => t != "0" && t != "NaN"
    case Str(s) => s != ""
    case Arr(_) => true
    case Obj(_) => true
  }

  /** An argument handed to sprintf: a raw value, or a string already rendered by the library. */
  datatype Arg = Raw(v: Value) | Text(s: string)
}
