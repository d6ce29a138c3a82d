/** Values as the request handlers see them: a property of a JavaScript object
    that may be missing, and JavaScript's notion of a "truthy" string. */
module JsValues {

  /** A property that may be `undefined`. */
  datatype Option<+T> = None | Some(value: T)

  /** `!!v` for a value that is either `undefined` or a string: only a present,
      non-empty string is truthy. */
  predicate Truthy(v: Option<string>): (b: bool)
    ensures !b <==> v == None || v == Some("")
  {
    v.Some? && v.value != ""
  }
}
