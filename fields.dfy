/** Values read by key from a decoded JSON object. */
module Fields {

  /** What `obj.get(key)` sees: no such key, a string, or any other JSON value
      (number, boolean, null, list, object), of which only its Python truthiness matters. */
  datatype Field = Absent | Str(s: string) | Other(truthy: bool)

  /** Python's truth value of `obj.get(key, "")`: an absent key reads as the empty string. */
  predicate Truthy(f: Field) {
    match f
    case Absent => false
    case Str(s) => s != ""
    case Other(t) => t
  }
}
