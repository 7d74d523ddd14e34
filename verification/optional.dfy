/** A value that may be absent: the model's reading of the optional (`?:`)
    fields and parameters of the TypeScript sources. */
module Optional {

  datatype Option<+T> = None | Some(value: T)

  /** JavaScript truthiness of an optional string: `undefined` and `''` are
      both falsy, every other string is truthy. */
  predicate Truthy(s: Option<string>) {
    s.Some? && s.value != ""
  }

  /** `s || ''` for an optional string. */
  function OrEmpty(s: Option<string>): (r: string)
    ensures Truthy(s) <==> r != ""
    ensures Truthy(s) ==> r == s.value
  {
    if Truthy(s) then s.value else ""
  }
}
