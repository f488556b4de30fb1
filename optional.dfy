/** Values that JavaScript writes as "either null or a value". */
module Optional {

  /** `None` stands for JavaScript's `null`. */
  datatype Option<+T> = None | Some(value: T)

  /** JavaScript truthiness of a value that is `null` or a string:
      `null` and the empty string are falsy, every other string is truthy. */
  predicate Truthy(o: Option<string>) {
    o.Some? && o.value != ""
  }
}
