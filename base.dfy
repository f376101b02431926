/** Values shared by every module: an optional value, and the JavaScript
    truthiness test the routes apply to the string fields of a request. */
module Base {

  datatype Option<+T> = None | Some(value: T)

  /** A request field, header or environment variable is modelled as a
      string; the empty string stands for every falsy or absent value
      (`undefined`, `null`, `""`), so `if (!x)` becomes `!Present(x)`. */
  predicate Present(s: string) {
    s != ""
  }
}
