/** Java values the client works with: nullable references and the
    unchecked exceptions that escape the client's own `catch` blocks. */
module JavaLang {

  /** A nullable reference: `None` stands for Java's `null`. */
  datatype Option<+T> = None | Some(value: T)

  /** A `java.lang.String` reference, possibly `null`. */
  type JString = Option<string>

  /** Runtime exceptions the client does not catch, so they reach its caller. */
  datatype Unchecked =
    | NullPointer      // a `null` dereferenced (base URL, request body, decoded status)
    | IllegalArgument  // `HttpRequest.newBuilder` refused the resolved URI
    | JsonSyntax       // a 2xx body that Gson could not decode

  /** What Java's string concatenation writes for a `String` operand. */
  function Render(s: JString): (r: string)
    ensures s.Some? ==> r == s.value
    ensures s.None? ==> r == "null"
  {
    if s.None? then "null" else s.value
  }
}
