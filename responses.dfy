/** Mapping a raw HTTP response to the caller's result or to a `TMDbException`
    message, as `getResult(int, …)` does. Gson is a parameter. */
module Responses {
  import opened JavaLang
  import opened JavaText

  /** What `GSON.fromJson(body, type)` does: a decoded value, `null` (Gson's
      answer for an empty document, one of JSON whitespace only, and the
      literal `null`), or a `JsonSyntaxException`. */
  datatype Json<T> = Parsed(value: T) | JsonNull | SyntaxError

  /** The provider's error schema: a status code and a status message, either
      of which may be absent from the decoded body. */
  datatype StatusSchema = StatusSchema(statusCode: Option<int>, statusMessage: JString)

  /** How the client decodes bodies: into the caller's result type, and into the error schema. */
  datatype Codec<T> = Codec(decodeResult: string -> Json<T>, decodeStatus: string -> Json<StatusSchema>)

  /** Where a request attempt ends before the verb wrapper catches anything. */
  datatype Outcome<T> =
    | Value(result: Option<T>)   // returned normally; `None` is Java's `null`
    | Thrown(message: string)    // a TMDbException with this message
    | Raised(kind: Unchecked)    // a runtime exception nobody in the client catches
    | Interrupted                // an InterruptedException

  const StatusInfix: string := ": TMDb status"

  predicate IsSuccess(status: int) {
    200 <= status < 300
  }

  /** JSON whitespace, the only characters Gson's reader skips between tokens:
      space, tab, line feed and carriage return. */
  predicate IsJsonWhitespace(s: string) {
    forall i :: 0 <= i < |s| ==> s[i] == ' ' || s[i] == '\t' || s[i] == '\n' || s[i] == '\r'
  }

  /** Gson's documented answer for a document that holds no token: `null`.
      The empty string is such a document. */
  ghost predicate NullOnBlankDocument<T>(decode: string -> Json<T>) {
    forall s :: IsJsonWhitespace(s) ==> decode(s) == JsonNull
  }

  function RenderCode(code: Option<int>): (s: string)
    ensures ':' !in s
  {
    if code.None? then "null" else IntToString(code.value)
  }

  /** `statusCode + ": TMDb status" + status.getStatusCode() + ": " + status.getStatusMessage()`:
      the decimal HTTP status and the status infix come first, the provider
      message as Java renders it comes last. */
  function ErrorMessage(httpStatus: int, status: StatusSchema): (m: string)
    ensures var head := IntToString(httpStatus) + StatusInfix; |head| < |m| && m[..|head|] == head
    ensures var tail := ": " + Render(status.statusMessage); |tail| < |m| && m[|m| - |tail|..] == tail
  {
    IntToString(httpStatus) + StatusInfix + RenderCode(status.statusCode) + ": " + Render(status.statusMessage)
  }

  /** The schema `getResult` builds when the error body does not decode:
      the raw HTTP status as the code and the raw body as the message. */
  function Synthesized(httpStatus: int, body: string): (s: StatusSchema)
    ensures s.statusCode == Some(httpStatus) && s.statusMessage == Some(body)
  {
    StatusSchema(Some(httpStatus), Some(body))
  }

  /** The error schema reported for a non-2xx response: the decoded one, or a
      synthesized one when the body does not decode. */
  function ErrorStatus(httpStatus: int, body: string, decodeStatus: string -> Json<StatusSchema>): (s: StatusSchema)
    ensures decodeStatus(body).Parsed? ==> s == decodeStatus(body).value
    ensures !decodeStatus(body).Parsed? ==> s == Synthesized(httpStatus, body)
  {
    match decodeStatus(body)
    case Parsed(st) => st
    case _ => Synthesized(httpStatus, body)
  }

  /** Status mapping with a `null` error schema treated like an undecodable one.
      A 2xx status returns the decoded body (`null` for a `null` document, an
      escaping `JsonSyntaxException` for bad JSON); any other status throws
      a TMDbException carrying the status and the (maybe synthesized) schema. */
  function MapResponse<T>(status: int, body: string, codec: Codec<T>): (r: Outcome<T>)
    ensures r.Thrown? <==> !IsSuccess(status)
    ensures r.Thrown? ==> r.message == ErrorMessage(status, ErrorStatus(status, body, codec.decodeStatus))
    ensures r.Value? && r.result.Some? <==> IsSuccess(status) && codec.decodeResult(body).Parsed?
    ensures r.Value? && r.result.Some? ==> r.result.value == codec.decodeResult(body).value
    ensures r.Raised? <==> IsSuccess(status) && codec.decodeResult(body).SyntaxError?
    ensures r.Raised? ==> r.kind == JsonSyntax
    ensures !r.Interrupted?
  {
    if IsSuccess(status) then
      match codec.decodeResult(body)
      case Parsed(v) => Value(Some(v))
      case JsonNull => Value(None)
      case SyntaxError => Raised(JsonSyntax)
    else
      Thrown(ErrorMessage(status, ErrorStatus(status, body, codec.decodeStatus)))
  }

  /** Status mapping as `getResult` is written: a `null` schema from Gson is
      dereferenced by `status.getStatusCode()`, and the NullPointerException
      escapes instead of a TMDbException. */
  function MapResponseAsWritten<T>(status: int, body: string, codec: Codec<T>): (r: Outcome<T>)
    ensures !IsSuccess(status) && codec.decodeStatus(body).JsonNull? ==> r == Raised(NullPointer)
    ensures !(!IsSuccess(status) && codec.decodeStatus(body).JsonNull?) ==> r == MapResponse(status, body, codec)
  {
    if !IsSuccess(status) && codec.decodeStatus(body).JsonNull? then Raised(NullPointer)
    else MapResponse(status, body, codec)
  }

  /** Finding, as written: for any decoder that, like Gson, returns `null`
      for a document of JSON whitespace only, a non-2xx response with such a
      body (the empty body among them) ends in a NullPointerException, not in
      a TMDbException. */
  lemma AsWrittenBlankErrorBodyRaises<T>(status: int, body: string, codec: Codec<T>)
    requires NullOnBlankDocument(codec.decodeStatus)
    requires IsJsonWhitespace(body)
    requires !IsSuccess(status)
    ensures MapResponseAsWritten(status, body, codec) == Raised(NullPointer)
  {
  }

  /** Finding, corrected: the same response throws a TMDbException that
      carries the raw status as the code and the body as the message. */
  lemma CorrectedBlankErrorBodyReported<T>(status: int, body: string, codec: Codec<T>)
    requires NullOnBlankDocument(codec.decodeStatus)
    requires IsJsonWhitespace(body)
    requires !IsSuccess(status)
    ensures MapResponse(status, body, codec) == Thrown(ErrorMessage(status, StatusSchema(Some(status), Some(body))))
  {
  }

  // Reading an error message back

  /** The three things an error message reports. */
  datatype ErrorParts = ErrorParts(httpStatus: int, code: Option<int>, message: string)

  /** Cuts a message of the form `ErrorMessage` writes into the status text,
      the code text and the provider message text. */
  function SplitErrorMessage(m: string): Option<(string, string, string)> {
    var (statusText, rest) := SplitAtFirst(m, ':');
    var infix := StatusInfix[1..];
    if |rest| < |infix| || rest[..|infix|] != infix then None
    else
      var (codeText, tail) := SplitAtFirst(rest[|infix|..], ':');
      if tail == [] || tail[0] != ' ' then None
      else Some((statusText, codeText, tail[1..]))
  }

  /** Reads a message of the form `ErrorMessage` writes. */
  function ParseErrorMessage(m: string): Option<ErrorParts> {
    match SplitErrorMessage(m)
    case None => None
    case Some((statusText, codeText, msg)) =>
      match ParseInt(statusText)
      case None => None
      case Some(httpStatus) =>
        if codeText == "null" then Some(ErrorParts(httpStatus, None, msg))
        else
          match ParseInt(codeText)
          case None => None
          case Some(code) => Some(ErrorParts(httpStatus, Some(code), msg))
  }

  lemma SplitErrorMessageOf(statusText: string, codeText: string, msg: string)
    requires ':' !in statusText && ':' !in codeText
    ensures SplitErrorMessage(statusText + StatusInfix + codeText + ": " + msg) == Some((statusText, codeText, msg))
  {
    var infix := StatusInfix[1..];
    var rest := infix + codeText + ": " + msg;
    assert statusText + StatusInfix + codeText + ": " + msg == statusText + [':'] + rest;
    SplitAtFirstJoin(statusText, ':', rest);
    assert rest[..|infix|] == infix;
    assert rest[|infix|..] == codeText + [':'] + (" " + msg);
    SplitAtFirstJoin(codeText, ':', " " + msg);
  }

  lemma RenderCodeRoundTrip(code: Option<int>)
    ensures RenderCode(code) == "null" <==> code.None?
    ensures code.Some? ==> ParseInt(RenderCode(code)) == code
  {
    if code.Some? {
      IntToStringRoundTrip(code.value);
      var s := IntToString(code.value);
      assert s[0] == '-' || IsDigit(s[0]);
      assert "null"[0] == 'n';
    }
  }

  /** The error message determines the HTTP status, the provider code and the
      provider message as Java renders it (so `null` and `"null"` coincide),
      whatever the message text holds. */
  lemma ErrorMessageRoundTrip(httpStatus: int, status: StatusSchema)
    ensures ParseErrorMessage(ErrorMessage(httpStatus, status))
         == Some(ErrorParts(httpStatus, status.statusCode, Render(status.statusMessage)))
  {
    var s := IntToString(httpStatus);
    assert ':' !in s;
    SplitErrorMessageOf(s, RenderCode(status.statusCode), Render(status.statusMessage));
    IntToStringRoundTrip(httpStatus);
    RenderCodeRoundTrip(status.statusCode);
  }

  /** A non-2xx body that is not a valid error document is never dropped: the
      thrown message reports the HTTP status as the code and the body verbatim. */
  lemma MalformedErrorBodyKept<T>(status: int, body: string, codec: Codec<T>)
    requires !IsSuccess(status)
    requires !codec.decodeStatus(body).Parsed?
    ensures MapResponse(status, body, codec).Thrown?
    ensures ParseErrorMessage(MapResponse(status, body, codec).message) == Some(ErrorParts(status, Some(status), body))
  {
    ErrorMessageRoundTrip(status, Synthesized(status, body));
  }

  /** A decoded error document is reported with its own code and message. */
  lemma DecodedErrorBodyReported<T>(status: int, body: string, codec: Codec<T>)
    requires !IsSuccess(status)
    requires codec.decodeStatus(body).Parsed?
    ensures MapResponse(status, body, codec).Thrown?
    ensures ParseErrorMessage(MapResponse(status, body, codec).message)
         == Some(ErrorParts(status, codec.decodeStatus(body).value.statusCode, Render(codec.decodeStatus(body).value.statusMessage)))
  {
    ErrorMessageRoundTrip(status, codec.decodeStatus(body).value);
  }

  /** A 404 whose body decodes to code 34, "Not found". */
  lemma NotFoundMessage<T>(body: string, codec: Codec<T>)
    requires codec.decodeStatus(body) == Parsed(StatusSchema(Some(34), Some("Not found")))
    ensures MapResponse(404, body, codec) == Thrown("404: TMDb status34: Not found")
  {
    ThrownMessage(404, body, codec, Some(34), "Not found");
    NotFoundText();
  }

  /** A 500 whose body is `not json`: the code is 500 and the message the body. */
  lemma ServerErrorNotJsonMessage<T>(codec: Codec<T>)
    requires codec.decodeStatus("not json") == SyntaxError
    ensures MapResponse(500, "not json", codec) == Thrown("500: TMDb status500: not json")
  {
    ThrownMessage(500, "not json", codec, Some(500), "not json");
    NotJsonText();
  }

  /** The message thrown for a non-2xx status whose reported schema has the given code and message. */
  lemma ThrownMessage<T>(status: int, body: string, codec: Codec<T>, code: Option<int>, msg: string)
    requires !IsSuccess(status)
    requires ErrorStatus(status, body, codec.decodeStatus) == StatusSchema(code, Some(msg))
    ensures MapResponse(status, body, codec) == Thrown(IntToString(status) + StatusInfix + RenderCode(code) + ": " + msg)
  {
  }

  lemma NotFoundText()
    ensures IntToString(404) + StatusInfix + RenderCode(Some(34)) + ": " + "Not found" == "404: TMDb status34: Not found"
  {
    Decimal404();
    Decimal34();
    assert RenderCode(Some(34)) == "34";
    assert "404" + StatusInfix + "34" + ": " + "Not found" == "404: TMDb status34: Not found";
  }

  lemma NotJsonText()
    ensures IntToString(500) + StatusInfix + RenderCode(Some(500)) + ": " + "not json" == "500: TMDb status500: not json"
  {
    Decimal500();
    assert RenderCode(Some(500)) == "500";
    assert "500" + StatusInfix + "500" + ": " + "not json" == "500: TMDb status500: not json";
  }

  lemma Decimal404()
    ensures IntToString(404) == "404"
  {
    assert DigitChar(4) == '4' && DigitChar(0) == '0';
    assert NatToString(4) == "4";
    assert NatToString(40) == NatToString(4) + [DigitChar(0)];
    assert NatToString(404) == NatToString(40) + [DigitChar(4)];
  }

  lemma Decimal34()
    ensures IntToString(34) == "34"
  {
    assert DigitChar(3) == '3' && DigitChar(4) == '4';
    assert NatToString(3) == "3";
    assert NatToString(34) == NatToString(3) + [DigitChar(4)];
  }

  lemma Decimal500()
    ensures IntToString(500) == "500"
  {
    assert DigitChar(5) == '5' && DigitChar(0) == '0';
    assert NatToString(5) == "5";
    assert NatToString(50) == NatToString(5) + [DigitChar(0)];
    assert NatToString(500) == NatToString(50) + [DigitChar(0)];
  }
}
