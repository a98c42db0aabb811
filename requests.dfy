/** Assembling the outbound request once the query string is built:
    parsing the base URL, resolving the endpoint against it, and the
    headers. The URI and HTTP libraries are parameters. */
module Requests {
  import opened JavaLang

  /** The library calls `getBuilder` makes, as functions of their inputs. */
  datatype UriLibrary = UriLibrary(
    encode: string -> string,                      // URLEncoder.encode(value, UTF_8)
    parses: string -> bool,                        // new URI(baseUrl) succeeds
    resolve: (string, string) -> Option<string>,   // base.resolve(target); None where URI.create(target) rejects it
    acceptsRequestUri: string -> bool              // HttpRequest.newBuilder(uri) accepts the URI
  )

  const ContentType: string := "Content-Type"
  const Accept: string := "accept"
  const Authorization: string := "Authorization"
  const JsonUtf8: string := "application/json;charset=utf-8"
  const Json: string := "application/json"
  const Bearer: string := "Bearer "
  const RequestUrlMalformed: string := "Request url malformed"

  function BaseUrlMalformed(baseUrl: string): string {
    "Base url '" + baseUrl + "' malformed"
  }

  /** The request builder `getBuilder` returns: the resolved URI and the headers set. */
  datatype RequestBuilder = RequestBuilder(uri: string, headers: map<string, string>)

  /** The HTTP verb the caller then applies, with the POST or PUT body. */
  datatype Verb = GET | DELETE | POST(data: JString) | PUT(data: JString)

  /** A request ready to send. */
  datatype Request = Request(uri: string, headers: map<string, string>, verb: Verb)

  /** What `getBuilder` ends in: a builder, a `TMDbException` with its
      message, or a runtime exception it does not catch. */
  datatype BuildResult =
    | Built(builder: RequestBuilder)
    | BuildThrew(message: string)
    | BuildRaised(kind: Unchecked)

  /** The headers of every request: JSON content type and accept, and at most
      one bearer token, the access token taking precedence over the read token. */
  function Headers(accessToken: JString, readToken: JString): (h: map<string, string>)
    ensures ContentType in h && h[ContentType] == JsonUtf8
    ensures Accept in h && h[Accept] == Json
    ensures Authorization in h <==> accessToken.Some? || readToken.Some?
    ensures accessToken.Some? ==> h[Authorization] == Bearer + accessToken.value
    ensures accessToken.None? && readToken.Some? ==> h[Authorization] == Bearer + readToken.value
    ensures h.Keys <= {ContentType, Accept, Authorization}
  {
    var base := map[ContentType := JsonUtf8, Accept := Json];
    if accessToken.Some? then base[Authorization := Bearer + accessToken.value]
    else if readToken.Some? then base[Authorization := Bearer + readToken.value]
    else base
  }

  /** The part of `getBuilder` after `urlBuilder.insert(0, endpoint)`: `target`
      is the endpoint followed by the query part. A request is built exactly
      when the base URL is non-null and parses, the target resolves against
      it, and the HTTP library accepts the result. */
  function Assemble(baseUrl: JString, target: string, accessToken: JString, readToken: JString, lib: UriLibrary): (r: BuildResult)
    ensures r.Built? <==>
      && baseUrl.Some? && lib.parses(baseUrl.value)
      && lib.resolve(baseUrl.value, target).Some?
      && lib.acceptsRequestUri(lib.resolve(baseUrl.value, target).value)
    ensures r.Built? ==>
      r.builder == RequestBuilder(lib.resolve(baseUrl.value, target).value, Headers(accessToken, readToken))
    ensures baseUrl.None? ==> r == BuildRaised(NullPointer)
    ensures baseUrl.Some? && !lib.parses(baseUrl.value) ==> r == BuildThrew(BaseUrlMalformed(baseUrl.value))
    ensures baseUrl.Some? && lib.parses(baseUrl.value) && lib.resolve(baseUrl.value, target).None? ==>
      r == BuildThrew(RequestUrlMalformed)
    ensures baseUrl.Some? && lib.parses(baseUrl.value) && lib.resolve(baseUrl.value, target).Some?
            && !lib.acceptsRequestUri(lib.resolve(baseUrl.value, target).value) ==>
      r == BuildRaised(IllegalArgument)
    ensures r.BuildRaised? ==> r.kind == NullPointer || r.kind == IllegalArgument
  {
    if baseUrl.None? then BuildRaised(NullPointer)
    else if !lib.parses(baseUrl.value) then BuildThrew(BaseUrlMalformed(baseUrl.value))
    else
      match lib.resolve(baseUrl.value, target)
      case None => BuildThrew(RequestUrlMalformed)
      case Some(uri) =>
        if lib.acceptsRequestUri(uri) then Built(RequestBuilder(uri, Headers(accessToken, readToken)))
        else BuildRaised(IllegalArgument)
  }

  /** `builder.GET()`, `.DELETE()`, `.POST(ofString(data))` or `.PUT(ofString(data))`
      followed by `build()`: `None` where `BodyPublishers.ofString` is given `null`
      and throws a `NullPointerException`. */
  function WithVerb(b: RequestBuilder, verb: Verb): (r: Option<Request>)
    ensures r.None? <==> (verb.POST? || verb.PUT?) && verb.data.None?
    ensures r.Some? ==> r.value.uri == b.uri && r.value.headers == b.headers && r.value.verb == verb
  {
    if (verb.POST? || verb.PUT?) && verb.data.None? then None
    else Some(Request(b.uri, b.headers, verb))
  }
}
