# TMDb API client: request and response pipeline

A Dafny model of the core of `TMDbClient`, the Java client of The Movie Database
web API. Every call goes through the same pipeline:

1. **Credentials.** The constructor stores one token. A token longer than 32
   characters becomes the read token (API v4). Any other token, `null`
   included, becomes the API key (v3).
2. **Request construction (`getBuilder`).**
   - `api_key` is put into the caller's query map, in place, when the map has
     no such key.
   - Every parameter whose value is non-null and not blank after `String.trim`
     is written as `key=URLEncoder.encode(value)`, behind `?` for the first one
     and `&` after.
   - The endpoint is put in front, and the result is resolved against the base URL.
   - The JSON headers are set, plus at most one `Authorization: Bearer` header.
     The access token wins over the read token.
3. **Admission and sending.** A rate-limiter ticket is taken before the send
   and released in a `finally` block.
4. **Response mapping.** A 2xx status decodes the body. Any other status throws
   a `TMDbException` whose message holds the HTTP status and the provider's
   status code and message. When the error body does not decode, those are
   synthesized from the raw status and the raw body.
5. **Verb wrappers.** `get`, `post`, `put` and `delete` turn every
   `TMDbException` into a `null` result.

Modules, leaves first:

- `java_lang.dfy`, module `JavaLang`: nullable references (`Option`, `JString`),
  the runtime exceptions that get past the client, and string concatenation of
  a nullable string.
- `java_text.dfy`, module `JavaText`: `String.trim`, decimal rendering of an
  `int` with a parser that reads it back, and splitting at the first occurrence
  of a character.
- `query_string.dfy`, module `QueryString`: the `api_key` injection, the loop
  that builds the query part (`BuildQueryPart`), and a reader for the query
  part. It proves that reading the query part back gives exactly the kept
  parameters, each once. Map iteration order is unspecified, so the loop picks
  any remaining key, and the ghost output `order` records the order used.
- `requests.dfy`, module `Requests`: headers, base-URL parsing and resolution,
  and applying the verb.
- `responses.dfy`, module `Responses`: status mapping, the error message and a
  reader for it.
- `rate_limiting.dfy`, module `RateLimiting`: the two calls the client makes on
  the rate limiter. A ghost set of outstanding tickets shows that each ticket is
  released exactly once.
- `client.dfy`, module `Client`: the class `TMDbClient` (its fields, its
  constructors, its setters, `getBuilder` and both `getResult` overloads), the
  verb methods, the caller's query map as a class `QueryMap`, and the calling
  thread's interrupt flag.

The library calls are parameters of each operation, passed as function-typed
data:

- `URLEncoder.encode`, `new URI`, `URI.resolve` and `HttpRequest.newBuilder`,
  in `Requests.UriLibrary`;
- Gson decoding into the result type and into the error schema, in
  `Responses.Codec`;
- `HttpClient.send`, as `send: Request -> SendResult` (a response, an
  IOException or an InterruptedException);
- an interruption of the wait for a ticket, as the flag `waitInterrupted`.

Three behaviours of the code shape the model:

- **A present `api_key` is kept, even when empty.** Line 565 tests
  `containsKey` only. With a configured key, the query `{"api_key": ""}` keeps
  its empty entry, and no `api_key` is sent (`PresentEmptyApiKeyNotSent`).
- **The key is injected whether or not a bearer token is set.** Whenever the
  map has no `api_key`, the configured key is put into it, even when an access
  token or a read token also goes out in the `Authorization` header.
- **How failures reach the caller.** A `TMDbException` becomes a `null`
  result. Runtime exceptions pass through the verb methods
  (`CallResult.Escaped`): a 2xx body Gson rejects, a `null` base URL or request
  body, and a URI the HTTP library refuses. In the code as written, a
  NullPointerException also passes through for a non-2xx body that Gson
  decodes to `null` (see "## Findings"). The model's verb methods use the
  corrected status mapping, which reports that case as a `TMDbException`
  instead (see "## Left out").

## Model

| member | source | states |
|---|---|---|
| `JavaText.Trim` | src/main/java/com/universalmediaserver/tmdbapi/TMDbClient.java:570 | `String.trim` gives an empty string exactly when every character is at most U+0020; otherwise the result starts and ends with a character above U+0020 |
| `JavaText.TrimCutsBlankEnds` | src/main/java/com/universalmediaserver/tmdbapi/TMDbClient.java:570 | `String.trim` returns a contiguous part of the string, and it cuts off only characters at most U+0020 before and after that part |
| `JavaText.IntToString` | src/main/java/com/universalmediaserver/tmdbapi/TMDbClient.java:550 | Java's decimal text of an `int` is non-empty; it starts with `-` exactly when the value is negative, has only digits after its first character, and the digits have no leading zero, after the `-` of a negative value as well |
| `JavaText.IntToStringRoundTrip` | src/main/java/com/universalmediaserver/tmdbapi/TMDbClient.java:550 | the decimal text Java writes for an `int` in the error message reads back as that same integer, negative values included |
| `QueryString.WithApiKey` | src/main/java/com/universalmediaserver/tmdbapi/TMDbClient.java:561-567 | afterwards the map has `api_key`; every entry already present keeps its value, even an empty or null `api_key`; the configured key is added only when `api_key` was absent; no other key is added |
| `QueryString.BuildQueryPart` | src/main/java/com/universalmediaserver/tmdbapi/TMDbClient.java:568-576 | the loop visits the entries in some order and appends exactly the non-null, non-blank ones, each once, as `key=encoded value` behind `?` first and `&` after; the result equals the query part for the order it recorded |
| `QueryString.QueryPartEmptyIff` | src/main/java/com/universalmediaserver/tmdbapi/TMDbClient.java:568-576 | for any order that lists the kept keys, the query part is empty exactly when no entry of the map is kept, and otherwise starts with `?` |
| `QueryString.QueryPartSnoc` | src/main/java/com/universalmediaserver/tmdbapi/TMDbClient.java:571-574 | one loop step: appending a kept parameter extends the query part by `?` (first) or `&` and that parameter's segment |
| `QueryString.ParseQueryPart` | src/main/java/com/universalmediaserver/tmdbapi/TMDbClient.java:568-576 | splitting the built query part at `&` and each piece at its first `=` gives back exactly the kept keys in order, each with its encoded value; the keys are not encoded, so they must hold no `&` or `=`, and the encoder must emit no `&` |
| `QueryString.SentIffSendable` | src/main/java/com/universalmediaserver/tmdbapi/TMDbClient.java:568-576 | regardless of order, a `(key, value)` pair appears in the query part exactly when the key's value is non-null and not blank, and the pair's value is that value encoded |
| `QueryString.SentOnce` | src/main/java/com/universalmediaserver/tmdbapi/TMDbClient.java:568-576 | no key appears twice in the query part |
| `QueryString.QueryPartShape` | src/main/java/com/universalmediaserver/tmdbapi/TMDbClient.java:571 | the query part is empty exactly when no parameter is kept; otherwise it starts with `?`, and every `&`-separated piece is a `key=value` pair, so there is no leading, trailing or doubled `&` |
| `QueryString.PresentEmptyApiKeyNotSent` | src/main/java/com/universalmediaserver/tmdbapi/TMDbClient.java:565-570 | an `api_key` entry that is already present and empty is not replaced by the configured key, so no `api_key` segment is sent |
| `QueryString.ConfiguredApiKeySent` | src/main/java/com/universalmediaserver/tmdbapi/TMDbClient.java:565-574 | with no `api_key` in the map, an `api_key` segment is sent exactly when the configured key is non-null and not blank, and its value is the encoded key |
| `Requests.Headers` | src/main/java/com/universalmediaserver/tmdbapi/TMDbClient.java:590-597 | `Content-Type: application/json;charset=utf-8` and `accept: application/json` are always set; `Authorization` is present exactly when some bearer token is set; it carries the access token when there is one, even if a read token is also set, and otherwise the read token |
| `Requests.Assemble` | src/main/java/com/universalmediaserver/tmdbapi/TMDbClient.java:577-598 | a request is built exactly when the base URL is non-null and parses, the target resolves and the HTTP library accepts the URI; a base URL that does not parse gives "Base url '…' malformed", a target that does not resolve gives "Request url malformed", and neither builds a request; a null base URL raises a NullPointerException; a URI the HTTP library refuses raises an IllegalArgumentException |
| `Requests.WithVerb` | src/main/java/com/universalmediaserver/tmdbapi/TMDbClient.java:481-511 | the verb keeps the builder's URI and headers; POST and PUT with a `null` body raise instead of building |
| `Responses.Synthesized` | src/main/java/com/universalmediaserver/tmdbapi/TMDbClient.java:546-548 | the synthesized schema has the raw HTTP status as its code and the raw body as its message |
| `Responses.ErrorStatus` | src/main/java/com/universalmediaserver/tmdbapi/TMDbClient.java:542-549 | corrected mapping: a decoded error schema is used as is; a syntax error, and also a `null` from Gson (which the code as written keeps), is replaced by the synthesized schema |
| `Responses.ErrorMessage` | src/main/java/com/universalmediaserver/tmdbapi/TMDbClient.java:550 | the message starts with the decimal HTTP status and `: TMDb status`, and it ends with `: ` and the provider message as Java renders it (`null` when it is missing); `ErrorMessageRoundTrip` reads the whole message back |
| `Responses.MapResponse` | src/main/java/com/universalmediaserver/tmdbapi/TMDbClient.java:539-551 | a TMDbException is thrown exactly when the status is outside [200,300), with the message built from the status and the error schema; a non-null result comes only from a 2xx whose body decodes, and it is the decoded value; a JsonSyntaxException escapes only on a 2xx |
| `Responses.MapResponseAsWritten` | src/main/java/com/universalmediaserver/tmdbapi/TMDbClient.java:542-550 | the code as written: a non-2xx body that Gson decodes to `null` raises a NullPointerException; otherwise it behaves like `MapResponse` |
| `Responses.AsWrittenBlankErrorBodyRaises` | src/main/java/com/universalmediaserver/tmdbapi/TMDbClient.java:544-550 | with any decoder that returns `null` for a document of JSON whitespace only (space, tab, line feed, carriage return), as Gson does, a non-2xx response with such a body, the empty body among them, ends in a NullPointerException in the code as written |
| `Responses.CorrectedBlankErrorBodyReported` | src/main/java/com/universalmediaserver/tmdbapi/TMDbClient.java:544-550 | after the correction, the same response throws the TMDbException with the raw status as the code and the body as the message |
| `Responses.ErrorMessageRoundTrip` | src/main/java/com/universalmediaserver/tmdbapi/TMDbClient.java:550 | the message `status + ": TMDb status" + code + ": " + message` determines the HTTP status, the provider code (or its absence) and the provider message as Java renders it (a missing message and the text `"null"` coincide), whatever the message text holds |
| `Responses.MalformedErrorBodyKept` | src/main/java/com/universalmediaserver/tmdbapi/TMDbClient.java:545-550 | a non-2xx body that does not decode is never dropped: the message reports the HTTP status as the code and the body verbatim (with the corrected status mapping; for a body Gson rejects with a syntax error, line 545, this is also what the code as written does) |
| `Responses.DecodedErrorBodyReported` | src/main/java/com/universalmediaserver/tmdbapi/TMDbClient.java:544-550 | a non-2xx body that decodes is reported with its own code and message |
| `Responses.NotFoundMessage` | src/main/java/com/universalmediaserver/tmdbapi/TMDbClient.java:550 | status 404 with the schema (34, "Not found") throws "404: TMDb status34: Not found" |
| `Responses.ServerErrorNotJsonMessage` | src/main/java/com/universalmediaserver/tmdbapi/TMDbClient.java:545-550 | status 500 with the body `not json` throws "500: TMDb status500: not json" |
| `RateLimiting.RateLimiter.GetRequestId` | src/main/java/com/universalmediaserver/tmdbapi/TMDbClient.java:522 | a wait that is not interrupted returns a ticket that was not in flight and adds it to the outstanding set; an interrupted wait takes no ticket |
| `RateLimiting.RateLimiter.SetRequestEnd` | src/main/java/com/universalmediaserver/tmdbapi/TMDbClient.java:555 | only a ticket in flight can be released, and releasing removes it, so no ticket is released twice |
| `Client.TicketOutcome` | src/main/java/com/universalmediaserver/tmdbapi/TMDbClient.java:530-557 | with a ticket held: an IOException becomes "Error while sending the request", an interruption propagates, and a response is mapped by status |
| `Client.AdmittedOutcome` | src/main/java/com/universalmediaserver/tmdbapi/TMDbClient.java:519-528 | an interruption, while waiting for a ticket or while sending, yields `null` and never propagates |
| `Client.Catch` | src/main/java/com/universalmediaserver/tmdbapi/TMDbClient.java:483-486 | a TMDbException becomes a `null` result; a result passes through; a runtime exception passes through unchanged |
| `Client.Admitted` | src/main/java/com/universalmediaserver/tmdbapi/TMDbClient.java:481-482 | a request reaches the rate limiter exactly when building succeeded and the verb could be applied |
| `Client.CallSpec` | src/main/java/com/universalmediaserver/tmdbapi/TMDbClient.java:479-517 | a whole verb call: a malformed URL gives `null`; a runtime exception raised while building escapes; a `null` POST or PUT body escapes as a NullPointerException; an admitted request ends in the verb's `catch` applied to what `getResult` makes of the send (with the corrected status mapping) |
| `Client.CallReturnsValueIff` | src/main/java/com/universalmediaserver/tmdbapi/TMDbClient.java:479-487 | a verb call returns a non-null value exactly when the request was built and sent without interruption, the status is 2xx, and the body decodes to that value |
| `Client.TMDbExceptionsBecomeNull` | src/main/java/com/universalmediaserver/tmdbapi/TMDbClient.java:479-517 | a malformed URL, an IOException or a non-2xx status gives a `null` result from the verb method (with the corrected status mapping) |
| `Client.CallRaisesOnlyUnchecked` | src/main/java/com/universalmediaserver/tmdbapi/TMDbClient.java:479-517 | only runtime exceptions escape a verb call: the one raised while building, a NullPointerException for a `null` body, or a JsonSyntaxException for a 2xx body Gson rejects (with the corrected status mapping) |
| `Client.QueryMap.Put` | src/main/java/com/universalmediaserver/tmdbapi/TMDbClient.java:566 | `put` sets one entry of the caller's map and leaves the others |
| `Client.CallerThread.Interrupt` | src/main/java/com/universalmediaserver/tmdbapi/TMDbClient.java:525 | the thread's interrupt flag is set again |
| `Client.TMDbClient.constructor` | src/main/java/com/universalmediaserver/tmdbapi/TMDbClient.java:123-130 | a non-null token longer than 32 characters is stored as the read token and leaves the API key null; any other token, null included, is stored as the API key and leaves the read token null; the base URL is stored; every other field is null or false |
| `Client.TMDbClient.WithToken` | src/main/java/com/universalmediaserver/tmdbapi/TMDbClient.java:113-115 | the same classification, against the production base URL |
| `Client.TMDbClient.Default` | src/main/java/com/universalmediaserver/tmdbapi/TMDbClient.java:104-106 | the production base URL with no credential at all |
| `Client.TMDbClient.Version` | src/main/java/com/universalmediaserver/tmdbapi/TMDbClient.java:164-166 | the version is 4 exactly when a read token is set, and 3 otherwise |
| `Client.TMDbClient.SetAccessToken` | src/main/java/com/universalmediaserver/tmdbapi/TMDbClient.java:168-170 | sets the access token and no other field |
| `Client.TMDbClient.SetApiKey` | src/main/java/com/universalmediaserver/tmdbapi/TMDbClient.java:172-174 | sets the API key and no other field |
| `Client.TMDbClient.SetBaseUrl` | src/main/java/com/universalmediaserver/tmdbapi/TMDbClient.java:176-178 | sets the base URL and no other field |
| `Client.TMDbClient.SetDefaultLanguage` | src/main/java/com/universalmediaserver/tmdbapi/TMDbClient.java:180-182 | sets the default language and no other field |
| `Client.TMDbClient.SetGuestSessionId` | src/main/java/com/universalmediaserver/tmdbapi/TMDbClient.java:184-186 | sets the guest session id and no other field |
| `Client.TMDbClient.SetReadToken` | src/main/java/com/universalmediaserver/tmdbapi/TMDbClient.java:188-190 | sets the read token and no other field |
| `Client.TMDbClient.SetSessionId` | src/main/java/com/universalmediaserver/tmdbapi/TMDbClient.java:192-194 | sets the session id and no other field |
| `Client.TMDbClient.SetTesting` | src/main/java/com/universalmediaserver/tmdbapi/TMDbClient.java:196-198 | sets the testing flag and no other field |
| `Client.TMDbClient.GetBuilder` | src/main/java/com/universalmediaserver/tmdbapi/TMDbClient.java:559-599 | the caller's map, when there is one, ends as `WithApiKey` of itself (a null map is replaced by a fresh one the caller never sees); the request is what `Assemble` gives for the endpoint followed by the query part of the kept parameters in the iteration order |
| `Client.TMDbClient.GetResultWithTicket` | src/main/java/com/universalmediaserver/tmdbapi/TMDbClient.java:530-557 | the ticket is released on every path (response, IOException, interruption) and no new one is taken; the outcome is `TicketOutcome` of what the send returned and does not depend on the testing flag; `lastBody` changes only in testing mode, and only to the body received |
| `Client.TMDbClient.GetResult` | src/main/java/com/universalmediaserver/tmdbapi/TMDbClient.java:519-528 | the set of outstanding tickets is the same after the call as before it, on every path; exactly one ticket is taken unless the wait is interrupted; the interrupt flag is set exactly when the wait or the send was interrupted, and the result is then `null` |
| `Client.TMDbClient.Execute` | src/main/java/com/universalmediaserver/tmdbapi/TMDbClient.java:479-517 | a whole verb call, stated once as `CallEnded` and shared with the four verb methods: the query-map update of `GetBuilder`, the result `CallSpec` of the built request, no ticket left outstanding and one ticket taken exactly when the request was admitted and the wait not interrupted, the interrupt flag and `lastBody` as the call path leaves them |
| `Client.TMDbClient.Get` | src/main/java/com/universalmediaserver/tmdbapi/TMDbClient.java:479-487 | `Execute` with GET |
| `Client.TMDbClient.Post` | src/main/java/com/universalmediaserver/tmdbapi/TMDbClient.java:489-497 | `Execute` with POST and the given body |
| `Client.TMDbClient.Put` | src/main/java/com/universalmediaserver/tmdbapi/TMDbClient.java:499-507 | `Execute` with PUT and the given body |
| `Client.TMDbClient.Delete` | src/main/java/com/universalmediaserver/tmdbapi/TMDbClient.java:509-517 | `Execute` with DELETE |

## Left out

- HTTP transport (`HttpClient.newBuilder().followRedirects(ALWAYS)`, TLS, the network): network I/O. The model sees only what `send` returns as a parameter.
- Gson decoding and the polymorphic `MediaTypeInterfaceDeserializer`: foreign library code, modelled as a decoder returning a value, `null` or a syntax error. The `StatusSchema` class is not part of this model. Its code is taken as an optional integer and its message as a nullable string.
- `java.net.URI` parsing and resolution (RFC 2396 as amended by RFC 2732; resolution as in section 5.2 of RFC 2396), `URLEncoder.encode` (application/x-www-form-urlencoded), and the scheme check in `HttpRequest.newBuilder`: library code, left as function parameters. The header-value check in `HttpRequest.Builder.setHeader` is also library code and is not modelled: a token holding control characters would make it throw.
- `TMDbRateLimiter` internals (capacity, time window, fairness, blocking): the class is not part of this model and exists for concurrency. Only its call-site contract is modelled: line 522 shows just that an `int` ticket comes back. Numbering the tickets sequentially is this model's choice; any ticket not already in flight would do. A ghost set tracks the outstanding tickets.
- Concurrency: credentials read while another thread sets them, and several calls in flight at once. The model is sequential.
- Endpoint factory methods (lines 205-477), plain getters and logging (lines 484, 494, 504, 514): object construction, field reads and output with nothing to verify.
- A `null` endpoint, which `StringBuilder.insert` would write as `null`, and a `null` map key: the endpoint classes never pass either, so keys and the endpoint are non-null strings.
- Java strings count UTF-16 code units, the model counts Unicode scalar values. Inside the Basic Multilingual Plane the 32-character rule and `trim` are the same. A token with characters outside it would be measured differently.
- Responses.MapResponse: the rest of the model uses the corrected status mapping (see Findings), so `Client.TMDbClient.GetResultWithTicket` reports a non-2xx body that Gson decodes to `null` (`""`, only JSON whitespace, or `null`) as a TMDbException where the code as written raises a NullPointerException.
- Responses.ErrorStatus: part of the corrected mapping. It replaces a `null` schema from Gson with the synthesized one, where lines 542-549 keep the `null` and then dereference it.
- Client.TMDbExceptionsBecomeNull: stated for the corrected mapping. In the code as written, a non-2xx response whose body Gson decodes to `null` does not give a `null` result: its NullPointerException escapes the verb method.
- Client.CallRaisesOnlyUnchecked: stated for the corrected mapping. The code as written lets one more runtime exception escape, the NullPointerException for a non-2xx body that Gson decodes to `null`.
- QueryString.ParseQueryPart, QueryString.SentIffSendable, QueryString.SentOnce, QueryString.QueryPartShape, QueryString.PresentEmptyApiKeyNotSent, QueryString.ConfiguredApiKeySent: proved only for keys without `&` or `=` and for an encoder that emits no `&`. The code does not encode keys, and every key the client itself uses is a plain name.

## Findings

| source | as written | input that shows it | evidently intended | confidence | as-written member | corrected member |
|---|---|---|---|---|---|---|
| src/main/java/com/universalmediaserver/tmdbapi/TMDbClient.java:544-550 | `GSON.fromJson(body, StatusSchema.class)` returns `null`, without an exception, for an empty body or one of JSON whitespace only; `status.getStatusCode()` then throws a NullPointerException, which escapes `get`/`post`/`put`/`delete` instead of becoming a `null` result | status 404 (or any non-2xx) with body `""` | synthesize the schema from the raw status and body, as for a body that fails to parse: TMDbException "404: TMDb status404: " | medium; not executed (relies on Gson's documented null for an empty document) | `Responses.AsWrittenBlankErrorBodyRaises` | `Responses.CorrectedBlankErrorBodyReported` |
