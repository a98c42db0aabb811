/** `TMDbClient`: the credentials it holds, `getBuilder`, the two `getResult`
    overloads and the verb entry points `get`, `post`, `put` and `delete`.
    The network, the URI library and Gson are parameters of each call. */
module Client {
  import opened JavaLang
  import opened QueryString
  import opened Requests
  import opened Responses
  import opened RateLimiting

  const DefaultBaseUrl: string := "https://api.themoviedb.org"
  const SendFailed: string := "Error while sending the request"

  /** The constructor's heuristic: a token longer than 32 characters is a
      read token (API v4), anything else, `null` included, an API key (v3). */
  predicate IsReadToken(token: JString) {
    token.Some? && |token.value| > 32
  }

  /** The constructors' classification as the pair (API key, read token):
      exactly one of them receives the token, the other is `null`. */
  function ClassifyToken(token: JString): (JString, JString) {
    if IsReadToken(token) then (None, token) else (token, None)
  }

  /** What `client.send` does with a request: a response with its status and
      body, an IOException, or an InterruptedException. */
  datatype SendResult = Response(status: int, body: string) | IOFailure | SendInterrupted

  /** What a verb method ends in: a (maybe `null`) result, or a runtime
      exception that passes through it. */
  datatype CallResult<T> = Returned(value: Option<T>) | Escaped(kind: Unchecked)

  /** `getResult(requestId, request, …)` once a ticket is held. */
  function TicketOutcome<T>(response: SendResult, codec: Codec<T>): (r: Outcome<T>)
    ensures response.IOFailure? ==> r == Thrown(SendFailed)
    ensures r.Interrupted? <==> response.SendInterrupted?
    ensures response.Response? ==> r == MapResponse(response.status, response.body, codec)
  {
    match response
    case Response(status, body) => MapResponse(status, body, codec)
    case IOFailure => Thrown(SendFailed)
    case SendInterrupted => Interrupted
  }

  /** `getResult(request, …)`: an interruption of the wait for a ticket or of
      the send re-sets the interrupt flag and returns `null`. */
  function AdmittedOutcome<T>(waitInterrupted: bool, response: SendResult, codec: Codec<T>): (r: Outcome<T>)
    ensures !r.Interrupted?
    ensures waitInterrupted || response.SendInterrupted? ==> r == Value(None)
    ensures !waitInterrupted && !response.SendInterrupted? ==> r == TicketOutcome(response, codec)
  {
    if waitInterrupted then Value(None)
    else
      var o := TicketOutcome(response, codec);
      if o.Interrupted? then Value(None) else o
  }

  /** The verb methods' `catch (TMDbException ex)`: the exception becomes `null`. */
  function Catch<T>(o: Outcome<T>): (r: CallResult<T>)
    requires !o.Interrupted?
    ensures o.Value? ==> r == Returned(o.result)
    ensures o.Thrown? ==> r == Returned(None)
    ensures o.Raised? ==> r == Escaped(o.kind)
  {
    match o
    case Value(v) => Returned(v)
    case Thrown(_) => Returned(None)
    case Raised(k) => Escaped(k)
  }

  /** The request that reaches the rate limiter, if any: the built request
      with its verb, unless building failed or the body is `null`. */
  function Admitted(built: BuildResult, verb: Verb): (r: Option<Request>)
    ensures r.Some? <==> built.Built? && WithVerb(built.builder, verb).Some?
    ensures r.Some? ==> r == WithVerb(built.builder, verb)
  {
    if built.Built? then WithVerb(built.builder, verb) else None
  }

  /** A whole verb call, from what `getBuilder` produced: a malformed URL
      becomes `null`, a runtime exception from building or from a `null` body
      escapes, and an admitted request goes through `getResult` and the
      verb's `catch`. */
  function CallSpec<T>(built: BuildResult, verb: Verb, waitInterrupted: bool, send: Request -> SendResult, codec: Codec<T>): (r: CallResult<T>)
    ensures built.BuildThrew? ==> r == Returned(None)
    ensures built.BuildRaised? ==> r == Escaped(built.kind)
    ensures built.Built? && Admitted(built, verb).None? ==> r == Escaped(NullPointer)
    ensures Admitted(built, verb).Some? ==> r == Catch(AdmittedOutcome(waitInterrupted, send(Admitted(built, verb).value), codec))
  {
    match built
    case BuildThrew(_) => Returned(None)
    case BuildRaised(k) => Escaped(k)
    case Built(b) =>
      match WithVerb(b, verb)
      case None => Escaped(NullPointer)
      case Some(request) => Catch(AdmittedOutcome(waitInterrupted, send(request), codec))
  }

  /** A verb call returns a non-null value exactly when the request was built
      and sent without interruption, the status is 2xx and the body decodes
      to that value. */
  lemma CallReturnsValueIff<T>(built: BuildResult, verb: Verb, waitInterrupted: bool, send: Request -> SendResult, codec: Codec<T>, v: T)
    ensures CallSpec(built, verb, waitInterrupted, send, codec) == Returned(Some(v)) <==>
      && Admitted(built, verb).Some?
      && !waitInterrupted
      && var response := send(Admitted(built, verb).value);
         response.Response? && IsSuccess(response.status) && codec.decodeResult(response.body) == Parsed(v)
  {
    if built.Built? && WithVerb(built.builder, verb).Some? {
      var response := send(WithVerb(built.builder, verb).value);
      if !waitInterrupted && response.Response? {
        var o := MapResponse(response.status, response.body, codec);
        assert o == Value(Some(v)) <==> IsSuccess(response.status) && codec.decodeResult(response.body) == Parsed(v);
      }
    }
  }

  /** Every TMDbException, whether from building the URL, from the send or
      from a non-2xx status, reaches the caller as a `null` result. */
  lemma TMDbExceptionsBecomeNull<T>(built: BuildResult, verb: Verb, waitInterrupted: bool, send: Request -> SendResult, codec: Codec<T>)
    requires
      || built.BuildThrew?
      || (&& Admitted(built, verb).Some? && !waitInterrupted
          && var response := send(Admitted(built, verb).value);
             response.IOFailure? || (response.Response? && !IsSuccess(response.status)))
    ensures CallSpec(built, verb, waitInterrupted, send, codec) == Returned(None)
  {
  }

  /** Only runtime exceptions pass through a verb call: a 2xx body Gson
      rejects, a `null` base URL or request body, a URI the HTTP library refuses. */
  lemma CallRaisesOnlyUnchecked<T>(built: BuildResult, verb: Verb, waitInterrupted: bool, send: Request -> SendResult, codec: Codec<T>)
    ensures var r := CallSpec(built, verb, waitInterrupted, send, codec);
      r.Escaped? ==>
        || (built.BuildRaised? && r.kind == built.kind)
        || (built.Built? && WithVerb(built.builder, verb).None? && r.kind == NullPointer)
        || (&& Admitted(built, verb).Some? && !waitInterrupted && r.kind == JsonSyntax
            && var response := send(Admitted(built, verb).value);
               response.Response? && IsSuccess(response.status) && codec.decodeResult(response.body).SyntaxError?)
  {
  }

  /** The caller's `Map<String, String>`, updated in place by `getBuilder`. */
  class QueryMap {
    var entries: Entries

    constructor ()
      ensures entries == map[]
    {
      entries := map[];
    }

    /** `Map.put`. */
    method Put(key: string, value: JString)
      modifies this
      ensures entries == old(entries)[key := value]
    {
      entries := entries[key := value];
    }
  }

  /** The entries of a query argument; a `null` map has none. */
  function EntriesOf(query: QueryMap?): Entries
    reads query
  {
    if query == null then map[] else query.entries
  }

  /** The calling thread's interrupt flag. */
  class CallerThread {
    var interrupted: bool

    constructor ()
      ensures !interrupted
    {
      interrupted := false;
    }

    /** `Thread.currentThread().interrupt()`. */
    method Interrupt()
      modifies this
      ensures interrupted
    {
      interrupted := true;
    }
  }

  class TMDbClient {
    var apiKey: JString
    var accessToken: JString
    var baseUrl: JString
    var defaultLanguage: JString
    var readToken: JString
    var guestSessionId: JString
    var sessionId: JString
    /** The last response body, kept only in testing mode. */
    var lastBody: JString
    var testing: bool

    /** `TMDbClient(baseUrl, apiKeyOrReadToken)`: the token is classified by its length. */
    constructor (baseUrl: JString, apiKeyOrReadToken: JString)
      ensures this.baseUrl == baseUrl
      ensures IsReadToken(apiKeyOrReadToken) ==> readToken == apiKeyOrReadToken && apiKey.None?
      ensures !IsReadToken(apiKeyOrReadToken) ==> apiKey == apiKeyOrReadToken && readToken.None?
      ensures accessToken.None? && defaultLanguage.None? && guestSessionId.None? && sessionId.None?
      ensures lastBody.None? && !testing
    {
      this.baseUrl := baseUrl;
      var credentials := ClassifyToken(apiKeyOrReadToken);
      apiKey, readToken := credentials.0, credentials.1;
      accessToken, defaultLanguage, guestSessionId, sessionId, lastBody := None, None, None, None, None;
      testing := false;
    }

    /** `TMDbClient(apiKeyOrReadToken)`, against the provider's production API. */
    constructor WithToken(apiKeyOrReadToken: JString)
      ensures baseUrl == Some(DefaultBaseUrl)
      ensures IsReadToken(apiKeyOrReadToken) ==> readToken == apiKeyOrReadToken && apiKey.None?
      ensures !IsReadToken(apiKeyOrReadToken) ==> apiKey == apiKeyOrReadToken && readToken.None?
      ensures accessToken.None? && defaultLanguage.None? && guestSessionId.None? && sessionId.None?
      ensures lastBody.None? && !testing
    {
      baseUrl := Some(DefaultBaseUrl);
      var credentials := ClassifyToken(apiKeyOrReadToken);
      apiKey, readToken := credentials.0, credentials.1;
      accessToken, defaultLanguage, guestSessionId, sessionId, lastBody := None, None, None, None, None;
      testing := false;
    }

    /** `TMDbClient()`: no credential yet, for a client that sets an access token later. */
    constructor Default()
      ensures baseUrl == Some(DefaultBaseUrl)
      ensures apiKey.None? && readToken.None? && accessToken.None?
      ensures defaultLanguage.None? && guestSessionId.None? && sessionId.None?
      ensures lastBody.None? && !testing
    {
      baseUrl := Some(DefaultBaseUrl);
      apiKey, readToken, accessToken := None, None, None;
      defaultLanguage, guestSessionId, sessionId, lastBody := None, None, None, None;
      testing := false;
    }

    /** `getVersion()`: 4 with a read token, else 3. */
    function Version(): (v: int)
      reads this
      ensures v == 3 || v == 4
      ensures v == 4 <==> readToken.Some?
    {
      if readToken.Some? then 4 else 3
    }

    method SetAccessToken(value: JString)
      modifies this`accessToken
      ensures accessToken == value
    {
      accessToken := value;
    }

    method SetApiKey(value: JString)
      modifies this`apiKey
      ensures apiKey == value
    {
      apiKey := value;
    }

    method SetBaseUrl(value: JString)
      modifies this`baseUrl
      ensures baseUrl == value
    {
      baseUrl := value;
    }

    method SetDefaultLanguage(value: JString)
      modifies this`defaultLanguage
      ensures defaultLanguage == value
    {
      defaultLanguage := value;
    }

    method SetGuestSessionId(value: JString)
      modifies this`guestSessionId
      ensures guestSessionId == value
    {
      guestSessionId := value;
    }

    method SetReadToken(value: JString)
      modifies this`readToken
      ensures readToken == value
    {
      readToken := value;
    }

    method SetSessionId(value: JString)
      modifies this`sessionId
      ensures sessionId == value
    {
      sessionId := value;
    }

    method SetTesting(value: bool)
      modifies this`testing
      ensures testing == value
    {
      testing := value;
    }

    /** `getBuilder(endpoint, query)`: puts the configured API key into the
        caller's map when it has no `api_key` entry, writes every non-null,
        non-blank parameter as `key=encoded value` behind `?` or `&` in the
        map's iteration order (`order`), puts the endpoint in front, resolves
        the result against the base URL and sets the headers. */
    method GetBuilder(endpoint: string, query: QueryMap?, lib: UriLibrary) returns (r: BuildResult, ghost order: seq<string>)
      modifies query
      ensures query != null ==> query.entries == WithApiKey(old(query.entries), apiKey)
      ensures Enumerates(order, WithApiKey(old(EntriesOf(query)), apiKey))
      ensures r == Assemble(baseUrl, endpoint + QueryPart(WithApiKey(old(EntriesOf(query)), apiKey), order, lib.encode),
                            accessToken, readToken, lib)
    {
      var q := query;
      if q == null {
        q := new QueryMap();
      }
      if ApiKeyName !in q.entries {
        q.Put(ApiKeyName, apiKey);
      }
      var entries := q.entries;
      assert entries == WithApiKey(old(EntriesOf(query)), apiKey);
      var urlBuilder;
      urlBuilder, order := BuildQueryPart(entries, lib.encode);
      r := Assemble(baseUrl, endpoint + urlBuilder, accessToken, readToken, lib);
    }

    /** `getResult(requestId, request, resultClass)`: sends the request, keeps
        the body when testing, maps the response, and releases the ticket on
        every path (`finally`). */
    method GetResultWithTicket<T>(requestId: nat, request: Request, limiter: RateLimiter,
                                  send: Request -> SendResult, codec: Codec<T>) returns (r: Outcome<T>)
      requires limiter.Valid() && requestId in limiter.outstanding
      modifies this`lastBody, limiter
      ensures limiter.Valid() && limiter.outstanding == old(limiter.outstanding) - {requestId}
      ensures limiter.issued == old(limiter.issued)
      ensures r == TicketOutcome(send(request), codec)
      ensures lastBody == if testing && send(request).Response? then Some(send(request).body) else old(lastBody)
    {
      var response := send(request);
      match response {
        case Response(statusCode, body) =>
          if testing {
            lastBody := Some(body);
          }
          r := MapResponse(statusCode, body, codec);
        case IOFailure =>
          r := Thrown(SendFailed);
        case SendInterrupted =>
          r := Interrupted;
      }
      limiter.SetRequestEnd(requestId);
    }

    /** `getResult(request, resultClass)`: waits for a ticket, then sends. */
    method GetResult<T>(request: Request, limiter: RateLimiter, thread: CallerThread, waitInterrupted: bool,
                        send: Request -> SendResult, codec: Codec<T>) returns (r: Outcome<T>)
      requires limiter.Valid()
      modifies this`lastBody, limiter, thread
      ensures limiter.Valid() && limiter.outstanding == old(limiter.outstanding)
      ensures limiter.issued == old(limiter.issued) + (if waitInterrupted then 0 else 1)
      ensures r == AdmittedOutcome(waitInterrupted, send(request), codec)
      ensures thread.interrupted == (old(thread.interrupted) || waitInterrupted || send(request).SendInterrupted?)
      ensures lastBody == if !waitInterrupted && testing && send(request).Response? then Some(send(request).body) else old(lastBody)
    {
      var requestId := limiter.GetRequestId(waitInterrupted);
      if requestId.None? {
        thread.Interrupt();
        return Value(None);
      }
      r := GetResultWithTicket(requestId.value, request, limiter, send, codec);
      if r.Interrupted? {
        thread.Interrupt();
        r := Value(None);
      }
    }

    /** How a verb call leaves the client and its collaborators: the caller's
        map updated as `getBuilder` does, `order` one iteration order of the
        kept parameters, the result `CallSpec` of the request built from them,
        no ticket left in flight and one taken exactly when the request was
        admitted and the wait not interrupted, the interrupt flag set again on
        an interruption, and `lastBody` kept only in testing mode. */
    twostate predicate CallEnded<T>(endpoint: string, query: QueryMap?, verb: Verb, lib: UriLibrary, limiter: RateLimiter,
                                    thread: CallerThread, waitInterrupted: bool, send: Request -> SendResult, codec: Codec<T>,
                                    new r: CallResult<T>, order: seq<string>)
      reads this, query, limiter, thread
    {
      && limiter.Valid() && limiter.outstanding == old(limiter.outstanding)
      && (query != null ==> query.entries == WithApiKey(old(query.entries), apiKey))
      && Enumerates(order, WithApiKey(old(EntriesOf(query)), apiKey))
      && var built := Assemble(baseUrl, endpoint + QueryPart(WithApiKey(old(EntriesOf(query)), apiKey), order, lib.encode),
                               accessToken, readToken, lib);
         && r == CallSpec(built, verb, waitInterrupted, send, codec)
         && var sent := Admitted(built, verb);
            && thread.interrupted == (old(thread.interrupted) || (sent.Some? && (waitInterrupted || send(sent.value).SendInterrupted?)))
            && limiter.issued == old(limiter.issued) + (if sent.Some? && !waitInterrupted then 1 else 0)
            && lastBody == if sent.Some? && !waitInterrupted && testing && send(sent.value).Response?
                           then Some(send(sent.value).body) else old(lastBody)
    }

    /** The body shared by `get`, `post`, `put` and `delete`: build, apply the
        verb, get the result, and turn a TMDbException into `null`. */
    method Execute<T>(endpoint: string, query: QueryMap?, verb: Verb, lib: UriLibrary, limiter: RateLimiter,
                      thread: CallerThread, waitInterrupted: bool, send: Request -> SendResult, codec: Codec<T>)
      returns (r: CallResult<T>, ghost order: seq<string>)
      requires limiter.Valid()
      modifies query, this`lastBody, limiter, thread
      ensures CallEnded(endpoint, query, verb, lib, limiter, thread, waitInterrupted, send, codec, r, order)
    {
      var built;
      built, order := GetBuilder(endpoint, query, lib);
      match built {
        case BuildThrew(_) =>
          r := Returned(None);
          assert Admitted(built, verb).None?;
        case BuildRaised(k) =>
          r := Escaped(k);
          assert Admitted(built, verb).None?;
        case Built(b) =>
          var request := WithVerb(b, verb);
          assert Admitted(built, verb) == request;
          if request.None? {
            r := Escaped(NullPointer);
          } else {
            var o := GetResult(request.value, limiter, thread, waitInterrupted, send, codec);
            r := Catch(o);
          }
      }
    }

    /** `get(endpoint, resultClass, query)`. */
    method Get<T>(endpoint: string, query: QueryMap?, lib: UriLibrary, limiter: RateLimiter,
                  thread: CallerThread, waitInterrupted: bool, send: Request -> SendResult, codec: Codec<T>)
      returns (r: CallResult<T>, ghost order: seq<string>)
      requires limiter.Valid()
      modifies query, this`lastBody, limiter, thread
      ensures CallEnded(endpoint, query, GET, lib, limiter, thread, waitInterrupted, send, codec, r, order)
    {
      r, order := Execute(endpoint, query, GET, lib, limiter, thread, waitInterrupted, send, codec);
    }

    /** `post(endpoint, resultClass, query, postData)`. */
    method Post<T>(endpoint: string, query: QueryMap?, postData: JString, lib: UriLibrary, limiter: RateLimiter,
                  thread: CallerThread, waitInterrupted: bool, send: Request -> SendResult, codec: Codec<T>)
      returns (r: CallResult<T>, ghost order: seq<string>)
      requires limiter.Valid()
      modifies query, this`lastBody, limiter, thread
      ensures CallEnded(endpoint, query, POST(postData), lib, limiter, thread, waitInterrupted, send, codec, r, order)
    {
      r, order := Execute(endpoint, query, POST(postData), lib, limiter, thread, waitInterrupted, send, codec);
    }

    /** `put(endpoint, resultClass, query, postData)`. */
    method Put<T>(endpoint: string, query: QueryMap?, postData: JString, lib: UriLibrary, limiter: RateLimiter,
                  thread: CallerThread, waitInterrupted: bool, send: Request -> SendResult, codec: Codec<T>)
      returns (r: CallResult<T>, ghost order: seq<string>)
      requires limiter.Valid()
      modifies query, this`lastBody, limiter, thread
      ensures CallEnded(endpoint, query, PUT(postData), lib, limiter, thread, waitInterrupted, send, codec, r, order)
    {
      r, order := Execute(endpoint, query, PUT(postData), lib, limiter, thread, waitInterrupted, send, codec);
    }

    /** `delete(endpoint, resultClass, query)`. */
    method Delete<T>(endpoint: string, query: QueryMap?, lib: UriLibrary, limiter: RateLimiter,
                  thread: CallerThread, waitInterrupted: bool, send: Request -> SendResult, codec: Codec<T>)
      returns (r: CallResult<T>, ghost order: seq<string>)
      requires limiter.Valid()
      modifies query, this`lastBody, limiter, thread
      ensures CallEnded(endpoint, query, DELETE, lib, limiter, thread, waitInterrupted, send, codec, r, order)
    {
      r, order := Execute(endpoint, query, DELETE, lib, limiter, thread, waitInterrupted, send, codec);
    }
  }
}
