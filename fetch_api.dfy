/**
 * The client's request helper (frontend/lib/fetch-api.ts): base-URL choice,
 * path-parameter substitution, the query suffix, the header and body rules,
 * and the mapping of the response (or of a thrown error) to the result the
 * callers see. `encodeURIComponent` and `URLSearchParams` are outside the
 * model: parameter values arrive encoded and the query arrives serialised.
 */
module FetchApi {
  import opened Wrappers
  import opened Strings

  datatype HttpMethod = GET | POST | PUT | DELETE | PATCH

  /**
   * The `body` argument: left out (the destructuring default `{}` then
   * applies), an explicit `null`, a `FormData`, another value JavaScript
   * treats as false (`""`, `0`, `false`, `NaN`) with its `JSON.stringify`
   * text, or any other value with that text.
   */
  datatype BodyArg = OmittedBody | NullBody | FormBody | FalsyBody(json: string) | JsonBody(json: string)

  /** `JSON.stringify({})`, the text of the default body. */
  const EmptyObjectJson: string := "{}"

  /** What goes on the wire as the request body. */
  datatype Payload = FormPayload | TextPayload(text: string)

  datatype Request = Request(url: string, verb: HttpMethod, headers: map<string, string>, body: Option<Payload>)

  const MissingBaseUrlMessage: string := "Backend URL not set in env!"
  const ContentType: string := "Content-Type"
  const JsonType: string := "application/json"
  const RequestFailedMessage: string := "Request failed"
  const SuccessMessage: string := "Success"

  /** `baseUrl ?? BACKEND_URL`, then the guard: an absent or empty base throws. */
  function BaseUrl(baseUrl: Option<string>, backendUrl: Option<string>): (r: Result<string, string>)
    ensures baseUrl.Some? && baseUrl.value != "" ==> r == Ok(baseUrl.value)
    ensures baseUrl.Some? && baseUrl.value == "" ==> r == Err(MissingBaseUrlMessage)
    ensures baseUrl.None? && backendUrl.Some? && backendUrl.value != "" ==> r == Ok(backendUrl.value)
    ensures baseUrl.None? && (backendUrl.None? || backendUrl.value == "") ==> r == Err(MissingBaseUrlMessage)
  {
    var chosen := if baseUrl.Some? then baseUrl else backendUrl;
    if chosen.None? || chosen.value == "" then Err(MissingBaseUrlMessage) else Ok(chosen.value)
  }

  /** One parameter: its first `:key` and then its first `[key]` replaced; a null value changes nothing. */
  function SubstituteOne(url: string, key: string, value: Option<string>): string {
    if value.None? then url
    else ReplaceFirst(ReplaceFirst(url, ":" + key, value.value), "[" + key + "]", value.value)
  }

  /** The parameters applied in their enumeration order. */
  function Substitute(url: string, params: seq<(string, Option<string>)>): string
    decreases |params|
  {
    if params == [] then url else Substitute(SubstituteOne(url, params[0].0, params[0].1), params[1..])
  }

  /** The `for…in` loop that rewrites `resolvedUrl`. */
  method ResolveUrl(base: string, url: string, params: seq<(string, Option<string>)>) returns (resolved: string)
    ensures resolved == Substitute(base + url, params)
  {
    resolved := base + url;
    var i := 0;
    while i < |params|
      invariant 0 <= i <= |params|
      invariant Substitute(resolved, params[i..]) == Substitute(base + url, params)
    {
      var (key, value) := params[i];
      if value.Some? {
        resolved := ReplaceFirst(ReplaceFirst(resolved, ":" + key, value.value), "[" + key + "]", value.value);
      }
      assert params[i..][1..] == params[i + 1..];
      i := i + 1;
    }
  }

  /** A pattern whose first character never appears in `s` does not occur in it. */
  lemma FirstCharAbsent(s: string, pat: string)
    requires |pat| > 0 && pat[0] !in s
    ensures !Contains(s, pat)
  {
    forall j | 0 <= j <= |s| ensures !OccursAt(s, pat, j) {
      if j + |pat| <= |s| {
        assert s[j..j + |pat|][0] == s[j];
        assert s[j] in s;
      }
    }
  }

  /**
   * Only the first `:key` is replaced: whatever follows it, another `:key`
   * included, is kept as it is.
   */
  lemma OnlyFirstOccurrence(prefix: string, middle: string, key: string, value: string)
    requires ':' !in prefix && '[' !in prefix + value + middle
    ensures SubstituteOne(prefix + ":" + key + middle, key, Some(value)) == prefix + value + middle
  {
    var pat := ":" + key;
    var s := prefix + ":" + key + middle;
    assert s == prefix + pat + middle;
    assert OccursAt(s, pat, |prefix|) by {
      assert s[|prefix|..|prefix| + |pat|] == pat;
    }
    IndexOfIsFirst(s, pat);
    var i := IndexOf(s, pat);
    forall j | 0 <= j < |prefix| ensures !OccursAt(s, pat, j) {
      assert s[j] == prefix[j] && prefix[j] in prefix;
      if j + |pat| <= |s| {
        assert s[j..j + |pat|][0] == s[j];
      }
    }
    assert i == |prefix|;
    assert s[..i] == prefix && s[i + |pat|..] == middle;
    var t := prefix + value + middle;
    FirstCharAbsent(t, "[" + key + "]");
    IndexOfIsFirst(t, "[" + key + "]");
  }

  /** The serialised query is appended after `?` only when it is not empty. */
  function WithQuery(url: string, query: string): (r: string)
    ensures query == "" ==> r == url
    ensures query != "" ==> r == url + "?" + query
  {
    if query != "" then url + "?" + query else url
  }

  /** The caller's headers, plus `Content-Type: application/json` unless the body is a `FormData`. */
  function RequestHeaders(headers: map<string, string>, body: BodyArg): (h: map<string, string>)
    ensures body.FormBody? ==> h == headers
    ensures !body.FormBody? ==> ContentType in h && h[ContentType] == JsonType
    ensures forall k :: k != ContentType ==> (k in h <==> k in headers) && (k in h ==> h[k] == headers[k])
  {
    if body.FormBody? then headers else headers[ContentType := JsonType]
  }

  /** The body goes out only for methods other than GET and DELETE, and only for an argument JavaScript treats as true. */
  function RequestBody(verb: HttpMethod, body: BodyArg): (p: Option<Payload>)
    ensures verb == GET || verb == DELETE || body.NullBody? || body.FalsyBody? ==> p == None
    ensures p.Some? <==> verb != GET && verb != DELETE && (body.OmittedBody? || body.FormBody? || body.JsonBody?)
    ensures verb != GET && verb != DELETE && body.OmittedBody? ==> p == Some(TextPayload(EmptyObjectJson))
    ensures verb != GET && verb != DELETE && body.FormBody? ==> p == Some(FormPayload)
    ensures verb != GET && verb != DELETE && body.JsonBody? ==> p == Some(TextPayload(body.json))
  {
    if verb == GET || verb == DELETE then None
    else match body
      case OmittedBody => Some(TextPayload(EmptyObjectJson))
      case NullBody => None
      case FalsyBody(_) => None
      case FormBody => Some(FormPayload)
      case JsonBody(json) => Some(TextPayload(json))
  }

  /** The request the helper sends. */
  function BuildRequest(base: string, url: string, params: seq<(string, Option<string>)>, query: string,
                        verb: HttpMethod, headers: map<string, string>, body: BodyArg): Request
  {
    Request(WithQuery(Substitute(base + url, params), query), verb, RequestHeaders(headers, body), RequestBody(verb, body))
  }

  /** The parsed response: its `ok` flag and the `message`, `data` and `error` it carried. */
  datatype Response<D, E> = Response(ok: bool, message: Option<string>, data: D, error: E)

  /** How the request ended: a parsed response, or an error thrown by `fetch` or by `json()`. */
  datatype Exchange<D, E> = Received(response: Response<D, E>) | Threw(message: string)

  datatype FetchResult<D, E> = Failure(message: string, error: Option<E>) | Success(message: string, data: D)

  /** What `fetchAPI` returns, or the error it throws. */
  datatype Outcome<D, E> = Returned(result: FetchResult<D, E>) | Thrown(thrown: string)

  /** The response mapped to the caller's result; the thrown error rethrown only under `throwOnError`. */
  function Normalize<D, E>(exchange: Exchange<D, E>, throwOnError: bool): (o: Outcome<D, E>)
    ensures exchange.Received? && !exchange.response.ok ==>
      o == Returned(Failure(exchange.response.message.GetOr(RequestFailedMessage), Some(exchange.response.error)))
    ensures exchange.Received? && exchange.response.ok ==>
      o == Returned(Success(exchange.response.message.GetOr(SuccessMessage), exchange.response.data))
    ensures exchange.Threw? && throwOnError ==> o == Thrown(exchange.message)
    ensures exchange.Threw? && !throwOnError ==> o == Returned(Failure(exchange.message, None))
  {
    match exchange
    case Received(resp) =>
      if !resp.ok then Returned(Failure(resp.message.GetOr(RequestFailedMessage), Some(resp.error)))
      else Returned(Success(resp.message.GetOr(SuccessMessage), resp.data))
    case Threw(msg) => if throwOnError then Thrown(msg) else Returned(Failure(msg, None))
  }

  /** A result is a success exactly when a response arrived and was ok; without `throwOnError` nothing is thrown. */
  lemma NormalizeSuccessIff<D, E>(exchange: Exchange<D, E>, throwOnError: bool)
    ensures Normalize(exchange, throwOnError).Returned? && Normalize(exchange, throwOnError).result.Success?
      <==> exchange.Received? && exchange.response.ok
    ensures !throwOnError ==> Normalize(exchange, throwOnError).Returned?
  {
  }

  /**
   * `fetchAPI`: a missing base URL throws before anything is sent; otherwise
   * the request is built and `send` (the network) answers it.
   */
  function FetchApiCall<D, E>(baseUrl: Option<string>, backendUrl: Option<string>, url: string,
                              params: seq<(string, Option<string>)>, query: string, verb: HttpMethod,
                              headers: map<string, string>, body: BodyArg, throwOnError: bool,
                              send: Exchange<D, E>): (r: (Option<Request>, Outcome<D, E>))
    ensures BaseUrl(baseUrl, backendUrl).Err? ==> r == (None, Thrown(MissingBaseUrlMessage))
    ensures BaseUrl(baseUrl, backendUrl).Ok? ==>
      r == (Some(BuildRequest(BaseUrl(baseUrl, backendUrl).value, url, params, query, verb, headers, body)), Normalize(send, throwOnError))
  {
    match BaseUrl(baseUrl, backendUrl)
    case Err(msg) => (None, Thrown(msg))
    case Ok(base) => (Some(BuildRequest(base, url, params, query, verb, headers, body)), Normalize(send, throwOnError))
  }

  /**
   * A POST, PUT or PATCH without a body still sends one: the default `{}`,
   * as JSON text with the JSON content type.
   */
  lemma OmittedBodySendsEmptyObject(base: string, url: string, params: seq<(string, Option<string>)>, query: string,
                                    verb: HttpMethod, headers: map<string, string>)
    requires verb == POST || verb == PUT || verb == PATCH
    ensures var req := BuildRequest(base, url, params, query, verb, headers, OmittedBody);
      req.body == Some(TextPayload("{}")) && ContentType in req.headers && req.headers[ContentType] == JsonType
  {
  }

  /** Without parameters and query the request goes to base + url. */
  lemma PlainUrl(base: string, url: string, verb: HttpMethod, headers: map<string, string>, body: BodyArg)
    ensures BuildRequest(base, url, [], "", verb, headers, body).url == base + url
  {
  }
}
