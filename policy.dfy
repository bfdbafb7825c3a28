/**
 * Client identification for the inbound rate limiter (ratelimit.go): a
 * policy reads one string out of an HTTP request, or fails with an error.
 */
module Policy {
  import opened Common

  /** The parts of an HTTP request the policies look at. `header` maps a
      canonical header name to its first value; `cookie` maps a cookie name to
      the value of the first cookie with that name; `remoteHost` is the host
      part of the remote address, or None when that address does not split
      into host and port. */
  datatype Request = Request(
    header: map<string, string>,
    cookie: map<string, string>,
    remoteHost: Option<string>)

  const AuthorizationHeader: string := "Authorization"
  const BearerPrefix: string := "Bearer "

  datatype PolicyError =
    | NoAuthorizationHeader
    | NoBearerPrefix
    | NoHeaderValue
    | NoCookie
    | BadRemoteAddr

  /** The policies the handler can be configured with. */
  datatype RatePolicy =
    | IPRatePolicy
    | TokenRatePolicy
    | HeaderRatePolity(name: string)
    | CookieRatePolicy(cookieName: string)

  /** `Header.Get`: the first value, or the empty string when there is none. */
  function HeaderGet(req: Request, name: string): string
  {
    if name in req.header then req.header[name] else ""
  }

  /** The header policy: the header's value, which must not be empty. */
  function HeaderClient(req: Request, name: string): (r: Result<string, PolicyError>)
    ensures r.Failure? <==> HeaderGet(req, name) == ""
    ensures r.Failure? ==> r.error == NoHeaderValue
    ensures r.Success? ==> r.value == HeaderGet(req, name) && r.value != ""
  {
    var client := HeaderGet(req, name);
    if client == "" then Failure(NoHeaderValue) else Success(client)
  }

  /** The cookie policy: the cookie's value, possibly empty; a missing cookie
      is an error. */
  function CookieClient(req: Request, name: string): (r: Result<string, PolicyError>)
    ensures r.Success? <==> name in req.cookie
    ensures r.Success? ==> r.value == req.cookie[name]
    ensures r.Failure? ==> r.error == NoCookie
  {
    if name in req.cookie then Success(req.cookie[name]) else Failure(NoCookie)
  }

  /** The IP policy: the host part of the remote address. */
  function IPClient(req: Request): (r: Result<string, PolicyError>)
    ensures r.Success? <==> req.remoteHost.Some?
    ensures r.Success? ==> r.value == req.remoteHost.value
    ensures r.Failure? ==> r.error == BadRemoteAddr
  {
    match req.remoteHost
    case Some(host) => Success(host)
    case None => Failure(BadRemoteAddr)
  }

  /** The token policy: the Authorization header must be present and start
      with "Bearer "; the client is the rest of the value. */
  function TokenClient(req: Request): (r: Result<string, PolicyError>)
    ensures var auth := HeaderGet(req, AuthorizationHeader);
      && (r == Failure(NoAuthorizationHeader) <==> auth == "")
      && (r == Failure(NoBearerPrefix) <==> auth != "" && !(BearerPrefix <= auth))
      && (r.Success? <==> BearerPrefix <= auth)
      && (r.Success? ==> BearerPrefix + r.value == auth)
  {
    var auth := HeaderGet(req, AuthorizationHeader);
    if auth == "" then Failure(NoAuthorizationHeader)
    else if !(BearerPrefix <= auth) then Failure(NoBearerPrefix)
    else Success(auth[|BearerPrefix|..])
  }

  /** `policy.GetClient(req)`. */
  function GetClient(policy: RatePolicy, req: Request): Result<string, PolicyError>
  {
    match policy
    case IPRatePolicy => IPClient(req)
    case TokenRatePolicy => TokenClient(req)
    case HeaderRatePolity(name) => HeaderClient(req, name)
    case CookieRatePolicy(name) => CookieClient(req, name)
  }

  /** A request whose only header is `Authorization: auth`. */
  function WithAuthorization(auth: string): Request
  {
    Request(map[AuthorizationHeader := auth], map[], None)
  }

  /** Sending "Bearer " followed by a token identifies the client by exactly
      that token, and any other non-empty value is refused for its prefix. */
  lemma TokenRoundTrip(token: string)
    ensures TokenClient(WithAuthorization(BearerPrefix + token)) == Success(token)
    ensures forall auth :: auth != "" && !(BearerPrefix <= auth) ==>
      TokenClient(WithAuthorization(auth)) == Failure(NoBearerPrefix)
  {
    assert (BearerPrefix + token)[|BearerPrefix|..] == token;
  }

  /** The token policy: a request without an Authorization header is refused
      for that reason, whatever else it carries. */
  lemma TokenNeedsAuthorization(req: Request)
    requires AuthorizationHeader !in req.header
    ensures GetClient(TokenRatePolicy, req) == Failure(NoAuthorizationHeader)
  {
  }

  /** The header policy never identifies a client by the empty string, and
      when it succeeds the client is the header's value. */
  lemma HeaderClientNonEmpty(req: Request, name: string)
    ensures GetClient(HeaderRatePolity(name), req).Success? <==> name in req.header && req.header[name] != ""
    ensures GetClient(HeaderRatePolity(name), req).Success? ==> GetClient(HeaderRatePolity(name), req).value == req.header[name]
  {
  }
}
