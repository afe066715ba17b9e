/**
 * The in-memory OAuth 2.0 authorization-code broker (section 4.1 of RFC 6749):
 * a demo login that opens a browser session, `/oauth/authorize` that turns a
 * session into a one-time code bound to a client and a redirect URI,
 * `/oauth/token` that redeems the code for signed tokens, and
 * `/oauth/userinfo` that reads a bearer token (section 2.1 of RFC 6750).
 *
 * Each handler is one atomic step over the broker's four maps. The clock is
 * the `nowMs` parameter (milliseconds since the epoch); fresh session ids and
 * codes are parameters not already in use; JWT signing and verification with
 * the broker's key pair are the arrows of a `JwtCodec`.
 */
module OAuth {
  import opened Wrappers
  import opened Strings
  import opened Urls

  datatype Client = Client(id: string, secret: string, redirectUris: seq<string>)

  datatype User = User(id: string, username: string)

  /** What an authorization code is bound to; `expiresAt` is in milliseconds. */
  datatype CodeRecord = CodeRecord(clientId: string, redirectUri: string, userId: string, expiresAt: int)

  /** Error codes of section 4.1.2.1 and 5.2 of RFC 6749 and section 3.1 of RFC 6750. */
  datatype OAuthError =
    | InvalidRequest
    | UnsupportedResponseType
    | InvalidClient
    | InvalidRedirectUri
    | UnsupportedGrantType
    | InvalidGrant
    | InvalidToken
  {
    /** The `error` value sent on the wire. */
    function Code(): string
    {
      match this
      case InvalidRequest => "invalid_request"
      case UnsupportedResponseType => "unsupported_response_type"
      case InvalidClient => "invalid_client"
      case InvalidRedirectUri => "invalid_redirect_uri"
      case UnsupportedGrantType => "unsupported_grant_type"
      case InvalidGrant => "invalid_grant"
      case InvalidToken => "invalid_token"
    }
  }

  /** An error answer: HTTP status, error code and optional `error_description`. */
  datatype Rejection = Rejection(status: int, error: OAuthError, description: Option<string>)

  const Issuer: string := "http://localhost:3001"
  /** Lifetime of issued tokens, in seconds (`60 * 15`). */
  const TokenLifetime: int := 900
  /** Lifetime of an authorization code, in milliseconds. */
  const CodeLifetime: int := 60000
  const FormContentType: string := "application/x-www-form-urlencoded"

  const DemoClient: Client := Client("demo-client", "demo-secret", ["http://localhost:5173/callback"])
  const DemoUser: User := User("u1", "demo")

  // ---------------------------------------------------------------------------
  // Redirect URI check

  /** A registered entry matches a given URL when it parses and agrees on origin and pathname. */
  predicate RegisteredMatch(registered: string, given: Url)
  {
    match ParseUrl(registered)
    case None => false
    case Some(allowed) => Origin(allowed) == Origin(given) && allowed.pathname == given.pathname
  }

  /** `redirectUris.some(...)`: whether any registered entry matches. */
  function AnyRegisteredMatches(uris: seq<string>, given: Url): (found: bool)
    ensures found <==> exists i :: 0 <= i < |uris| && RegisteredMatch(uris[i], given)
  {
    if uris == [] then false
    else
      var rest := AnyRegisteredMatches(uris[1..], given);
      assert forall i :: 1 <= i < |uris| ==> uris[i] == uris[1..][i - 1];
      RegisteredMatch(uris[0], given) || rest
  }

  /**
   * The redirect URI check of `/oauth/authorize`: the given URI must parse and
   * share origin and pathname with some registered URI that parses.
   */
  function IsRedirectAllowed(client: Client, uri: string): (allowed: bool)
    ensures allowed <==>
              && ParseUrl(uri).Some?
              && exists i :: 0 <= i < |client.redirectUris| && RegisteredMatch(client.redirectUris[i], ParseUrl(uri).value)
  {
    match ParseUrl(uri)
    case None => false
    case Some(given) => AnyRegisteredMatches(client.redirectUris, given)
  }

  /** Query and fragment of the given URI play no part in the check. */
  lemma RedirectCheckIgnoresQueryAndFragment(client: Client, base: string, tail: string)
    requires ParseUrl(base).Some? && NoQueryOrFragment(base)
    requires tail == [] || tail[0] in PathEnd
    ensures IsRedirectAllowed(client, base + tail) == IsRedirectAllowed(client, base)
  {
    QueryAndFragmentIgnored(base, tail);
    var a := ParseUrl(base).value;
    var b := ParseUrl(base + tail).value;
    forall i | 0 <= i < |client.redirectUris|
      ensures RegisteredMatch(client.redirectUris[i], a) == RegisteredMatch(client.redirectUris[i], b)
    {
    }
  }

  /** Every registered URI that parses is itself an allowed redirect. */
  lemma RegisteredUriIsAllowed(client: Client, i: nat)
    requires i < |client.redirectUris| && ParseUrl(client.redirectUris[i]).Some?
    ensures IsRedirectAllowed(client, client.redirectUris[i])
  {
    assert RegisteredMatch(client.redirectUris[i], ParseUrl(client.redirectUris[i]).value);
  }

  /**
   * Under a scheme other than http, https, ws, wss and ftp the origin is
   * opaque and serialises as "null", so origins always agree and the pathname
   * alone decides: such a registered URI allows any URI of such a scheme, on
   * any host, with the same pathname.
   */
  lemma OpaqueOriginsMatchOnPathname(client: Client, i: nat, uri: string)
    requires i < |client.redirectUris| && ParseUrl(client.redirectUris[i]).Some? && ParseUrl(uri).Some?
    requires ParseUrl(client.redirectUris[i]).value.scheme !in TupleOriginSchemes
    requires ParseUrl(uri).value.scheme !in TupleOriginSchemes
    requires ParseUrl(uri).value.pathname == ParseUrl(client.redirectUris[i]).value.pathname
    ensures IsRedirectAllowed(client, uri)
  {
    assert RegisteredMatch(client.redirectUris[i], ParseUrl(uri).value);
  }

  /**
   * A client registering `myapp://a/cb` is allowed to redirect to
   * `other://b/cb`: another scheme and another host.
   */
  lemma OpaqueRedirectAcrossHosts()
    ensures IsRedirectAllowed(Client("app", "secret", ["myapp://a/cb"]), "other://b/cb")
  {
    var client := Client("app", "secret", ["myapp://a/cb"]);
    MyAppParses();
    OtherParses();
    assert client.redirectUris[0] == "myapp://a/cb";
    OpaqueScheme("myapp");
    OpaqueScheme("other");
    OpaqueOriginsMatchOnPathname(client, 0, "other://b/cb");
  }

  lemma MyAppParses()
    ensures ParseUrl("myapp://a/cb") == Some(Url("myapp", "a", "/cb", "", ""))
  {
    assert "myapp" + "://" + "a" + "/cb" == "myapp://a/cb";
    LowerUnchanged("myapp");
    ParseOf("myapp", "a", "/cb");
  }

  lemma OtherParses()
    ensures ParseUrl("other://b/cb") == Some(Url("other", "b", "/cb", "", ""))
  {
    assert "other" + "://" + "b" + "/cb" == "other://b/cb";
    LowerUnchanged("other");
    ParseOf("other", "b", "/cb");
  }

  lemma DemoCallbackSpelled()
    ensures "http" + "://" + "localhost:5173" + "/callback" == "http://localhost:5173/callback"
    ensures "http" + "://" + "evil.example" + "/callback" == "http://evil.example/callback"
  {
  }

  /** The demo client's callback parses to its own parts. */
  lemma DemoCallbackParses()
    ensures ParseUrl("http://localhost:5173/callback") == Some(Url("http", "localhost:5173", "/callback", "", ""))
  {
    DemoCallbackSpelled();
    LowerUnchanged("http");
    ParseOf("http", "localhost:5173", "/callback");
  }

  /** The demo client may use its registered callback. */
  lemma DemoCallbackIsAllowed()
    ensures IsRedirectAllowed(DemoClient, "http://localhost:5173/callback")
  {
    DemoCallbackParses();
    RegisteredUriIsAllowed(DemoClient, 0);
  }

  /** The demo client may not use its callback path on another host. */
  lemma DemoCallbackOnOtherHostIsRejected()
    ensures !IsRedirectAllowed(DemoClient, "http://evil.example/callback")
  {
    DemoCallbackSpelled();
    LowerUnchanged("http");
    ParseOf("http", "evil.example", "/callback");
    DemoCallbackParses();
    var evil := Url("http", "evil.example", "/callback", "", "");
    var demo := Url("http", "localhost:5173", "/callback", "", "");
    assert |Origin(evil)| != |Origin(demo)|;
    assert !RegisteredMatch(DemoClient.redirectUris[0], evil);
  }

  // ---------------------------------------------------------------------------
  // The `sid` cookie

  function TrimAll(parts: seq<string>): (r: seq<string>)
    ensures |r| == |parts| && forall i :: 0 <= i < |parts| ==> r[i] == Trim(parts[i])
  {
    seq(|parts|, i requires 0 <= i < |parts| => Trim(parts[i]))
  }

  /** `items.find(v => v.startsWith(prefix))`, as the index of the item found. */
  function FirstWithPrefix(items: seq<string>, prefix: string): (r: Option<nat>)
    ensures r.Some? ==> r.value < |items| && StartsWith(items[r.value], prefix)
    ensures r.Some? ==> forall j :: 0 <= j < r.value ==> !StartsWith(items[j], prefix)
    ensures r.None? ==> forall j :: 0 <= j < |items| ==> !StartsWith(items[j], prefix)
  {
    if items == [] then None
    else if StartsWith(items[0], prefix) then Some(0)
    else
      match FirstWithPrefix(items[1..], prefix)
      case None => None
      case Some(k) => Some(k + 1)
  }

  /** The trimmed `;`-separated segments of a Cookie header. */
  function CookieSegments(cookie: string): seq<string>
  {
    TrimAll(Split(cookie, ';'))
  }

  /**
   * `cookie.split(';').map(trim).find(startsWith('sid='))?.split('=')[1]`;
   * `None` stands for `undefined`.
   */
  function SidFromCookie(cookie: string): Option<string>
  {
    var segments := CookieSegments(cookie);
    match FirstWithPrefix(segments, "sid=")
    case None => None
    case Some(k) =>
      SidSegmentValue(segments[k]);
      Some(Split(segments[k], '=')[1])
  }

  /** There is a sid exactly when some trimmed segment starts with "sid=". */
  lemma SidPresentIff(cookie: string)
    ensures SidFromCookie(cookie).Some? <==>
              exists i :: 0 <= i < |CookieSegments(cookie)| && StartsWith(CookieSegments(cookie)[i], "sid=")
  {
  }

  /**
   * The sid is the text after the first '=' of the first trimmed segment that
   * starts with "sid=", up to any second '='.
   */
  lemma {:induction false} SidIsValueOfFirstSidSegment(cookie: string)
    ensures match FirstWithPrefix(CookieSegments(cookie), "sid=")
            case None => SidFromCookie(cookie) == None
            case Some(k) => SidFromCookie(cookie) == Some(TakeUntil(CookieSegments(cookie)[k][4..], {'='}))
  {
    var segments := CookieSegments(cookie);
    match FirstWithPrefix(segments, "sid=")
    case None =>
    case Some(k) =>
      SidSegmentValue(segments[k]);
  }

  lemma {:induction false} SidSegmentValue(seg: string)
    requires StartsWith(seg, "sid=")
    ensures |Split(seg, '=')| >= 2 && Split(seg, '=')[1] == TakeUntil(seg[4..], {'='})
  {
    assert seg == seg[..4] + seg[4..];
    assert seg == "sid" + ['='] + seg[4..];
    SplitAtFirst("sid", seg[4..], '=');
    SplitHeadIsTakeUntil(seg[4..], '=');
  }

  /** A value that survives a round trip through a Cookie header. */
  predicate IsCookieSafe(v: string)
  {
    forall i :: 0 <= i < |v| ==> v[i] != ';' && v[i] != '=' && !IsWhitespace(v[i])
  }

  /** The `Set-Cookie` value `/oauth/login` sends. */
  function SessionCookie(sessionId: string): string
  {
    "sid=" + sessionId + "; Path=/; HttpOnly; SameSite=Lax"
  }

  /**
   * A cookie that starts with `sid=<id>`, followed by nothing or by further
   * `;`-separated attributes or cookies, yields that id.
   */
  lemma SessionCookieRoundTrip(sessionId: string, rest: string)
    requires IsCookieSafe(sessionId)
    requires rest == [] || rest[0] == ';'
    ensures SidFromCookie("sid=" + sessionId + rest) == Some(sessionId)
  {
    var first := "sid=" + sessionId;
    var cookie := first + rest;
    assert first[..4] == "sid=";
    assert first[4..] == sessionId;
    assert ';' !in first by {
      forall i | 0 <= i < |first| ensures first[i] != ';' {
        if i >= 4 {
          assert first[i] == sessionId[i - 4];
        }
      }
    }
    FirstSplitPart(first, rest, ';');
    assert !IsWhitespace(first[|first| - 1]) by {
      if sessionId != [] {
        assert first[|first| - 1] == sessionId[|sessionId| - 1];
      }
    }
    LeadingSegment(cookie, first);
    SidOfLeadingSegment(cookie, first);
    TakeUntilAbsent(sessionId, {'='});
  }

  lemma LeadingSegment(cookie: string, first: string)
    requires Split(cookie, ';')[0] == first
    requires first != [] && !IsWhitespace(first[0]) && !IsWhitespace(first[|first| - 1])
    ensures CookieSegments(cookie)[0] == first
  {
    TrimUnchanged(first);
  }

  lemma SidOfLeadingSegment(cookie: string, first: string)
    requires |CookieSegments(cookie)| > 0 && CookieSegments(cookie)[0] == first && StartsWith(first, "sid=")
    ensures SidFromCookie(cookie) == Some(TakeUntil(first[4..], {'='}))
  {
    SidIsValueOfFirstSidSegment(cookie);
  }

  /** Text before the first separator is the first part of a split. */
  lemma FirstSplitPart(first: string, rest: string, sep: char)
    requires sep !in first
    requires rest == [] || rest[0] == sep
    ensures Split(first + rest, sep)[0] == first
  {
    if rest == [] {
      assert first + rest == first;
      SplitNoSeparator(first, sep);
    } else {
      assert first + rest == first + [sep] + rest[1..];
      SplitAtFirst(first, rest[1..], sep);
    }
  }

  /**
   * The user of the browser session named by the Cookie header: `None` when
   * there is no sid, the sid is empty or unknown, or the bound user id is empty.
   */
  function SessionUser(sessions: map<string, string>, cookie: string): (userId: Option<string>)
    ensures userId.Some? ==> userId.value != ""
    ensures userId.Some? ==> SidFromCookie(cookie).Some? && SidFromCookie(cookie).value in sessions
    ensures userId.Some? ==> sessions[SidFromCookie(cookie).value] == userId.value
    ensures userId.Some? <==>
              && SidFromCookie(cookie).Some? && SidFromCookie(cookie).value != ""
              && SidFromCookie(cookie).value in sessions && sessions[SidFromCookie(cookie).value] != ""
  {
    match SidFromCookie(cookie)
    case None => None
    case Some(sid) => if sid != "" && sid in sessions && sessions[sid] != "" then Some(sessions[sid]) else None
  }

  // ---------------------------------------------------------------------------
  // /oauth/authorize

  /** Query parameters; a missing one is "". */
  datatype AuthorizeRequest = AuthorizeRequest(responseType: string, clientId: string, redirectUri: string, state: string)

  /** A 400 answer, or a 302 redirect to `location` with query parameters `params` set. */
  datatype AuthorizeResponse =
    | AuthorizeRejected(rejection: Rejection)
    | Redirect(location: string, params: seq<(string, string)>)

  /** The three checks `/oauth/authorize` makes before it looks at the session. */
  function AuthorizeRejection(clients: map<string, Client>, req: AuthorizeRequest): (r: Option<Rejection>)
    ensures r.None? <==>
              && req.responseType == "code"
              && req.clientId in clients
              && IsRedirectAllowed(clients[req.clientId], req.redirectUri)
    ensures r.Some? ==> r.value.status == 400 && r.value.description.None?
    ensures r.Some? && r.value.error == UnsupportedResponseType <==> req.responseType != "code"
    ensures r.Some? && r.value.error == InvalidClient <==> req.responseType == "code" && req.clientId !in clients
    ensures r.Some? && r.value.error == InvalidRedirectUri <==>
              && req.responseType == "code"
              && req.clientId in clients
              && !IsRedirectAllowed(clients[req.clientId], req.redirectUri)
  {
    if req.responseType != "code" then Some(Rejection(400, UnsupportedResponseType, None))
    else if req.clientId !in clients then Some(Rejection(400, InvalidClient, None))
    else if !IsRedirectAllowed(clients[req.clientId], req.redirectUri) then Some(Rejection(400, InvalidRedirectUri, None))
    else None
  }

  /** `state` is echoed only when it is non-empty. */
  function StateParam(state: string): (params: seq<(string, string)>)
    ensures state == "" <==> params == []
    ensures state != "" ==> params == [("state", state)]
  {
    if state == "" then [] else [("state", state)]
  }

  // ---------------------------------------------------------------------------
  // /oauth/token

  /** The Content-Type header and the form fields; a missing one is "". */
  datatype TokenRequest = TokenRequest(
    contentType: string,
    grantType: string,
    code: string,
    redirectUri: string,
    clientId: string,
    clientSecret: string)

  datatype TokenSet = TokenSet(accessToken: string, idToken: string, tokenType: string, expiresIn: int)

  datatype TokenResponse =
    | TokenRejected(rejection: Rejection)
    | TokenIssued(tokens: TokenSet)

  /** A form body asking for the authorization-code grant. */
  predicate WellFormedTokenRequest(req: TokenRequest)
  {
    Contains(req.contentType, FormContentType) && req.grantType == "authorization_code"
  }

  predicate ClientAuthenticated(clients: map<string, Client>, req: TokenRequest)
  {
    req.clientId in clients && clients[req.clientId].secret == req.clientSecret
  }

  /**
   * The code is known, not yet expired (a code is still good at the very
   * millisecond it expires) and bound to this client and, as exact strings, to
   * this redirect URI.
   */
  predicate Redeemable(codes: map<string, CodeRecord>, req: TokenRequest, nowMs: int)
  {
    && req.code in codes
    && nowMs <= codes[req.code].expiresAt
    && codes[req.code].clientId == req.clientId
    && codes[req.code].redirectUri == req.redirectUri
  }

  /** The ordered checks of `/oauth/token`; `None` means the code is redeemed. */
  function TokenRejection(clients: map<string, Client>, codes: map<string, CodeRecord>, req: TokenRequest, nowMs: int): (r: Option<Rejection>)
    ensures r.None? <==> WellFormedTokenRequest(req) && ClientAuthenticated(clients, req) && Redeemable(codes, req, nowMs)
    ensures !Contains(req.contentType, FormContentType) ==> r == Some(Rejection(400, InvalidRequest, Some("expected form body")))
    ensures r.Some? && r.value.error == UnsupportedGrantType <==> Contains(req.contentType, FormContentType) && req.grantType != "authorization_code"
    ensures r.Some? && r.value.error == InvalidClient <==> WellFormedTokenRequest(req) && !ClientAuthenticated(clients, req)
    ensures r.Some? && r.value.error == InvalidClient ==> r.value.status == 401
    ensures r.Some? && r.value.error == InvalidGrant <==> WellFormedTokenRequest(req) && ClientAuthenticated(clients, req) && !Redeemable(codes, req, nowMs)
    ensures r.Some? && r.value.description == Some("expired") <==>
              && WellFormedTokenRequest(req) && ClientAuthenticated(clients, req)
              && req.code in codes && codes[req.code].expiresAt < nowMs
    ensures r.Some? && r.value.error != InvalidClient ==> r.value.status == 400
    ensures r.Some? && r.value.error != InvalidRequest && r.value.description != Some("expired") ==> r.value.description.None?
  {
    if !Contains(req.contentType, FormContentType) then Some(Rejection(400, InvalidRequest, Some("expected form body")))
    else if req.grantType != "authorization_code" then Some(Rejection(400, UnsupportedGrantType, None))
    else if req.clientId !in clients || clients[req.clientId].secret != req.clientSecret then Some(Rejection(401, InvalidClient, None))
    else if req.code !in codes then Some(Rejection(400, InvalidGrant, None))
    else if codes[req.code].expiresAt < nowMs then Some(Rejection(400, InvalidGrant, Some("expired")))
    else if codes[req.code].clientId != req.clientId then Some(Rejection(400, InvalidGrant, None))
    else if codes[req.code].redirectUri != req.redirectUri then Some(Rejection(400, InvalidGrant, None))
    else None
  }

  /**
   * A code just issued by `/oauth/authorize` is redeemed by a well-formed
   * request of its client that presents the same redirect URI, up to and
   * including the millisecond it expires, and rejected as expired after that.
   */
  lemma IssuedCodeIsRedeemableUntilExpiry(
    clients: map<string, Client>, codes: map<string, CodeRecord>, code: string,
    clientId: string, redirectUri: string, userId: string, issuedMs: int, req: TokenRequest, nowMs: int)
    requires WellFormedTokenRequest(req) && ClientAuthenticated(clients, req)
    requires req.code == code && req.clientId == clientId && req.redirectUri == redirectUri
    ensures var codes' := codes[code := CodeRecord(clientId, redirectUri, userId, issuedMs + CodeLifetime)];
            && (TokenRejection(clients, codes', req, nowMs).None? <==> nowMs <= issuedMs + CodeLifetime)
            && (nowMs > issuedMs + CodeLifetime ==>
                  TokenRejection(clients, codes', req, nowMs) == Some(Rejection(400, InvalidGrant, Some("expired"))))
  {
  }

  /**
   * Single use: once a code has been redeemed and removed, any further request
   * with that code is rejected, and with `invalid_grant` when it gets past the
   * request and client checks.
   */
  lemma RedeemedCodeIsRejected(
    clients: map<string, Client>, codes: map<string, CodeRecord>, req: TokenRequest, nowMs: int,
    again: TokenRequest, laterMs: int)
    requires TokenRejection(clients, codes, req, nowMs).None?
    requires again.code == req.code
    ensures TokenRejection(clients, codes - {req.code}, again, laterMs).Some?
    ensures WellFormedTokenRequest(again) && ClientAuthenticated(clients, again) ==>
              TokenRejection(clients, codes - {req.code}, again, laterMs) == Some(Rejection(400, InvalidGrant, None))
  {
  }

  /**
   * Redirect URI binding: a request that would redeem a code fails with
   * `invalid_grant` when only its redirect URI is changed, even to a URI the
   * client may use at `/oauth/authorize`.
   */
  lemma RedirectUriIsBound(
    clients: map<string, Client>, codes: map<string, CodeRecord>, req: TokenRequest, nowMs: int, otherUri: string)
    requires TokenRejection(clients, codes, req, nowMs).None?
    requires otherUri != req.redirectUri
    ensures TokenRejection(clients, codes, req.(redirectUri := otherUri), nowMs) == Some(Rejection(400, InvalidGrant, None))
  {
  }

  // ---------------------------------------------------------------------------
  // Tokens

  /** The JWT claims the broker signs. */
  datatype Claims = Claims(
    sub: string,
    aud: string,
    iss: string,
    iat: int,
    exp: int,
    scope: Option<string>,
    username: Option<string>)

  /**
   * RS256 signing with the broker's private key, and decoding with its public
   * key (signature check only; `None` when the signature does not verify).
   */
  datatype JwtCodec = JwtCodec(sign: Claims -> string, decode: string -> Option<Claims>)

  /** A signed token is never empty, and decodes to the claims that were signed. */
  ghost predicate Sound(codec: JwtCodec)
  {
    forall c :: codec.sign(c) != [] && codec.decode(codec.sign(c)) == Some(c)
  }

  /** Claims shared by the access and the id token; `iat` is in whole seconds. */
  function BaseClaims(user: User, clientId: string, nowMs: nat): Claims
  {
    var iat := nowMs / 1000;
    Claims(user.id, clientId, Issuer, iat, iat + TokenLifetime, None, None)
  }

  /** `issueTokens`: an access token with scope "openid profile" and an id token carrying the username. */
  function IssueTokens(codec: JwtCodec, user: User, clientId: string, nowMs: nat): (t: TokenSet)
    ensures t.tokenType == "Bearer" && t.expiresIn == TokenLifetime
    ensures Sound(codec) ==>
              && codec.decode(t.accessToken).Some?
              && var c := codec.decode(t.accessToken).value;
              && c.sub == user.id && c.aud == clientId && c.iss == Issuer
              && c.iat == nowMs / 1000 && c.exp == c.iat + t.expiresIn
              && c.scope == Some("openid profile")
    ensures Sound(codec) ==>
              && codec.decode(t.idToken).Some?
              && var c := codec.decode(t.idToken).value;
              && c.sub == user.id && c.aud == clientId && c.iss == Issuer
              && c.iat == nowMs / 1000 && c.exp == c.iat + t.expiresIn
              && c.username == Some(user.username)
  {
    var base := BaseClaims(user, clientId, nowMs);
    TokenSet(
      codec.sign(base.(scope := Some("openid profile"))),
      codec.sign(base.(username := Some(user.username))),
      "Bearer",
      TokenLifetime)
  }

  /**
   * `jwtVerify` with the issuer option: the signature verifies, the issuer is
   * the broker, and the token has not expired (expired when `exp` is at or
   * before the current second).
   */
  function VerifyToken(codec: JwtCodec, token: string, nowMs: nat): (c: Option<Claims>)
    ensures c.Some? ==> codec.decode(token) == c && c.value.iss == Issuer && nowMs / 1000 < c.value.exp
    ensures c.None? ==> codec.decode(token).None? || codec.decode(token).value.iss != Issuer || codec.decode(token).value.exp <= nowMs / 1000
  {
    match codec.decode(token)
    case None => None
    case Some(claims) => if claims.iss == Issuer && nowMs / 1000 < claims.exp then Some(claims) else None
  }

  /** The token after the `Bearer ` prefix, or "" when the header lacks the prefix. */
  function BearerToken(header: string): (token: string)
    ensures StartsWith(header, "Bearer ") ==> header == "Bearer " + token
    ensures !StartsWith(header, "Bearer ") ==> token == ""
  {
    if StartsWith(header, "Bearer ") then header[7..] else ""
  }

  datatype UserInfoResponse =
    | UserInfoRejected(rejection: Rejection)
    | Profile(sub: string, username: string)

  /** `/oauth/userinfo`: every failure is the same 401 `invalid_token`. */
  function UserInfoOf(codec: JwtCodec, users: map<string, User>, header: string, nowMs: nat): (r: UserInfoResponse)
    ensures r.UserInfoRejected? ==> r.rejection == Rejection(401, InvalidToken, None)
    ensures r.Profile? <==>
              && BearerToken(header) != ""
              && VerifyToken(codec, BearerToken(header), nowMs).Some?
              && VerifyToken(codec, BearerToken(header), nowMs).value.sub in users
    ensures r.Profile? ==>
              var user := users[VerifyToken(codec, BearerToken(header), nowMs).value.sub];
              r.sub == user.id && r.username == user.username
  {
    var token := BearerToken(header);
    if token == "" then UserInfoRejected(Rejection(401, InvalidToken, None))
    else
      match VerifyToken(codec, token, nowMs)
      case None => UserInfoRejected(Rejection(401, InvalidToken, None))
      case Some(claims) =>
        if claims.sub in users then Profile(users[claims.sub].id, users[claims.sub].username)
        else UserInfoRejected(Rejection(401, InvalidToken, None))
  }

  /**
   * Both issued tokens are accepted by `/oauth/userinfo` as the user they were
   * issued for exactly until the second they expire.
   */
  lemma IssuedTokensIdentifyUser(
    codec: JwtCodec, users: map<string, User>, user: User, clientId: string, issuedMs: nat, nowMs: nat)
    requires Sound(codec)
    requires user.id in users && users[user.id] == user
    ensures var t := IssueTokens(codec, user, clientId, issuedMs);
            && (UserInfoOf(codec, users, "Bearer " + t.accessToken, nowMs).Profile? <==> nowMs / 1000 < issuedMs / 1000 + TokenLifetime)
            && (UserInfoOf(codec, users, "Bearer " + t.idToken, nowMs).Profile? <==> nowMs / 1000 < issuedMs / 1000 + TokenLifetime)
            && (nowMs / 1000 < issuedMs / 1000 + TokenLifetime ==>
                  UserInfoOf(codec, users, "Bearer " + t.accessToken, nowMs) == Profile(user.id, user.username))
  {
    var t := IssueTokens(codec, user, clientId, issuedMs);
    BearerOfPrefixed(t.accessToken);
    BearerOfPrefixed(t.idToken);
  }

  lemma BearerOfPrefixed(token: string)
    ensures token != "" ==> BearerToken("Bearer " + token) == token
    ensures token == "" ==> BearerToken("Bearer " + token) == ""
  {
    assert ("Bearer " + token)[..7] == "Bearer ";
    assert ("Bearer " + token)[7..] == token;
  }

  // ---------------------------------------------------------------------------
  // The broker

  /** Whether `id` has the shape `generateId(prefix)` gives: prefix, '_', base-36 digits. */
  predicate IsGeneratedId(prefix: string, id: string)
  {
    && StartsWith(id, prefix + "_")
    && forall i :: 0 <= i < |id| ==> ('a' <= id[i] <= 'z' || '0' <= id[i] <= '9' || id[i] == '_')
  }

  /** `body.username || 'demo'`. */
  function LoginName(requested: string): string
  {
    if requested == "" then "demo" else requested
  }

  /**
   * The session `/oauth/login` opens is found again by `/oauth/authorize`: a
   * Cookie header that starts with the `sid` pair login set, alone or before
   * other cookies, names the user the session was opened for.
   */
  lemma LoginCookieNamesUser(sessions: map<string, string>, sid: string, userId: string, rest: string)
    requires IsGeneratedId("sess", sid) && userId != ""
    requires rest == [] || rest[0] == ';'
    ensures SessionUser(sessions[sid := userId], "sid=" + sid + rest) == Some(userId)
  {
    assert IsCookieSafe(sid) by {
      forall i | 0 <= i < |sid| ensures sid[i] != ';' && sid[i] != '=' && !IsWhitespace(sid[i]) {
        assert 'a' <= sid[i] <= 'z' || '0' <= sid[i] <= '9' || sid[i] == '_';
      }
    }
    assert sid != "" by {
      assert |sid| >= |"sess_"|;
    }
    SessionCookieRoundTrip(sid, rest);
  }

  /**
   * GET /oauth/authorize as one step over the code table: the request checks
   * first, then the session; a logged-in user gets a fresh code bound to the
   * client, the redirect URI and the user, valid for 60 seconds. Returns the
   * answer and the new code table.
   */
  function AuthorizeStep(clients: map<string, Client>, sessions: map<string, string>, codes: map<string, CodeRecord>,
                         req: AuthorizeRequest, cookie: string, nowMs: nat, freshCode: string): (AuthorizeResponse, map<string, CodeRecord>)
  {
    var rejection := AuthorizeRejection(clients, req);
    if rejection.Some? then (AuthorizeRejected(rejection.value), codes)
    else
      var userId := SessionUser(sessions, cookie);
      if userId.None? then (Redirect(req.redirectUri, [("error", "login_required")] + StateParam(req.state)), codes)
      else (Redirect(req.redirectUri, [("code", freshCode)] + StateParam(req.state)),
            codes[freshCode := CodeRecord(req.clientId, req.redirectUri, userId.value, nowMs + CodeLifetime)])
  }

  /**
   * A request that fails a check is answered with that check's error before
   * the session is looked at, and no code is added.
   */
  lemma AuthorizeChecksComeFirst(clients: map<string, Client>, sessions: map<string, string>, codes: map<string, CodeRecord>,
                                 req: AuthorizeRequest, cookie: string, nowMs: nat, freshCode: string)
    requires AuthorizeRejection(clients, req).Some?
    ensures AuthorizeStep(clients, sessions, codes, req, cookie, nowMs, freshCode)
            == (AuthorizeRejected(AuthorizeRejection(clients, req).value), codes)
  {
  }

  /**
   * A valid request without a usable session redirects back with
   * `error=login_required` (and the state) and adds no code.
   */
  lemma AuthorizeWithoutSession(clients: map<string, Client>, sessions: map<string, string>, codes: map<string, CodeRecord>,
                                req: AuthorizeRequest, cookie: string, nowMs: nat, freshCode: string)
    requires AuthorizeRejection(clients, req).None? && SessionUser(sessions, cookie).None?
    ensures AuthorizeStep(clients, sessions, codes, req, cookie, nowMs, freshCode)
            == (Redirect(req.redirectUri, [("error", "login_required")] + StateParam(req.state)), codes)
  {
  }

  /**
   * A code is added exactly when the request passes its checks and the cookie
   * names a session, and every code already issued is kept unchanged.
   */
  lemma AuthorizeAddsCodeIff(clients: map<string, Client>, sessions: map<string, string>, codes: map<string, CodeRecord>,
                             req: AuthorizeRequest, cookie: string, nowMs: nat, freshCode: string)
    requires freshCode !in codes
    ensures var next := AuthorizeStep(clients, sessions, codes, req, cookie, nowMs, freshCode).1;
            && (freshCode in next <==> AuthorizeRejection(clients, req).None? && SessionUser(sessions, cookie).Some?)
            && next.Keys <= codes.Keys + {freshCode}
            && (forall c :: c in codes ==> c in next && next[c] == codes[c])
  {
    var next := AuthorizeStep(clients, sessions, codes, req, cookie, nowMs, freshCode).1;
    if AuthorizeRejection(clients, req).None? && SessionUser(sessions, cookie).Some? {
      assert next == codes[freshCode := CodeRecord(req.clientId, req.redirectUri, SessionUser(sessions, cookie).value, nowMs + CodeLifetime)];
    } else {
      assert next == codes;
    }
  }

  /**
   * When a code is issued, the redirect carries it (and the state), and it is
   * bound to the client, the redirect URI and the session's user until 60
   * seconds from now.
   */
  lemma AuthorizeIssuesCode(clients: map<string, Client>, sessions: map<string, string>, codes: map<string, CodeRecord>,
                            req: AuthorizeRequest, cookie: string, nowMs: nat, freshCode: string)
    requires AuthorizeRejection(clients, req).None? && SessionUser(sessions, cookie).Some?
    ensures var (r, next) := AuthorizeStep(clients, sessions, codes, req, cookie, nowMs, freshCode);
            && r == Redirect(req.redirectUri, [("code", freshCode)] + StateParam(req.state))
            && freshCode in next
            && next[freshCode].clientId == req.clientId
            && next[freshCode].redirectUri == req.redirectUri
            && Some(next[freshCode].userId) == SessionUser(sessions, cookie)
            && next[freshCode].expiresAt == nowMs + CodeLifetime
  {
  }

  /** Every session belongs to a known user. */
  predicate SessionsOfKnownUsers(sessions: map<string, string>, users: map<string, User>)
  {
    forall sid :: sid in sessions ==> sessions[sid] in users
  }

  /** Every code belongs to a known user. */
  predicate CodesOfKnownUsers(codes: map<string, CodeRecord>, users: map<string, User>)
  {
    forall code :: code in codes ==> codes[code].userId in users
  }

  /**
   * When every session and every code belongs to a known user, so does every
   * code after `AuthorizeStep`.
   */
  lemma AuthorizeStepKeepsUsers(clients: map<string, Client>, sessions: map<string, string>, codes: map<string, CodeRecord>,
                                req: AuthorizeRequest, cookie: string, nowMs: nat, freshCode: string, users: map<string, User>)
    requires SessionsOfKnownUsers(sessions, users) && CodesOfKnownUsers(codes, users)
    ensures CodesOfKnownUsers(AuthorizeStep(clients, sessions, codes, req, cookie, nowMs, freshCode).1, users)
  {
    var next := AuthorizeStep(clients, sessions, codes, req, cookie, nowMs, freshCode).1;
    var userId := SessionUser(sessions, cookie);
    if AuthorizeRejection(clients, req).None? && userId.Some? {
      var sid := SidFromCookie(cookie).value;
      assert userId.value in users by {
        assert sessions[sid] == userId.value;
      }
      assert next == codes[freshCode := CodeRecord(req.clientId, req.redirectUri, userId.value, nowMs + CodeLifetime)];
    } else {
      assert next == codes;
    }
  }

  /**
   * What the broker keeps true: its codec is sound, the fallback user u1
   * exists, every user is stored under its own id, and every session and
   * every code belongs to a known user.
   */
  ghost predicate BrokerInvariant(codec: JwtCodec, users: map<string, User>, sessions: map<string, string>,
                                  codes: map<string, CodeRecord>)
  {
    && Sound(codec)
    && "u1" in users
    && (forall id :: id in users ==> users[id].id == id)
    && SessionsOfKnownUsers(sessions, users)
    && CodesOfKnownUsers(codes, users)
  }

  lemma AuthorizeStepKeepsInvariant(clients: map<string, Client>, sessions: map<string, string>, codes: map<string, CodeRecord>,
                                    req: AuthorizeRequest, cookie: string, nowMs: nat, freshCode: string,
                                    codec: JwtCodec, users: map<string, User>)
    requires BrokerInvariant(codec, users, sessions, codes)
    ensures BrokerInvariant(codec, users, sessions, AuthorizeStep(clients, sessions, codes, req, cookie, nowMs, freshCode).1)
  {
    AuthorizeStepKeepsUsers(clients, sessions, codes, req, cookie, nowMs, freshCode, users);
  }

  class Broker {
    const codec: JwtCodec
    var clients: map<string, Client>
    var users: map<string, User>
    /** session id to user id */
    var sessions: map<string, string>
    var authCodes: map<string, CodeRecord>

    ghost predicate Valid()
      reads this
    {
      BrokerInvariant(codec, users, sessions, authCodes)
    }

    /** The demo seed: one client and one user, no sessions, no codes. */
    constructor (codec: JwtCodec)
      requires Sound(codec)
      ensures Valid() && this.codec == codec
      ensures clients == map[DemoClient.id := DemoClient] && users == map[DemoUser.id := DemoUser]
      ensures sessions == map[] && authCodes == map[]
    {
      this.codec := codec;
      clients := map[DemoClient.id := DemoClient];
      users := map[DemoUser.id := DemoUser];
      sessions := map[];
      authCodes := map[];
    }

    /**
     * POST /oauth/login: opens a session for the user with the requested
     * username (default "demo"), or for user u1 when there is none, and
     * returns the Set-Cookie value.
     */
    method Login(requested: string, freshSid: string) returns (cookie: string, user: User)
      requires Valid()
      requires freshSid !in sessions && IsGeneratedId("sess", freshSid)
      modifies this`sessions
      ensures Valid()
      ensures user.id in users && users[user.id] == user
      ensures sessions == old(sessions)[freshSid := user.id]
      ensures cookie == SessionCookie(freshSid)
      ensures (exists id :: id in users && users[id].username == LoginName(requested)) ==> user.username == LoginName(requested)
      ensures (forall id :: id in users ==> users[id].username != LoginName(requested)) ==> user == users["u1"]
    {
      var name := LoginName(requested);
      if id :| id in users && users[id].username == name {
        user := users[id];
      } else {
        user := users["u1"];
      }
      sessions := sessions[freshSid := user.id];
      cookie := SessionCookie(freshSid);
    }

    /**
     * GET /oauth/authorize, as one atomic step over the codes; see
     * `AuthorizeStep` for what it answers and which code it adds.
     */
    method Authorize(req: AuthorizeRequest, cookie: string, nowMs: nat, freshCode: string) returns (r: AuthorizeResponse)
      requires Valid()
      requires freshCode !in authCodes && IsGeneratedId("code", freshCode)
      modifies this`authCodes
      ensures Valid()
      ensures (r, authCodes) == AuthorizeStep(clients, sessions, old(authCodes), req, cookie, nowMs, freshCode)
    {
      var step := AuthorizeStep(clients, sessions, authCodes, req, cookie, nowMs, freshCode);
      AuthorizeStepKeepsInvariant(clients, sessions, authCodes, req, cookie, nowMs, freshCode, codec, users);
      r, authCodes := step.0, step.1;
    }

    /**
     * POST /oauth/token: on success removes exactly the redeemed code and
     * issues tokens for its user; any rejection leaves the codes as they were.
     */
    method Token(req: TokenRequest, nowMs: nat) returns (r: TokenResponse)
      requires Valid()
      modifies this`authCodes
      ensures Valid()
      ensures TokenRejection(clients, old(authCodes), req, nowMs).Some? ==>
                r == TokenRejected(TokenRejection(clients, old(authCodes), req, nowMs).value) && authCodes == old(authCodes)
      ensures TokenRejection(clients, old(authCodes), req, nowMs).None? ==>
                && authCodes == old(authCodes) - {req.code}
                && r == TokenIssued(IssueTokens(codec, users[old(authCodes)[req.code].userId], req.clientId, nowMs))
    {
      var rejection := TokenRejection(clients, authCodes, req, nowMs);
      if rejection.Some? {
        return TokenRejected(rejection.value);
      }
      var userId := authCodes[req.code].userId;
      authCodes := authCodes - {req.code};
      r := TokenIssued(IssueTokens(codec, users[userId], req.clientId, nowMs));
    }

    /** GET /oauth/userinfo. */
    method UserInfo(header: string, nowMs: nat) returns (r: UserInfoResponse)
      ensures r == UserInfoOf(codec, users, header, nowMs)
    {
      r := UserInfoOf(codec, users, header, nowMs);
    }
  }
}
