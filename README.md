# apseline: OAuth broker, account service and application card, in Dafny

This project models three parts of the apseline repository and proves properties of them.

- **The in-memory OAuth 2.0 authorization-code broker** (`packages/api/src/oauth.ts`).
  - It follows section 4.1 of RFC 6749.
  - It holds four maps: clients, users, browser sessions and authorization codes.
  - `/oauth/login` opens a session and sets the `sid` cookie.
  - `/oauth/authorize` runs three ordered request checks, reads the session from the Cookie header, and either redirects with `error=login_required` or adds one 60-second code.
  - `/oauth/token` runs seven ordered checks, then deletes the code and issues an access token and an id token.
  - `/oauth/userinfo` reads a Bearer token (section 2.1 of RFC 6750).
- **The account service** (`packages/api/src/auth/service.ts`).
  - `register`, `login`, `whoami` and `changePassword` over the `users` table.
  - Each guards its input in a fixed order and throws one of seven messages, leaving the table unchanged.
  - On success `register` inserts one row, `login` and `changePassword` each update one row, and `whoami` changes nothing.
- **The pure classifiers of the application card** (`packages/web/src/components/AppCard.tsx`).
  - Status colour and status icon.
  - Domain colour, where the first match wins.
  - The `||` fallbacks of the card's details.

## Layout

| file | module | contents |
|---|---|---|
| `wrappers.dfy` | `Wrappers` | `Option` (for `undefined`) and `Result` (for a thrown error) |
| `strings.dfy` | `Strings` | the JavaScript string operations the code relies on: `startsWith`, `includes`, `split` on one character, `trim` |
| `urls.dfy` | `Urls` | the part of `new URL(…)` that the redirect check reads: scheme, host, pathname, query, fragment and origin |
| `oauth.dfy` | `OAuth` | the broker: pure check functions, the `sid` cookie parser and token claims, and the class `Broker` over the four maps |
| `accounts.dfy` | `Accounts` | the account service: pure guard functions and the class `AuthService` over the table |
| `app_card.dfy` | `AppCard` | the card's classifiers and fallbacks |

## Modelling choices

- **Handlers as steps.**
  - Each HTTP handler and service method is one atomic step.
  - A step either fails with a value of an error datatype and leaves the state as it was, or changes the state as its contract says.
  - The class methods of `Broker` and `AuthService` state their new state in terms of pure functions of the old state. The lemmas then prove the source's promises about those functions.
- **Missing and falsy values.** A missing request field and a falsy string are both `""`, which is how `||` and `!x` treat them. `None` stands for `undefined` where the code distinguishes it (`domain?.includes`, the `sid` lookup).
- **The clock and fresh ids.**
  - The clock is a parameter in milliseconds.
  - Fresh session ids and codes are parameters that are not yet in use. `IsGeneratedId` states the shape `generateId` gives them.
  - Fresh row ids are non-empty and not in use.
- **Crypto.**
  - JWT signing and verification with the broker's key pair are the two arrows of an `OAuth.JwtCodec`. `OAuth.Sound` says a signed token is non-empty and decodes to the claims that were signed.
  - The account service's `encrypt`/`decrypt` form an `Accounts.SessionCodec`, which must round-trip.
  - `hash('sha512', …)` is an arbitrary function from string to string.
- **Column names.**
  - The migration `packages/api/migrations/20250905060309_user.ts` creates `password_hash` (line 11), `is_active` (line 23), `last_login_at` (line 24) and, through `timestamps`, `created_at` (line 27).
  - The queries of `packages/api/src/auth/service.ts` use `password` (lines 31, 47, 100), `lastLogin` (lines 54, 68) and `created` (line 68).
  - The model follows the queries. A row has the fields those queries read and write.
- **URL parsing.**
  - The scheme is lower-cased.
  - The origin is a scheme, host and port tuple only for http, https, ws, wss and ftp. Every other scheme, `file` included, has the opaque origin "null".
  - An empty path is "/" under a special scheme (ftp, file, http, https, ws, wss) and "" under any other.
  - The parser reads only the form `scheme://host[path][?query][#fragment]`. It takes the host and its port as written and does not validate them. "## Left out" lists where `new URL` answers differently.

## Model

| member | source | states |
|---|---|---|
| `Strings.ContainsIff` | packages/api/src/oauth.ts:163 | `includes` holds exactly when the needle occurs at some position |
| `Strings.Split` | packages/api/src/oauth.ts:135 | `split` gives at least one part, at least two when the separator occurs, and no part contains the separator |
| `Strings.JoinSplit` | packages/api/src/oauth.ts:135 | joining the parts of a split with the separator gives back the string |
| `Strings.SplitJoin` | packages/api/src/oauth.ts:135 | splitting a join of separator-free parts gives back the parts |
| `Strings.SplitHeadIsTakeUntil` | packages/api/src/oauth.ts:138 | the first part of a split is the text up to the first separator |
| `Strings.TrimIsInfix` | packages/api/src/oauth.ts:136 | `trim` keeps a contiguous piece, everything cut off is ECMAScript white space, and the piece neither starts nor ends with white space |
| `Urls.ParseUrl` | packages/api/src/oauth.ts:54 | a parsed URL has a scheme (a letter, then letters, digits, '+', '-' or '.') in lower case |
| `Urls.ParseAuthority` | packages/api/src/oauth.ts:54 | in the model's parser, after "://", parsing fails exactly when the text is empty or starts with '/', '?' or '#'; the host is all the text up to the first of those; the pathname holds no '?' or '#', and starts with "/" under a special scheme |
| `Urls.ParseUrlSomeIff` | packages/api/src/oauth.ts:54 | the model's parser succeeds exactly when the input is a scheme, "://" and text that starts with a host character |
| `Urls.ParseOf` | packages/api/src/oauth.ts:54 | in the model's parser, scheme, "://", a host and an absolute path without query or fragment parse to exactly those parts, the scheme lower-cased |
| `Urls.QueryAndFragmentIgnored` | packages/api/src/oauth.ts:54-59 | appending a query or fragment to a parseable URL changes neither its origin nor its pathname |
| `OAuth.AnyRegisteredMatches` | packages/api/src/oauth.ts:55-64 | `redirectUris.some(…)` holds exactly when some registered entry parses and has the given origin and pathname; unparseable entries are skipped |
| `OAuth.IsRedirectAllowed` | packages/api/src/oauth.ts:52-68 | allowed exactly when the given URI parses and some registered URI matches it |
| `OAuth.RedirectCheckIgnoresQueryAndFragment` | packages/api/src/oauth.ts:52-68 | a query or fragment on the given URI does not change the verdict |
| `OAuth.RegisteredUriIsAllowed` | packages/api/src/oauth.ts:52-68 | every registered URI that parses is itself allowed |
| `OAuth.OpaqueOriginsMatchOnPathname` | packages/api/src/oauth.ts:52-68 | under schemes with an opaque origin, only the pathname decides: any such URI with the pathname of a registered one is allowed, whatever its host |
| `OAuth.OpaqueRedirectAcrossHosts` | packages/api/src/oauth.ts:52-68 | a client registering `myapp://a/cb` is allowed `other://b/cb` |
| `OAuth.DemoCallbackIsAllowed` | packages/api/src/oauth.ts:27-32 | the demo client's registered callback parses and is allowed |
| `OAuth.DemoCallbackOnOtherHostIsRejected` | packages/api/src/oauth.ts:52-68 | the demo callback's path on another host is not allowed |
| `OAuth.TrimAll` | packages/api/src/oauth.ts:136 | `.map(v => v.trim())` trims each segment, keeping their number and order |
| `OAuth.FirstWithPrefix` | packages/api/src/oauth.ts:137 | `.find(v => v.startsWith('sid='))` finds the first segment with the prefix, and none when no segment has it |
| `OAuth.SidPresentIff` | packages/api/src/oauth.ts:133-138 | there is a sid exactly when some trimmed `;`-segment starts with "sid=" |
| `OAuth.SidIsValueOfFirstSidSegment` | packages/api/src/oauth.ts:133-138 | the sid is the text after "sid=" of the first such segment, up to any further '=' |
| `OAuth.SessionCookieRoundTrip` | packages/api/src/oauth.ts:115-138 | a cookie starting with `sid=<id>`, alone or before further `;`-separated text, gives back the id |
| `OAuth.LoginCookieNamesUser` | packages/api/src/oauth.ts:113-139 | the `sid` pair login sets, sent back, names the user the session was opened for |
| `OAuth.SessionUser` | packages/api/src/oauth.ts:139-140 | there is a session user exactly when the parsed sid is non-empty, is in `sessions` and is bound to a non-empty user id; the user is that binding |
| `OAuth.AuthorizeRejection` | packages/api/src/oauth.ts:127-131 | each of the three errors (response type, client, redirect URI) is answered exactly when the earlier checks pass and its own fails, all with status 400; the request passes exactly when all three hold |
| `OAuth.StateParam` | packages/api/src/oauth.ts:143 | `state` is echoed exactly when it is non-empty |
| `OAuth.AuthorizeChecksComeFirst` | packages/api/src/oauth.ts:127-131 | a failed check is answered before the session is read, and no code is added |
| `OAuth.AuthorizeWithoutSession` | packages/api/src/oauth.ts:139-145 | without a usable session the answer is a redirect with `error=login_required` (and the state), and no code is added |
| `OAuth.AuthorizeAddsCodeIff` | packages/api/src/oauth.ts:127-153 | a code is added exactly when the checks pass and a session is found; no other key is added and every existing code is unchanged |
| `OAuth.AuthorizeIssuesCode` | packages/api/src/oauth.ts:147-157 | an issued code is bound to client, redirect URI and session user until now + 60000 ms, and the redirect carries it and the state |
| `OAuth.AuthorizeStepKeepsUsers` | packages/api/src/oauth.ts:147-153 | every added code belongs to a known user when every session does |
| `OAuth.TokenRejection` | packages/api/src/oauth.ts:161-191 | the seven checks fire in order with their codes and statuses (`invalid_client` 401, the rest 400); the description is "expired" exactly when the earlier checks pass and the known code's expiry is before now, and only `invalid_request` and "expired" carry a description; the code is redeemed exactly when all pass |
| `OAuth.IssuedCodeIsRedeemableUntilExpiry` | packages/api/src/oauth.ts:183-187 | a fresh code is redeemable up to and including its expiry millisecond, and "expired" after it |
| `OAuth.RedeemedCodeIsRejected` | packages/api/src/oauth.ts:181-193 | once redeemed and deleted, a code is rejected, with `invalid_grant` once the request and client checks pass |
| `OAuth.RedirectUriIsBound` | packages/api/src/oauth.ts:190-191 | changing only the redirect URI of a redeeming request gives `invalid_grant` |
| `OAuth.IssueTokens` | packages/api/src/oauth.ts:70-103 | both tokens decode to `sub` = user id, `aud` = client, the fixed issuer, `iat` = now in seconds and `exp = iat + 900`; the access token carries the scope and the id token the username; `token_type` is Bearer and `expires_in` 900 |
| `OAuth.VerifyToken` | packages/api/src/oauth.ts:206-208 | claims are accepted exactly when the signature verifies, the issuer is the broker and the current second is before `exp` |
| `OAuth.BearerToken` | packages/api/src/oauth.ts:202 | the token is what follows the `Bearer ` prefix, and "" without the prefix |
| `OAuth.BearerOfPrefixed` | packages/api/src/oauth.ts:202 | prefixing a token with `Bearer ` and reading it back gives the token |
| `OAuth.UserInfoOf` | packages/api/src/oauth.ts:200-215 | a profile is returned exactly when the header has a Bearer token that verifies and whose `sub` is a known user; every failure is 401 `invalid_token` |
| `OAuth.IssuedTokensIdentifyUser` | packages/api/src/oauth.ts:200-215 | both issued tokens give that user's profile at `/oauth/userinfo` exactly until the second they expire |
| `OAuth.Broker.constructor` | packages/api/src/oauth.ts:26-32 | the demo seed: one client, one user, no sessions and no codes |
| `OAuth.Broker.Login` | packages/api/src/oauth.ts:107-117 | adds exactly one session for the user with the requested name (default "demo"), or for u1 when none has it, and returns the cookie |
| `OAuth.Broker.Authorize` | packages/api/src/oauth.ts:120-158 | for a fresh code of `generateId`'s shape, the answer and the new code table are those of `AuthorizeStep`; the broker's invariant is kept |
| `OAuth.Broker.Token` | packages/api/src/oauth.ts:161-197 | a rejection leaves the codes unchanged; a success deletes exactly the redeemed code and issues tokens for its user |
| `OAuth.Broker.UserInfo` | packages/api/src/oauth.ts:200-215 | answers as `UserInfoOf` and changes nothing |
| `Accounts.UserIdByName` | packages/api/src/auth/service.ts:42 | the lookup by username finds a row with that name, and none only when no row has it |
| `Accounts.UserIdByNameUnique` | packages/api/src/auth/service.ts:42 | with unique usernames the lookup finds the one row with that name |
| `Accounts.RegisterError` | packages/api/src/auth/service.ts:15-24 | missing fields are reported before the table is read; then a clash on username OR email gives "already exists"; registration proceeds exactly when neither holds |
| `Accounts.RegisterKeepsTableValid` | packages/api/src/auth/service.ts:18-34 | inserting the new row keeps ids, usernames and emails unique |
| `Accounts.LoginError` | packages/api/src/auth/service.ts:38-51 | missing fields come first; every other failure is "Invalid credentials"; success means the row found has the password's digest |
| `Accounts.InvalidCredentialsIff` | packages/api/src/auth/service.ts:42-51 | an unknown username and a wrong password give the same error, exactly when no row has both that name and that digest |
| `Accounts.LoginIgnoresIsActive` | packages/api/src/auth/service.ts:42-51 | deactivating or activating a row does not change the outcome of login |
| `Accounts.RegisteredUserCanLogIn` | packages/api/src/auth/service.ts:26-51 | right after registering, the same username and password log in and find the new row |
| `Accounts.WhoamiOf` | packages/api/src/auth/service.ts:64-76 | an undecryptable token or an empty `userId` is "Failed to decrypt token", an unknown id is "User not found", and it succeeds exactly when the id is a row's, with that row's public columns |
| `Accounts.LoginTokenIdentifiesUser` | packages/api/src/auth/service.ts:56-75 | `whoami` of the token login hands out returns that user's public columns |
| `Accounts.ChangePasswordError` | packages/api/src/auth/service.ts:78-95 | token, then both passwords, then the row, then the stored digest: each error is answered exactly when the earlier checks pass and its own fails, a wrong digest giving "Invalid credentials"; it proceeds exactly when all hold |
| `Accounts.ChangePasswordAsWrittenRejects` | packages/api/src/auth/service.ts:92-95 | as written, a row without a `hash` property (every registered row) can never change its password, and with a valid token and both passwords the error is "Invalid credentials" |
| `Accounts.WithPassword` | packages/api/src/auth/service.ts:97-100 | the update sets only that row's password to the new digest; all other rows and ids are unchanged |
| `Accounts.IntendedChangePasswordAfterRegister` | packages/api/src/auth/service.ts:92-102 | compared with the `password` column, a registered user can change the password with their login token; then the new password logs in, and the old one does not when its digest differs |
| `Accounts.AuthService.constructor` | packages/api/src/auth/service.ts:10-12 | the service over a given table, digest and codec |
| `Accounts.AuthService.Register` | packages/api/src/auth/service.ts:14-35 | a failure leaves the table unchanged; a success inserts exactly one row (digest of the password, active, no last login) and returns it |
| `Accounts.AuthService.Login` | packages/api/src/auth/service.ts:37-62 | a failure leaves the table unchanged; a success sets only that row's `lastLogin`, returns the row as read and the token `encrypt(id, username)` |
| `Accounts.AuthService.Whoami` | packages/api/src/auth/service.ts:64-76 | answers as `WhoamiOf` and changes nothing |
| `Accounts.AuthService.ChangePassword` | packages/api/src/auth/service.ts:78-103 | as written: a failure leaves the table unchanged; a success sets only that row's password, with no check on the new password's length |
| `AppCard.StatusColor` | packages/web/src/components/AppCard.tsx:37-48 | healthy, down and maintenance map to success, danger and warning; every other status is neutral |
| `AppCard.StatusIconOf` | packages/web/src/components/AppCard.tsx:24-35 | healthy, down and maintenance map to CheckCircle, Error and Build; every other status is Warning |
| `AppCard.DomainColorIff` | packages/web/src/components/AppCard.tsx:50-54 | primary exactly when "phis" occurs; success exactly when "ahis" occurs and "phis" does not; neutral for a missing domain or neither |
| `AppCard.PhisWins` | packages/web/src/components/AppCard.tsx:51 | any domain containing "phis" is primary, whatever else it contains |
| `AppCard.AhisWithoutPhis` | packages/web/src/components/AppCard.tsx:52 | a domain containing "ahis" and not "phis" is success |
| `AppCard.OrDefault` | packages/web/src/components/AppCard.tsx:61-64 | the logical-or fallback keeps a non-empty value and otherwise gives the fallback |
| `AppCard.DetailsFallBack` | packages/web/src/components/AppCard.tsx:60-64 | each detail is the app's own non-empty value or its literal default ("99.9%", "2 min ago", "v2.1.4", "Infrastructure"), so none is empty |

## Left out

- URL parsing beyond what the redirect check reads is not modelled. This covers case folding of the host, default ports, IPv6 hosts, user info, dot segments, percent-encoding, backslashes, URLs without an authority, and the empty host that `file` and non-special schemes admit.
- Urls.ParseAuthority: does not validate the host or the port as `new URL` does, because host parsing (forbidden code points, IDNA, IPv4 and IPv6 forms, port range) is outside the redirect check's own logic. `new URL` throws on a forbidden host code point (space, `<`, `>`, `^`, `|` and others) and on a port that is not all digits or is above 65535. The model accepts `http://localhost:abc/cb` and `other://a b/cb`.
- Urls.ParseUrlSomeIff: its "exactly when" describes the model's parser, not `new URL`. `new URL` also accepts a special scheme followed by ':' and any number of slashes, so `http:localhost:5173/callback` and `http:///localhost:5173/callback` both parse to `http://localhost:5173/callback`, while the model gives `None`. It also rejects the invalid hosts and ports above, which the model accepts.
- Urls.ParseOf: its requires admit hosts that `new URL` rejects, such as `a b` and `localhost:abc`, so on those inputs the parse it states is the model's, and `new URL` throws.
- OAuth.IsRedirectAllowed: inherits both differences. It is more permissive than the source on invalid hosts and ports: for a client registering `myapp://app/cb`, the model allows `other://a b/cb`, which the source rejects through the catch at packages/api/src/oauth.ts:65-66. It is stricter on a special scheme written without "//" or with extra slashes: the model rejects `http:localhost:5173/callback` for the demo client, which the source allows.
- The input normalisation of `new URL` is not modelled. It strips leading and trailing C0 controls and spaces, removes every tab and newline, and normalises the port (`:05173` becomes `:5173`). So a redirect URI such as ` http://localhost:5173/callback`, with a leading space, passes the check at packages/api/src/oauth.ts:130 in the source but is `invalid_redirect_uri` in the model.
- The serialisation of redirect locations is not modelled. `Redirect` keeps the redirect URI and the parameters set on it; `searchParams.set` replacing a parameter already in the URI is not modelled.
- JWT signing and verification (`jose`), RS256 key generation and the account service's HS256 tokens are codec arrows with a round-trip property. `jwtVerify`'s checks beyond signature, issuer and `exp` are not modelled. The 24-hour expiry of account tokens is not modelled.
- `generateId`'s randomness and every `Date.now()` are parameters.
- The database clock `db.fn.now()` that `login` writes into `lastLogin` (packages/api/src/auth/service.ts:54) is the `now` parameter of `Accounts.AuthService.Login`.
- The two `console.log` calls of `login` on a wrong password (packages/api/src/auth/service.ts:48-49) are not modelled. They write both the computed and the stored digest to the log.
- `node:crypto`'s SHA-512 is an arbitrary string function.
- HTTP plumbing is not modelled: JSON and form body parsing, the `Set-Cookie` header, response bodies and content types, and non-string request values (the `any` inputs).
- The model does not fix which user `/oauth/login` picks when several have the requested name. `Array.find` takes the first in `Map` insertion order; `OAuth.Broker.Login` picks any one.
- `OAuth.Broker.Login` and `OAuth.Broker.Authorize` are stated for session ids and codes that are fresh and have `generateId`'s shape.
- The database is not modelled beyond the table as a map from id to row. This leaves out knex's query building, the order `.first()` scans in, and unique constraints enforced by the database. Uniqueness is an invariant that `register` keeps.
- Concurrency is not modelled. Each handler and service method is one atomic step; the `await` points of the source are not interleaved.
- The card's `responseTime` default uses `Math.random`, and the card's JSX layout is not modelled.
- `packages/api/src/auth/routes.ts` and `packages/api/src/auth/utils.ts` are not part of this model, beyond the codec the service calls.
- A scenario running login, authorize, token and userinfo in sequence on one broker is not included. The individual steps are connected by `OAuth.LoginCookieNamesUser`, `OAuth.AuthorizeIssuesCode`, `OAuth.IssuedCodeIsRedeemableUntilExpiry`, `OAuth.RedeemedCodeIsRejected` and `OAuth.IssuedTokensIdentifyUser`.

## Findings

| source | as written | input that shows it | evidently intended | confidence | as-written member | corrected member |
|---|---|---|---|---|---|---|
| packages/api/src/auth/service.ts:93 | `changePassword` compares the digest of the current password with `user.hash`, a property that no row has, because `register` stores the digest in `password` (line 31) and `login` reads it there (line 47) | any user created by `register`, calling `changePassword` with a valid token, the correct current password and any new password, gets "Invalid credentials" | compare with `user.password`, as `login` does | high; not executed | `Accounts.ChangePasswordAsWrittenRejects` | `Accounts.IntendedChangePasswordAfterRegister` |

`Accounts.ChangePasswordError` takes the compared field as a parameter.

- `HashProperty` is the code as written, which `Accounts.AuthService.ChangePassword` follows.
- `PasswordColumn` is the corrected comparison, whose success path the lemmas prove: change, then log in with the new password.
