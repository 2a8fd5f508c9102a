# Bookmark worker and extension helpers, modelled in Dafny

This project models the request-handling core of a bookmark service. The
service is a Cloudflare Worker (`worker/src`), with two helpers from its
browser extension (`extension/shared`). The model covers:

- **Router** (`router.dfy`): an ordered route table keyed `METHOD:path`, an
  exact lookup, a fallback pattern scan over `:name` segments, positional
  parameter extraction, and the nesting of global and route middlewares
  around an error-wrapped handler.
- **Tokens** (`token.dfy`): `header.payload.signature` tokens signed with
  HMAC, checked in the source's order (part count, signature, expiry), and
  the bearer-header extraction.
- **Password hashes** (`auth.dfy`): lower-case hex rendering, the byte layout
  `salt ‖ PBKDF2(password, salt)`, and the byte-wise comparison.
- **Security utilities** (`security.dfy`): text escaping, password strength,
  the common-password and disposable-domain lists, the sliding-window rate
  limiter and its 429 middleware, cookie parsing and the CSRF check.
- **Middleware and errors** (`middleware.dfy`, `errors.dfy`): `withAuth`,
  the shared required-field scan, the e-mail and password checks, the
  error classes and their mapping to JSON error responses.
- **Controllers** (`controllers.dfy`): register, login, user info and
  bookmark list/add/get/update/delete over an in-memory store (`store.dfy`),
  including the way SQLite reads a bound id text as a number before
  comparing it with the INTEGER id column. The `created_at` and `updated_at`
  columns hold the `YYYY-MM-DD HH:MM:SS` text of SQLite's
  `CURRENT_TIMESTAMP` (`clock.dfy`), computed from the request's clock in
  UTC and the proleptic Gregorian calendar.
- **Performance** (`performance.dfy`): the TTL cache, pagination arithmetic,
  the monitor's counters and bounded response-time window, and the
  connection-pool probe.
- **Wiring** (`app.dfy`): the concrete route table, the global middleware
  order, CORS headers, the OPTIONS short-circuit and `fetch`.
- **Extension** (`extension.dfy`): the form validator, the API-error
  normaliser, the client error classes and `escapeHtml`.

Cryptography, base64, JSON and URL parsing are abstract functions of a
`Platform` value (`platform.dfy`). The laws the proofs need are stated there
as predicates, such as base64 and JSON decoding inverting encoding, or base64
output never containing `.`. Lemmas that need a law take it as a
precondition. The clock (milliseconds since the Unix epoch), the random salt
and the elapsed time are fields of the request. The database is a value that is either up or down.

Five defects in the source are modelled as written and corrected (see
"## Findings"). Where both behaviours are needed, a `Build` parameter
(`AsWritten` or `Corrected`) selects between them.

## Model

| member | source | states |
|---|---|---|
| Router.AddRoute | worker/src/router.js:28-35 | The entry is stored under `UPPERCASE(method):path`. Re-registering a key replaces its handler and middlewares in place. Any other key's lookup is unchanged. A new key is appended at the end of the table. |
| Router.Get | worker/src/router.js:43-45 | After `get(path, h, ms)`, key `GET:path` looks up to `(h, ms)`. |
| Router.Post | worker/src/router.js:53-55 | After `post`, key `POST:path` looks up to the given route. |
| Router.Put | worker/src/router.js:63-65 | After `put`, key `PUT:path` looks up to the given route. |
| Router.Delete | worker/src/router.js:73-75 | After `delete`, key `DELETE:path` looks up to the given route. |
| Router.Use | worker/src/router.js:81-83 | A global middleware is appended last; the route table is unchanged. |
| Router.AddAllFresh | worker/src/router.js:28-35 | Registering distinct fresh keys appends one entry per registration, in registration order. |
| Router.Position | worker/src/router.js:28-33 | The index found is the first entry with the key; when none is found, no entry has it. |
| Router.ScanDecidesRegex | worker/src/router.js:183-189 | The matcher accepts a path exactly when the anchored regular expression built from the pattern does. Each `:name` stands for one non-empty run of non-`/` characters. |
| Router.CompileGroupsEndAtSlash | worker/src/router.js:183-186 | In a compiled pattern, every parameter group is followed by a `/` or by the end of the pattern. |
| Router.LiteralPathMatchesOnlyItself | worker/src/router.js:183-189 | A pattern without `:` matches exactly the identical path, because the match is anchored at both ends. |
| Router.ParamSegmentMatches | worker/src/router.js:183-189 | `prefix:name` matches `prefix` followed by any non-empty segment without `/`. |
| Router.RoutePathAsWritten | worker/src/router.js:176 | The pattern path taken from a key never contains `:`. |
| Router.AsWrittenDropsParam | worker/src/router.js:176 | For a key `VERB:prefix:name`, `key.split(':')[1]` is only `prefix`, so the parameter is lost. |
| Router.RoutePathOfKey | worker/src/router.js:176 | The corrected pattern path (everything after the first `:`) gives back the registered path, and the method part is the upper-cased verb. |
| Router.MatchRoute | worker/src/router.js:174-199 | A match is the first table entry whose method equals the request's and whose pattern matches the path. No match means no entry qualifies. |
| Router.ExtractParams | worker/src/router.js:207-220 | The parameter names bound are exactly the route's `:name` segments. |
| Router.LastSegmentParam | worker/src/router.js:207-220 | For `prefix/:name` against `prefix/segment`, the only binding is `name -> segment`, taken from the same position. |
| Router.ComposeChain | worker/src/router.js:230-257 | The composed chain has the given middlewares in order, with index 0 outermost, around the given handler. The loop builds the same value as `Nest`. |
| Router.Handle | worker/src/router.js:91-166 | An exact key hit dispatches directly, without params. Otherwise the first pattern match dispatches with extracted params. 404 `未找到路由` happens exactly when both fail. |
| Router.ChainOrder | worker/src/router.js:232-256 | A dispatched chain is the global middlewares, then the route's own, then the handler. |
| Token.Btoa | worker/src/tokenService.js:28-29 | `btoa` succeeds exactly on Latin-1 text. |
| Token.GenerateToken | worker/src/tokenService.js:16-34 | Issuing succeeds exactly when the claims' JSON is Latin-1. Otherwise it throws the `btoa` error. |
| Token.VerifyToken | worker/src/tokenService.js:42-74 | A missing or empty token, or one that does not split into three parts, gives null. A returned payload implies three parts, an exact signature match, a decoded payload and no expiry. Conversely, a token with three parts, a matching signature and a decodable payload gives that payload unless its `exp` is set, non-zero and before `now` in seconds; an `exp` equal to `now` still verifies. |
| Token.VerifyIssuedToken | worker/src/tokenService.js:16-69 | A token just issued verifies with the same secret, giving back its id, e-mail and `exp`, while `now` is not past `exp`. |
| Token.DefaultLifetime | worker/src/tokenService.js:16-25 | With the default lifetime, a token verifies exactly while `nowSec <= issuedSec + 604800`. |
| Token.TamperedSignatureRejected | worker/src/tokenService.js:56-59 | A signature that differs from the recomputed one gives null. |
| Token.ExtractTokenFromRequest | worker/src/tokenService.js:81-87 | A token is returned exactly when the Authorization header starts with `Bearer `. The header is then `Bearer ` followed by the token. |
| Token.VerifyRequestAndGetUser | worker/src/tokenService.js:95-120 | Checks run in order: missing token (401), invalid token (401), unknown user (404 `用户不存在`). For a valid token, a database that does not answer gives 500 `Token verification failed`, an unknown id gives the 404, and a known id gives that user's id, e-mail and creation time. |
| Auth.HmacSha256 | worker/src/auth.js:15-33 | The signature is lower-case hex, twice as long as the MAC, and contains no `.`. |
| Auth.HexRoundTrip | worker/src/auth.js:30-32 | Each byte becomes exactly two lower-case hex digits, and the rendering decodes back to the bytes. |
| Auth.HexInjective | worker/src/auth.js:30-32 | Distinct byte strings render to distinct hex. |
| Auth.TypedArraySet | worker/src/auth.js:63-65 | `set` succeeds exactly when the source fits at the offset. The written range then holds the source and the rest is unchanged. |
| Auth.HashPasswordAsWrittenAlwaysThrows | worker/src/auth.js:51-65 | With a 32-byte PBKDF2 output, the 20-byte buffer cannot take the derived bytes at offset 16, so hashing always throws. |
| Auth.HashPassword | worker/src/auth.js:37-69 | The corrected hash always succeeds. It is the base64 of the salt followed by the derived bytes. |
| Auth.CompareHashes | worker/src/auth.js:110-120 | The comparison is true exactly when both hashes have equal length and equal bytes. |
| Auth.VerifyPassword | worker/src/auth.js:72-124 | An undecodable hash string verifies nothing. |
| Auth.VerifyPasswordOfHash | worker/src/auth.js:72-124 | A candidate verifies against a stored hash exactly when its derived bytes under the stored salt equal the stored ones. In particular the original password always verifies. |
| Security.SanitizeText | worker/src/security.js:37-52 | A non-string gives `''`. A string is escaped character by character through the map as written. |
| Security.EscapeRemovesQuotes | worker/src/security.js:43-51 | Escaped text contains no `'`. |
| Security.EscapeLength | worker/src/security.js:43-51 | Escaping lengthens the text by five characters per `'`. |
| Security.EscapeFixesQuoteFree | worker/src/security.js:43-51 | Text without `'` is unchanged, because `& < > "` map to themselves. |
| Security.EscapeAppend | worker/src/security.js:51 | Escaping distributes over concatenation. |
| Security.EscapeNotInjective | worker/src/security.js:43-49 | `'` and the literal text `&#039;` escape to the same output, and `<script>` passes through unchanged. |
| Security.ValidatePasswordStrength | worker/src/security.js:59-101 | The password is valid exactly when it has length ≥ 8, a lower-case letter, an upper-case letter and a digit. Score plus error count is 5. Each message appears exactly when its rule fails. |
| Security.StrengthReport | worker/src/security.js:59-101 | The messages come in rule order (length, lower case, upper case, digit, special character), one per failed rule. The score counts the rules that pass. |
| Security.SpecialCharacterIsAdvisory | worker/src/security.js:88-100 | A missing special character adds its message but leaves the password valid. |
| Security.CommonPasswordIgnoresCase | worker/src/security.js:108-115 | Membership in the common-password list ignores case. |
| Security.TemporaryEmailCases | worker/src/security.js:138-151 | Input without `@` is never disposable. For a local part without `@`, both `local@domain` and `local@domain@rest` are disposable exactly when the lower-cased `domain` is listed. |
| Security.RateLimit | worker/src/security.js:161-187 | Records older than the window are pruned for every key. The call is allowed exactly when the key's pruned count is below the limit, and only then is `(key, now)` appended. Other keys change only by pruning. |
| Security.RateLimitLeavesWindow | worker/src/security.js:163-168 | After a call, no record is older than the window. |
| Security.RateLimitKeepsBound | worker/src/security.js:171-186 | A key never holds more records than the limit. |
| Security.WindowElapsedAdmitsAgain | worker/src/security.js:171-186 | Once all of a key's earlier requests are older than the window, the key is admitted again under any positive limit, and its new request is the only one of it kept. |
| Security.ThirdThenRefused | worker/src/security.js:171-186 | With limit 3, three calls at the same instant pass and the fourth is refused. |
| Security.RateLimitKey | worker/src/security.js:229-231 | The key is `rate_limit:` plus the first truthy of CF-Connecting-IP, X-Forwarded-For and `unknown`. |
| Security.TooManyRequests | worker/src/security.js:236-246 | The refusal is 429 with `Retry-After` equal to ⌈windowMs/1000⌉. |
| Security.RateLimitGate | worker/src/security.js:226-251 | It throws exactly when the database is down. Otherwise it passes exactly when the limiter admits the request, and refuses with 429 without calling `next`. |
| Security.FirstCookie | worker/src/security.js:284-299 | The cookie chosen is the first one whose trimmed name equals the wanted name. |
| Security.GetCookieValue | worker/src/security.js:284-299 | No Cookie header gives null. When a cookie with the name is found, the first one decides: its text between the first and second `=` is returned decoded, or, if it does not decode, the `URIError` is thrown. |
| Security.CookieValueStopsAtSecondEquals | worker/src/security.js:291-293 | In `name=v=w` the value is `v`, and a cookie without `=` has the value `undefined`. |
| Security.CsrfGate | worker/src/security.js:258-276 | GET, HEAD and OPTIONS pass. For any other method, an undecodable `csrf_token` cookie throws the `URIError`. Otherwise the request passes exactly when X-CSRF-Token is non-empty and equals the first `csrf_token` cookie, and is refused with 403 when not. |
| Security.CsrfAcceptsMatchingToken | worker/src/security.js:261-274 | A matching non-empty header token is accepted, and a missing one is rejected. |
| Middleware.Authenticate | worker/src/middleware.js:15-32 | A missing or non-Bearer header raises a 401 `缺少认证令牌`, and a failed verification raises a 401 `无效的认证令牌`. Success sets `request.user` to the decoded payload. Only the token is consulted. |
| Middleware.AuthenticateOutcomes | worker/src/middleware.js:17-30 | With no Authorization header the handler is refused with 401. A passed request always carries a user. |
| Middleware.ValidateRequestBody | worker/src/middleware.js:41-58 | The body is valid exactly when every required field is present and non-empty. There is one `<field>不能为空` per missing field, in list order. |
| Middleware.CheckRequired | worker/src/middleware.js:41-58 | The shared required-field scan: valid exactly when every field is present and non-empty, with one message per missing field, in list order. |
| Middleware.MissingAppend | worker/src/middleware.js:45-50 | Missing fields are reported in list order: the report for a split list is the concatenation of the reports. |
| Middleware.EmailScanMatchesPattern | worker/src/middleware.js:79-82 | The scanning check accepts exactly the strings matching `^[^\s@]+@[^\s@]+\.[^\s@]+$`. |
| Middleware.PasswordLengthMonotone | worker/src/middleware.js:90-92 | The password check is a length threshold with default 6, so a password passing a longer minimum passes a shorter one. |
| Errors.CreateErrorResponse | worker/src/errorHandler.js:140-164 | The body is `{"error": message}` with the given status. Content-Type is JSON unless an extra header overrides it, and the extra headers are kept. |
| Errors.CreateJsonResponse | worker/src/errorHandler.js:173-181 | The body is the data with the given status and a JSON Content-Type. |
| Errors.WithErrorHandling | worker/src/errorHandler.js:93-131 | The wrapped handler never throws. A non-null result passes unchanged, and a thrown error becomes its error response. |
| Errors.ErrorClassesMapToStatuses | worker/src/errorHandler.js:17-86 | ValidationError, AuthenticationError, AuthorizationError, NotFoundError and AppError reach the client as 400, 401, 403, 404 and 500, with their own messages and the default messages. |
| Errors.OtherErrorsLeakTheirMessage | worker/src/errorHandler.js:121-128 | Any other error becomes `status || 500` with `message || '服务器内部错误'`, so the raw message reaches the client. |
| Errors.WithErrorHandlingIdempotent | worker/src/errorHandler.js:93-131 | Wrapping twice behaves as wrapping once. |
| Controllers.ParseRequestBody | worker/src/controllers.js:363-375 | A GET, or a request whose Content-Type is missing or does not mention `application/json`, gives null. Otherwise a JSON object body is returned as is, a `null` body gives null, and malformed JSON throws the parse error. |
| Controllers.RegisterRejection | worker/src/controllers.js:41-82 | A rejection is produced exactly when the data fails a check, and the checks run in the source's order. |
| Controllers.RegisterData | worker/src/controllers.js:27-111 | Every rejection and a taken e-mail throw with the store unchanged. A down database throws. The only store change is one appended user with the next id. |
| Controllers.RegisterDataSucceeds | worker/src/controllers.js:84-111 | With the corrected hash, data that passes every check on a new e-mail, whose token claims are Latin-1, stores the account with the next id and answers 201 with the token and the user's id, e-mail and creation time. |
| Controllers.RegisterAsWrittenNeverInserts | worker/src/controllers.js:87-93 | With the hash layout as written, registering never changes the store. |
| Controllers.RegisterNonBinaryEmailCommitsThenFails | worker/src/controllers.js:93-98 | An accepted e-mail whose token claims are not Latin-1 commits the account and then throws. |
| Controllers.LoginData | worker/src/controllers.js:119-154 | Missing fields throw the required-field error. A successful login names an existing account whose password verifies. |
| Controllers.LoginFailureIsGeneric | worker/src/controllers.js:133-141 | An unknown e-mail and a wrong password raise the same `Invalid email or password` error. |
| Controllers.RegisterThenLogin | worker/src/controllers.js:27-154 | After a successful registration, logging in with the same e-mail and password succeeds. |
| Controllers.UserInfo | worker/src/controllers.js:162-186 | Without an authenticated user it throws. Otherwise it returns the token's user fields. |
| Controllers.ClampPageSize | worker/src/controllers.js:204-208 | pageSize is clamped to [1, 100] and kept when already inside. |
| Controllers.ListPage | worker/src/controllers.js:199-220 | A listing exists exactly for an authenticated user with a working database and integer query values. Page metadata follow the clamped size. |
| Controllers.ListDefaults | worker/src/controllers.js:204-205 | Without query values, page is 1 and pageSize is 20. |
| Controllers.ListClampsPageSize | worker/src/controllers.js:205-208 | `pageSize=500` is served as 100. |
| Base.ParseIntOfDigits | worker/src/controllers.js:204-205 | `parseInt` of a run of decimal digits is the number they spell. |
| Base.ParseIntOfIntToString | worker/src/controllers.js:204-205 | `parseInt` reads an integer's own decimal spelling back as that integer, negative ones included. |
| Controllers.CleanBookmark | worker/src/controllers.js:234-246 | Title and url are required. A valid url is replaced by its sanitised form and the title is escaped; an invalid url is a validation error. |
| Controllers.Add | worker/src/controllers.js:228-258 | Without a user nothing changes. A successful add appends one bookmark owned by the caller, holding the sanitised title and url, with both timestamps set to the database's timestamp text of the request's clock, and answers 201. |
| Controllers.BookmarkId | worker/src/controllers.js:271-273 | A text of decimal digits addresses the row whose id it spells. |
| Controllers.BookmarkIdOfDecimal | worker/src/database.js:48 | A text that reads as a number addresses the integer that number equals, and no row when it is not an integer. |
| Controllers.BookmarkIdOfIntToString | worker/src/controllers.js:271-273 | Every integer's own decimal spelling addresses it. |
| Controllers.BookmarkIdLeadingZeros | worker/src/database.js:48 | Zeros in front of an id's spelling still address that id. |
| Controllers.BookmarkIdPlusSign | worker/src/database.js:48 | `+7` addresses id 7. |
| Controllers.BookmarkIdIgnoresPadding | worker/src/database.js:48 | White space around a text does not change the id it addresses. |
| Controllers.BookmarkIdPaddedSpelling | worker/src/database.js:48 | An id's spelling with white space around it still addresses the id. |
| Controllers.BookmarkIdOfZeroFraction | worker/src/database.js:48 | An id's spelling followed by `.` and zeros still addresses the id. |
| Controllers.BookmarkIdRejectsFraction | worker/src/database.js:48 | A number with a fraction of one half addresses no row. |
| Controllers.BookmarkIdOfExponent | worker/src/database.js:48 | `ne k` addresses id n·10^k. |
| Controllers.BookmarkIdNotNumbers | worker/src/database.js:48 | `7a`, the empty text and `.` address no row. |
| Store.IntegerValue | worker/src/database.js:48 | A decimal with a non-negative exponent is an integer. With a negative one, it is an integer exactly when the scale divides its mantissa, and the integer times the scale gives the mantissa back. |
| Clock.KnownDates | worker/src/database.js:42-43 | Day 0 is 1970-01-01, day -1 is 1969-12-31, day 11016 is the leap day 2000-02-29 and day 19675 is 2023-11-14. |
| Clock.ClockTextRoundTrip | worker/src/database.js:42-43 | Every second of a day is written as `HH:MM:SS` and reads back as itself. |
| Clock.DateTextRoundTrip | worker/src/database.js:42-43 | A date with a four-digit year is written as `YYYY-MM-DD` and reads back as itself. |
| Clock.TimestampReadsBack | worker/src/controllers.js:319 | The stored text is `YYYY-MM-DD HH:MM:SS` and reads back as the UTC date of the clock's day and its second of the day, with milliseconds dropped. |
| Controllers.Owned | worker/src/controllers.js:271-273 | A bookmark is found exactly when the text addresses an integer id and a row has that id and the caller's user id. |
| Controllers.ForeignBookmarkLooksMissing | worker/src/controllers.js:271-277 | A bookmark owned by another user raises the same NotFoundError as a missing one. |
| Controllers.GetBookmark | worker/src/controllers.js:266-280 | Without a user, or without route parameters, it throws. Otherwise a failed lookup throws its error: the unbound id, the down database or the 404. A successful lookup returns the row's JSON, and only that returns. |
| Controllers.Update | worker/src/controllers.js:288-328 | The checks run in the source's order: user, body, route parameters, validation, ownership. A validation error is thrown whatever the lookup would give. A failed lookup throws its error, and a successful one returns. The store changes only when all succeed, and then only the caller's `(id, user_id)` row gets the new title and url. |
| Controllers.UpdateTouchesOnlyOwnedRow | worker/src/controllers.js:309-320 | An update keeps the number of rows. A row that changes belongs to the caller and differs only in title, url and `updated_at`, which becomes the timestamp text of the request's clock. |
| Controllers.DeleteBookmark | worker/src/controllers.js:336-355 | Without a user, or without route parameters, it throws. A failed lookup throws its error with the store unchanged. A successful one removes exactly the caller's `(id, user_id)` rows and returns the success message. |
| Controllers.DeleteRemovesOnlyOwnedRow | worker/src/controllers.js:341-352 | A row disappears only when it is the caller's and the delete succeeded. Other users' rows always survive. |
| Controllers.ValidateRequired | worker/src/controllers.js:383-400 | The body is valid exactly when every field is present and non-empty. There is one `<field> is required` per missing field, in order. |
| Performance.Set | worker/src/performance.js:22-25 | The key maps to the value with expiry `now + ttl`. Other keys are unchanged. |
| Performance.Get | worker/src/performance.js:32-40 | A value is returned exactly while the key exists and `now` is not past its expiry. Otherwise the key is removed from both maps. |
| Performance.SetThenGet | worker/src/performance.js:22-40 | A value just set is read back until its expiry, and null after. |
| Performance.OtherKeysUntouched | worker/src/performance.js:22-49 | Setting or deleting one key does not change what another key reads. |
| Performance.Delete | worker/src/performance.js:46-49 | The key leaves both maps and other keys stay. |
| Performance.Clear | worker/src/performance.js:54-57 | Both maps are empty. |
| Performance.Paginate | worker/src/performance.js:89-104 | The limit is pageSize and the offset is `(page−1)·pageSize`. |
| Performance.PaginationOf | worker/src/performance.js:421-431 | totalPages is ⌈total/pageSize⌉. hasNext holds exactly when `page·pageSize < total`, and hasPrev exactly when `page > 1`. |
| Performance.PagesTile | worker/src/performance.js:89-104 | Consecutive pages' offsets differ by exactly pageSize. |
| Performance.RecordResponseTime | worker/src/performance.js:155-162 | The new time is appended last, and the oldest is dropped past 100 entries, so the window never exceeds 100. Counters are unchanged. |
| Performance.WindowIsSuffix | worker/src/performance.js:155-162 | After any sequence of recordings, the window is the last min(100, n) times recorded. |
| Performance.RecordRequest | worker/src/performance.js:147-149 | The request counter rises by one and nothing else changes. |
| Performance.RecordError | worker/src/performance.js:167-169 | The error counter rises by one and nothing else changes. |
| Performance.RecordCacheHit | worker/src/performance.js:174-176 | The hit counter rises by one and nothing else changes. |
| Performance.RecordCacheMiss | worker/src/performance.js:181-183 | The miss counter rises by one and nothing else changes. |
| Performance.Reset | worker/src/performance.js:213-221 | All counters are zero and the window is empty. |
| Performance.ConnectionPoolGate | worker/src/performance.js:352-365 | A failed probe answers 503 without calling next. Otherwise it delegates. |
| App.CorsHeaders | worker/src/index.js:21-42 | Allow-Origin is the request's Origin when present, otherwise `CORS_ORIGIN`, otherwise `*`. The three fixed CORS headers are always present. |
| App.AddCorsHeaders | worker/src/index.js:51-59 | CORS headers are always set. As written, the response's own headers are dropped; corrected, they are kept unless CORS overrides them. A null result throws. |
| App.SecurityMerge | worker/src/security.js:204-211 | The security headers are kept wherever the response does not set the same name. As written only they survive; corrected, the response's own headers are laid over them and keep their values. |
| App.SecurityMergeDropsHeadersAsWritten | worker/src/security.js:210 | A handler's header that is not a security header is lost by the spread as written, and kept with its value by the corrected merge. |
| App.CorsMergeDropsHeadersAsWritten | worker/src/index.js:53 | Spreading a Headers object loses each of the response's headers. The corrected merge keeps them. |
| App.TableKeysDistinct | worker/src/index.js:69-87 | The ten registered routes have distinct keys. |
| App.WorkerRouterIsWired | worker/src/index.js:62-87 | The worker's router has the four global middlewares in order (monitor, security headers, rate limit 100/60000, connection pool), and no route carries middlewares of its own. |
| App.RoutedChain | worker/src/index.js:62-87 | Every dispatched chain is the four globals in order around the route's handler. |
| App.Fetch | worker/src/index.js:91-117 | A down database throws out of `fetch`. OPTIONS gets the preflight before routing. Every other request is routed, and its answer or the 500 `服务器内部错误` carries the CORS headers. |
| App.VerifyRouteAlwaysFails | worker/src/index.js:71 | `/api/user/verify` has no `withAuth`, so its handler finds no user and always answers 500. |
| App.AsWrittenChainStops | worker/src/index.js:63 | Registered as written, the security-headers stage returns a closure instead of calling next, so no route handler ever runs. |
| App.AsWrittenRoutesAnswerPlaceholder | worker/src/index.js:62-65 | As written, every routed request is answered 200 with the server-error text and only the CORS headers. No handler, limiter or query runs, so the store is unchanged; the monitor still counts the request. |
| App.CorrectedRoutesReachHandler | worker/src/index.js:62-65 | With the security headers applied as a wrapper and both header spreads corrected, an admitted request reaches its route's handler. The response keeps the handler's status, body and headers, over the security headers, with the response time and the CORS headers added. |
| App.CorrectedRateLimitRefuses | worker/src/index.js:64 | A request over the limit is answered 429 without running the handler. Only the limiter's records and the monitor change. |
| App.RefusalRetryAfter | worker/src/security.js:236-246 | The refusal from the registered limiter carries `Retry-After: 60`. |
| App.BookmarkRouteByBuild | worker/src/index.js:77-79 | As written, `GET /api/bookmarks/<id>` matches no route and gets 404. Corrected, it reaches the get handler with `id` bound to the segment. |
| Extension.ErrorClassDefaults | extension/shared/errorHandler.js:26-97 | Validation and auth errors are warnings, and network, API and generic errors are errors. ApiError's status defaults to 500. Type names and default messages are as declared. |
| Extension.HandleApiError | extension/shared/errorHandler.js:138-154 | Falsy gives `未知错误`/500, and an ApiError is returned unchanged. An error with a message gives `ApiError(message, status || 500)`, and otherwise `API请求失败`. The result is always an ApiError. |
| Extension.HandleApiErrorIdempotent | extension/shared/errorHandler.js:138-154 | Normalising twice is the same as normalising once. |
| Extension.HandleError | extension/shared/errorHandler.js:115-131 | An AppError is shown with its own message and severity. Exactly the TypeErrors mentioning `Failed to fetch` get the network notice. |
| Extension.HandleApiCall | extension/shared/errorHandler.js:162-170 | A success returns the call's result. A failure rethrows the normalised ApiError after showing it. |
| Extension.FieldErrors | extension/shared/errorHandler.js:181-224 | A blank required field yields only `<label>不能为空`, and a blank optional field yields nothing. A filled field passes exactly when its type check and its validator both pass. |
| Extension.TypeErrors | extension/shared/errorHandler.js:198-214 | An `email` field passes exactly when it matches the e-mail pattern. A `url` field passes exactly when it parses. A `password` field passes exactly when its length reaches `minLength || 6`. Other types are not checked. |
| Extension.VerdictErrors | extension/shared/errorHandler.js:217-222 | A validator adds nothing exactly when it returns `true`. Otherwise it adds its own result, or `<label>验证失败` when that is falsy. |
| Extension.CheckField | extension/shared/errorHandler.js:181-224 | The loop body, with its `continue`s, computes the same errors as the declarative `FieldErrors`. |
| Extension.Validate | extension/shared/errorHandler.js:178-229 | The error list is each field's errors in rule order. `valid` holds exactly when every field passes. |
| Extension.NoErrorsIffEveryFieldPasses | extension/shared/errorHandler.js:226-228 | The error list is empty exactly when every field yields no errors. |
| Extension.ErrorsInRuleOrder | extension/shared/errorHandler.js:179-224 | Errors of a split rule list are the first part's errors followed by the second's. |
| Extension.LoginFormErrors | extension/shared/errorHandler.js:185-211 | An empty e-mail and a short password give exactly the two expected messages, in order. |
| Extension.EscapeHtml | extension/shared/utils.js:41-51 | It equals the worker's sanitiser on strings. The output has no `'`, is five characters longer per `'`, and quote-free text is unchanged. |
| Extension.EscapeHtmlByCharacter | extension/shared/utils.js:42-50 | Escaping works character by character: only `'` changes, to `&#039;`. |

## Left out

- UTF-16: strings are sequences of characters, and lengths count characters, not UTF-16 code units.
- Case mapping: `toLowerCase`/`toUpperCase` are modelled on ASCII letters only.
- Floating point: the averages and ratios of `getMetrics` are not modelled; the metrics route answers the raw counters.
- The cache middleware (worker/src/performance.js:303-346) is not registered anywhere, and `optimizedQuery`, `QueryOptimizer.optimize`, `compress` and `shouldCompress` are not on any request path.
- `generateRandomToken` depends on `Math.random`.
- Cryptography: PBKDF2, HMAC-SHA256, `btoa`/`atob` and JSON are abstract functions with stated laws, not implementations.
- URL parsing: `sanitizeUrl` and `isValidUrl` use the WHATWG URL parser. They are an abstract partial function (`Platform.sanitizeUrl`) and, on the extension side, a `urlParses` parameter.
- Route patterns: regular-expression metacharacters in route paths other than `/` are not escaped by the source. The modelled table has none.
- Headers: the runtime's default response headers, and Headers case-insensitivity beyond exact names, are not modelled.
- `createRateLimitTable`: only its throw when the database is down is modelled, not the schema it creates.
- Concurrency: `async`/`await` and concurrent requests are sequential steps, and the limiter's atomicity is not modelled.
- Controllers.BookmarkId: SQLite compares through 64-bit integers and doubles, while the model reads every numeric text exactly. An integer beyond 64 bits (which SQLite turns into a REAL), a fraction or exponent beyond double precision, and SQLite's cap on exponent size are therefore not modelled; for such texts the model may address a row SQLite would not.
- `parseInt`: numbers too large for a double lose precision in the source and are exact here.
- Error text: engine and database driver error wording is represented by fixed placeholders.
- URLs: a request's URL is held as its path and query map.
- Router state: the router is a parameter of `App.Fetch` (the worker's own is `App.WorkerRouter`), to keep the table out of unrelated proofs.
- `Object.entries` ordering of integer-like keys is not modelled; the validator's rule list is a sequence.
- Extension.Validate: only validator results `true` or a string (a falsy one counts as the empty string) are modelled.
- Extension.HandleApiCall: the `errorMessage` argument is never read by the source and plays no part.
- Logging: `console.log`/`console.error` are not modelled.
- Extension UI: `showNotification`, the DOM and the chrome storage token helpers in extension/shared/utils.js are not modelled.
- `asyncHandler` (worker/src/errorHandler.js:188-191) is exported but never used by the worker, so it is not modelled.
- Time: the clock, the random salt and the elapsed time are fields of the request, not reads of the environment. The database's `CURRENT_TIMESTAMP` is taken to read the same clock as the request.
- Clock.TimestampReadsBack: the calendar's ranges (months 1 to 12, days 1 to 31) are not proved for every day count; the round trip instead requires a four-digit year and a month and day below 100, and `Clock.KnownDates` checks the calendar on four sample days. SQLite's output for years outside 0000 to 9999 is not modelled.
- Controllers.ParseRequestBody: a JSON body is modelled as a map of string fields; non-string values (numbers, booleans, nested objects) are dropped, so the model does not promise what the source does with them.
- Controllers.CleanBookmark: likewise for a non-string field. In the source a numeric `title` passes the required check and is then stored as `''` by `sanitizeText`, while here it counts as missing and is reported as required. The same goes for a numeric `email` or `password` in `RegisterData`/`LoginData`, `Add` and `Update`.
- CSRF: `csrfProtection` is modelled (`Security.CsrfGate`) but the worker does not register it.
- App.Timed: the monitor's elapsed time is an input, so the contract says nothing about timing values.

## Findings

| source | as written | input that shows it | evidently intended | confidence | as-written member | corrected member |
|---|---|---|---|---|---|---|
| worker/src/auth.js:63-65 | The buffer is sized `salt.length + derivedBits.byteLength / 8` (16 + 4 = 20), then 32 derived bytes are written at offset 16. | Any password; PBKDF2 with 256 bits returns 32 bytes, so `set` throws a RangeError and registration never stores a user. | Buffer of `salt.length + derivedBits.byteLength` bytes holding salt then hash. | not executed | Auth.HashPasswordAsWrittenAlwaysThrows | Auth.VerifyPasswordOfHash |
| worker/src/index.js:63 | `addSecurityHeaders`, shaped `(handler) => wrapped`, is registered as a `(request, env, next)` middleware. | Any routed request, e.g. `GET /api/user/info`: the stage returns a function, which becomes the route's answer, and no handler runs. | Apply the security headers around the handler's response and call the rest of the chain. | not executed | App.AsWrittenRoutesAnswerPlaceholder | App.CorrectedRoutesReachHandler |
| worker/src/index.js:53 | `{ ...response.headers, ...corsHeaders }` spreads a Headers object, which has no own enumerable properties. | A JSON response with `Content-Type: application/json` leaves with only the CORS headers. | Keep the response's headers and add the CORS ones. | not executed | App.CorsMergeDropsHeadersAsWritten | App.RespondCorrected |
| worker/src/security.js:210 | `{ ...securityHeaders, ...response.headers }` spreads a Headers object, so none of the response's own headers are copied. It is hidden behind the index.js:63 defect: once that stage is called as a wrapper, every response loses its headers here. | With index.js:63 corrected, a JSON response leaves `addSecurityHeaders` without its `Content-Type: application/json`. | Keep the response's headers and put the security ones under them. | not executed | App.SecurityMergeDropsHeadersAsWritten | App.CorrectedRoutesReachHandler |
| worker/src/router.js:176 | The pattern path is `key.split(':')[1]`, so `GET:/api/bookmarks/:id` yields `/api/bookmarks/`. | `GET /api/bookmarks/42` matches no route and gets 404. | The pattern is everything after the first `:`, here `/api/bookmarks/:id`. | not executed | Router.AsWrittenDropsParam | Router.RoutePathOfKey |
