/** worker/src/controllers.js: the account and bookmark controllers over
    the in-memory store. Each controller is the inner function that
    `withErrorHandling` wraps; it yields what it returned or threw, and the
    store as it left it (a write that happened before a later throw stays). */
module Controllers {
  import opened Base
  import opened Platform
  import opened Http
  import opened Errors
  import opened Store
  import opened Clock
  import Auth
  import Token
  import Security
  import Middleware
  import Performance

  datatype Step = Step(outcome: Outcome, db: Db)

  // ---------------------------------------------------------------------
  // request bodies

  /** The `SyntaxError` `request.json()` throws on a body that is not JSON.
      The exact wording is the engine's. */
  const MalformedJson := OtherError("Unexpected token in JSON", None)

  /** The `TypeError` of destructuring `null`, naming the first property. */
  function DestructureNull(field: string): Thrown {
    OtherError("Cannot destructure property '" + field + "' of '(intermediate value)' as it is null.", None)
  }

  /** `parseRequestBody(request)`: `None` is the `null` it returns for a GET
      or for a request whose Content-Type does not mention JSON. */
  function ParseRequestBody(req: Request): (r: Result<Option<map<string, string>>, Thrown>)
    ensures req.verb == "GET" ==> r == Ok(None)
    ensures r.Ok? && r.value.Some? ==>
              && req.verb != "GET" && req.body == Fields(r.value.value)
              && Truthy(GetHeader(req, "Content-Type")) && Includes(GetHeader(req, "Content-Type").value, "application/json")
    ensures r.Err? ==> r.error == MalformedJson && req.body == Malformed
    ensures req.verb != "GET" && Truthy(GetHeader(req, "Content-Type"))
              && Includes(GetHeader(req, "Content-Type").value, "application/json") ==>
              && (req.body.Fields? ==> r == Ok(Some(req.body.values)))
              && (req.body.NullBody? ==> r == Ok(None))
              && (req.body.Malformed? ==> r == Err(MalformedJson))
    ensures !Truthy(GetHeader(req, "Content-Type")) || !Includes(GetHeader(req, "Content-Type").value, "application/json") ==>
              r == Ok(None)
  {
    if req.verb == "GET" then Ok(None)
    else
      var contentType := GetHeader(req, "Content-Type");
      if Truthy(contentType) && Includes(contentType.value, "application/json") then
        match req.body
        case Malformed => Err(MalformedJson)
        case NullBody => Ok(None)
        case Fields(values) => Ok(Some(values))
      else Ok(None)
  }

  /** `validateRequestBody(data, requiredFields)` of worker/src/controllers.js:
      the middleware's scan with an English message. */
  function ValidateRequired(data: map<string, string>, fields: seq<string>): (r: Middleware.Validation)
    ensures r.valid <==> forall f :: f in fields ==> f in data && data[f] != ""
    ensures r.errors == Middleware.Messages(Middleware.Missing(data, fields), f => f + " is required")
  {
    Middleware.CheckRequired(data, fields, f => f + " is required")
  }

  /** Both fields missing: two messages, in list order. */
  lemma BothMissingInOrder()
    ensures ValidateRequired(map[], ["email", "password"]).errors == ["email is required", "password is required"]
  {
    assert ["email", "password"][1..] == ["password"];
    assert Middleware.Missing(map[], ["email", "password"]) == ["email", "password"];
    var e := ValidateRequired(map[], ["email", "password"]).errors;
    assert |e| == 2 && e[0] == "email" + " is required" && e[1] == "password" + " is required";
    assert "email" + " is required" == "email is required";
    assert "password" + " is required" == "password is required";
    assert e == [e[0], e[1]];
  }

  /** `const { first, ... } = await parseRequestBody(request)`. */
  function ReadBody(req: Request, first: string): (r: Result<map<string, string>, Thrown>)
    ensures r.Ok? ==> req.body == Fields(r.value)
  {
    match ParseRequestBody(req)
    case Err(e) => Err(e)
    case Ok(None) => Err(DestructureNull(first))
    case Ok(Some(values)) => Ok(values)
  }

  /** A body field read as a string; a missing one only matters once the
      required-field check has passed, and then it is present. */
  function Field(data: map<string, string>, f: string): string {
    if f in data then data[f] else ""
  }

  // ---------------------------------------------------------------------
  // register and login

  /** The `hashPassword` the controller calls: as written, or with the
      buffer sized as the layout needs. */
  function Hash(h: Build, p: Platform, password: string, salt: Salt): Result<string, Thrown> {
    match h
    case AsWritten => Auth.HashPasswordAsWritten(p, password, salt)
    case Corrected => Auth.HashPassword(p, password, salt)
  }

  const InvalidEmailFormat := "Invalid email format"
  const TemporaryEmailRejected := "Temporary email addresses are not supported"
  const CommonPasswordRejected := "Password is too common, please use a more complex password"
  const EmailTaken := "Email address is already registered"

  /** The validation failure of `register` for `data`, if any, in the order
      the checks run. */
  function RegisterRejection(data: map<string, string>): (m: Option<string>)
    ensures m.None? <==> RegisterAcceptable(data)
  {
    var email := Field(data, "email");
    var password := Field(data, "password");
    var v := ValidateRequired(data, ["email", "password"]);
    if !v.valid then Some(Join(v.errors, ", "))
    else if !Middleware.IsValidEmail(email) then Some(InvalidEmailFormat)
    else if Security.IsTemporaryEmail(email) then Some(TemporaryEmailRejected)
    else if !Security.ValidatePasswordStrength(password).valid then Some(Join(Security.ValidatePasswordStrength(password).errors, ", "))
    else if Security.IsCommonPassword(password) then Some(CommonPasswordRejected)
    else None
  }

  /** Everything `register` checks before touching the store, as one
      condition. */
  predicate RegisterAcceptable(data: map<string, string>) {
    var email := Field(data, "email");
    var password := Field(data, "password");
    && email != "" && password != ""
    && Middleware.IsValidEmail(email)
    && !Security.IsTemporaryEmail(email)
    && |password| >= 8 && Security.HasLower(password) && Security.HasUpper(password) && Security.HasDigit(password)
    && !Security.IsCommonPassword(password)
  }

  /** The store after inserting the account `register` creates. */
  function WithUser(db: Db, email: string, hash: string, now: int): Db {
    db.(users := db.users + [User(db.nextUserId, email, hash, CurrentTimestamp(now))], nextUserId := db.nextUserId + 1)
  }

  function RegisteredJson(token: string, u: User): Json {
    JObj([("message", JStr("Registration successful")), ("token", JStr(token)),
          ("user", JObj([("id", JInt(u.id)), ("email", JStr(u.email)), ("created_at", JStr(u.createdAt))]))])
  }

  /** `AuthController.register` after the body has been read. */
  function RegisterData(p: Platform, h: Build, data: map<string, string>, now: int, salt: Salt,
                        secret: string, db: Db): (s: Step)
    ensures Responds(s.outcome)
    ensures RegisterRejection(data).Some? ==>
              s == Step(Threw(ValidationError(RegisterRejection(data).value)), db)
    ensures RegisterAcceptable(data) && !db.up ==> s == Step(Threw(Security.DatabaseError), db)
    ensures RegisterAcceptable(data) && db.up && UserByEmail(db.users, Field(data, "email")).Some? ==>
              s == Step(Threw(ValidationError(EmailTaken)), db)
    ensures s.db == db || (
              && RegisterAcceptable(data) && db.up && UserByEmail(db.users, Field(data, "email")).None?
              && Hash(h, p, Field(data, "password"), salt).Ok?
              && s.db == WithUser(db, Field(data, "email"), Hash(h, p, Field(data, "password"), salt).value, now))
  {
    var email := Field(data, "email");
    var password := Field(data, "password");
    match RegisterRejection(data)
    case Some(m) => Step(Threw(ValidationError(m)), db)
    case None =>
      if !db.up then Step(Threw(Security.DatabaseError), db)
      else if UserByEmail(db.users, email).Some? then Step(Threw(ValidationError(EmailTaken)), db)
      else
        match Hash(h, p, password, salt)
        case Err(e) => Step(Threw(e), db)
        case Ok(hash) =>
          var db' := WithUser(db, email, hash, now);
          var u := User(db.nextUserId, email, hash, CurrentTimestamp(now));
          match Token.GenerateToken(p, u.id, email, secret, now)
          case Err(e) => Step(Threw(e), db')
          case Ok(token) => Step(Returned(Resp(CreateJsonResponse(RegisteredJson(token, u), 201))), db')
  }

  /** With the corrected hash, a request that passes every check on a new
      e-mail whose token payload `btoa` accepts stores the account and
      answers 201 with the token and the public user. */
  lemma RegisterDataSucceeds(p: Platform, data: map<string, string>, now: int, salt: Salt, secret: string, db: Db)
    requires RegisterAcceptable(data) && db.up && UserByEmail(db.users, Field(data, "email")).None?
    requires Latin1(p.stringifyClaims(Claims(db.nextUserId, Field(data, "email"), Some(Token.Seconds(now) + Token.DefaultExpiresIn))))
    ensures var u := User(db.nextUserId, Field(data, "email"), Auth.HashPassword(p, Field(data, "password"), salt).value, CurrentTimestamp(now));
            var token := Token.GenerateToken(p, u.id, u.email, secret, now);
            && token.Ok?
            && RegisterData(p, Corrected, data, now, salt, secret, db)
                 == Step(Returned(Resp(CreateJsonResponse(RegisteredJson(token.value, u), 201))), WithUser(db, u.email, u.passwordHash, now))
  {
  }

  /** `AuthController.register` without its `withErrorHandling` wrapper. */
  function Register(p: Platform, h: Build, req: Request, secret: string, db: Db): (s: Step)
    ensures Responds(s.outcome)
    ensures ReadBody(req, "email").Err? ==> s == Step(Threw(ReadBody(req, "email").error), db)
    ensures ReadBody(req, "email").Ok? ==> s == RegisterData(p, h, ReadBody(req, "email").value, req.now, req.salt, secret, db)
  {
    match ReadBody(req, "email")
    case Err(e) => Step(Threw(e), db)
    case Ok(data) => RegisterData(p, h, data, req.now, req.salt, secret, db)
  }

  /** As written, registration never stores an account: every request that
      passes the checks on a new e-mail ends in the `RangeError` of the
      undersized hash buffer, a 500 carrying its message. */
  lemma RegisterAsWrittenNeverInserts(p: Platform, req: Request, secret: string, db: Db)
    requires DerivesThirtyTwoBytes(p)
    ensures Register(p, AsWritten, req, secret, db).db == db
    ensures var data := ReadBody(req, "email");
      data.Ok? && RegisterAcceptable(data.value) && db.up && UserByEmail(db.users, Field(data.value, "email")).None?
      ==> Register(p, AsWritten, req, secret, db).outcome == Threw(Auth.OffsetOutOfBounds)
  {
    if ReadBody(req, "email").Ok? {
      Auth.HashPasswordAsWrittenAlwaysThrows(p, Field(ReadBody(req, "email").value, "password"), req.salt);
    }
  }

  /** An e-mail outside Latin-1 passes the format check, but `btoa` rejects
      its payload: the account is stored and the request still fails. */
  lemma RegisterNonBinaryEmailCommitsThenFails(p: Platform, data: map<string, string>, now: int, salt: Salt,
                                               secret: string, db: Db)
    requires RegisterAcceptable(data) && db.up && UserByEmail(db.users, Field(data, "email")).None?
    requires !Latin1(p.stringifyClaims(Claims(db.nextUserId, Field(data, "email"), Some(Token.Seconds(now) + Token.DefaultExpiresIn))))
    ensures var s := RegisterData(p, Corrected, data, now, salt, secret, db);
      && s.db == WithUser(db, Field(data, "email"), Auth.HashPassword(p, Field(data, "password"), salt).value, now)
      && s.outcome == Threw(Token.NotBinaryError)
  {
  }

  const BadCredentials := "Invalid email or password"

  function LoggedInJson(token: string, u: User): Json {
    JObj([("message", JStr("Login successful")), ("token", JStr(token)),
          ("user", JObj([("id", JInt(u.id)), ("email", JStr(u.email))]))])
  }

  /** `AuthController.login` after the body has been read; it never writes. */
  function LoginData(p: Platform, data: map<string, string>, now: int, secret: string, db: Db): (o: Outcome)
    ensures Responds(o)
    ensures !ValidateRequired(data, ["email", "password"]).valid ==>
              o == Threw(ValidationError(Join(ValidateRequired(data, ["email", "password"]).errors, ", ")))
    ensures o.Returned? ==>
              var u := UserByEmail(db.users, Field(data, "email"));
              && db.up && u.Some? && Auth.VerifyPassword(p, Field(data, "password"), u.value.passwordHash)
              && Token.GenerateToken(p, u.value.id, u.value.email, secret, now).Ok?
              && o == Returned(Resp(CreateJsonResponse(LoggedInJson(Token.GenerateToken(p, u.value.id, u.value.email, secret, now).value, u.value))))
  {
    var email := Field(data, "email");
    var password := Field(data, "password");
    var v := ValidateRequired(data, ["email", "password"]);
    if !v.valid then Threw(ValidationError(Join(v.errors, ", ")))
    else if !db.up then Threw(Security.DatabaseError)
    else
      match UserByEmail(db.users, email)
      case None => Threw(ValidationError(BadCredentials))
      case Some(u) =>
        if !Auth.VerifyPassword(p, password, u.passwordHash) then Threw(ValidationError(BadCredentials))
        else
          match Token.GenerateToken(p, u.id, u.email, secret, now)
          case Err(e) => Threw(e)
          case Ok(token) => Returned(Resp(CreateJsonResponse(LoggedInJson(token, u))))
  }

  /** `AuthController.login` without its `withErrorHandling` wrapper. */
  function Login(p: Platform, req: Request, secret: string, db: Db): (s: Step)
    ensures Responds(s.outcome)
    ensures s.db == db
    ensures ReadBody(req, "email").Ok? ==> s.outcome == LoginData(p, ReadBody(req, "email").value, req.now, secret, db)
  {
    match ReadBody(req, "email")
    case Err(e) => Step(Threw(e), db)
    case Ok(data) => Step(LoginData(p, data, req.now, secret, db), db)
  }

  /** An unknown e-mail and a wrong password are indistinguishable to the
      client: both are the same validation error. */
  lemma LoginFailureIsGeneric(p: Platform, data: map<string, string>, now: int, secret: string, db: Db)
    requires ValidateRequired(data, ["email", "password"]).valid && db.up
    requires var u := UserByEmail(db.users, Field(data, "email"));
      u.None? || !Auth.VerifyPassword(p, Field(data, "password"), u.value.passwordHash)
    ensures LoginData(p, data, now, secret, db) == Threw(ValidationError(BadCredentials))
  {
  }

  /** What a successful `register` implies about its input and the store. */
  lemma RegisterReturnedFacts(p: Platform, data: map<string, string>, now: int, salt: Salt, secret: string, db: Db)
    requires RegisterData(p, Corrected, data, now, salt, secret, db).outcome.Returned?
    ensures RegisterAcceptable(data) && db.up && UserByEmail(db.users, Field(data, "email")).None?
    ensures Latin1(p.stringifyClaims(Claims(db.nextUserId, Field(data, "email"), Some(Token.Seconds(now) + Token.DefaultExpiresIn))))
    ensures RegisterData(p, Corrected, data, now, salt, secret, db).db
              == WithUser(db, Field(data, "email"), Auth.HashPassword(p, Field(data, "password"), salt).value, now)
  {
  }

  /** Login succeeds for a stored account whose password verifies and whose
      payload `btoa` accepts. */
  lemma LoginOfStoredAccount(p: Platform, data: map<string, string>, later: int, secret: string, db: Db, u: User)
    requires ValidateRequired(data, ["email", "password"]).valid && db.up
    requires UserByEmail(db.users, Field(data, "email")) == Some(u)
    requires Auth.VerifyPassword(p, Field(data, "password"), u.passwordHash)
    requires Latin1(p.stringifyClaims(Claims(u.id, u.email, Some(Token.Seconds(later) + Token.DefaultExpiresIn))))
    ensures LoginData(p, data, later, secret, db).Returned?
  {
  }

  /** Round trip: once `register` (with the corrected hash) has stored an
      account, logging in with the same e-mail and password succeeds, at any
      later clock reading, and finds the stored account. */
  lemma RegisterThenLogin(p: Platform, data: map<string, string>, now: int, salt: Salt, secret: string,
                          db: Db, later: int)
    requires HashLaws(p) && ClaimsTextBinaryByEmail(p)
    requires RegisterData(p, Corrected, data, now, salt, secret, db).outcome.Returned?
    ensures var s := RegisterData(p, Corrected, data, now, salt, secret, db);
      var u := User(db.nextUserId, Field(data, "email"), Auth.HashPassword(p, Field(data, "password"), salt).value, CurrentTimestamp(now));
      && s.db == WithUser(db, Field(data, "email"), u.passwordHash, now)
      && LoginData(p, data, later, secret, s.db).Returned?
      && UserByEmail(s.db.users, Field(data, "email")) == Some(u)
  {
    var email := Field(data, "email");
    var password := Field(data, "password");
    RegisterReturnedFacts(p, data, now, salt, secret, db);
    var hash := Auth.HashPassword(p, password, salt).value;
    var u := User(db.nextUserId, email, hash, CurrentTimestamp(now));
    var db' := WithUser(db, email, hash, now);
    UserByEmailAppend(db.users, u, email);
    assert db'.users == db.users + [u];
    Auth.VerifyPasswordOfHash(p, password, password, salt);
    var c1 := Claims(u.id, email, Some(Token.Seconds(now) + Token.DefaultExpiresIn));
    var c2 := Claims(u.id, email, Some(Token.Seconds(later) + Token.DefaultExpiresIn));
    assert Latin1(p.stringifyClaims(c1)) <==> Latin1(p.stringifyClaims(c2));
    LoginOfStoredAccount(p, data, later, secret, db', u);
  }

  /** Appending a user whose e-mail is new makes the lookup find it. */
  lemma {:induction false} UserByEmailAppend(users: seq<User>, u: User, email: string)
    requires UserByEmail(users, email).None? && u.email == email
    ensures UserByEmail(users + [u], email) == Some(u)
    decreases |users|
  {
    if |users| == 0 {
      assert users + [u] == [u];
    } else {
      assert (users + [u])[1..] == users[1..] + [u];
      UserByEmailAppend(users[1..], u, email);
    }
  }

  // ---------------------------------------------------------------------
  // user info

  /** The `TypeError` of destructuring `request.user` when `withAuth` did
      not run. */
  const NoUser := OtherError("Cannot destructure property 'id' of 'request.user' as it is undefined.", None)

  /** `AuthController.verify` and `AuthController.getUserInfo` (same code):
      the payload's id and e-mail; the payload has no `created_at`, and
      `JSON.stringify` drops the `undefined` it reads. */
  function UserInfo(req: Request): (o: Outcome)
    ensures Responds(o)
    ensures req.user.None? <==> o == Threw(NoUser)
    ensures req.user.Some? ==>
              o == Returned(Resp(CreateJsonResponse(JObj([("id", JInt(req.user.value.id)), ("email", JStr(req.user.value.email))]))))
  {
    match req.user
    case None => Threw(NoUser)
    case Some(c) => Returned(Resp(CreateJsonResponse(JObj([("id", JInt(c.id)), ("email", JStr(c.email))]))))
  }

  // ---------------------------------------------------------------------
  // bookmarks

  /** The error the database reports for `LIMIT`/`OFFSET` text that is not a
      number (`NaN`). The wording is the database's. */
  const NotANumberInQuery := OtherError("D1_ERROR: no such column: NaN", None)

  /** `Math.min(Math.max(pageSize, 1), 100)`. */
  function ClampPageSize(pageSize: int): (r: int)
    ensures 1 <= r <= 100
    ensures 1 <= pageSize <= 100 ==> r == pageSize
    ensures pageSize < 1 ==> r == 1
    ensures pageSize > 100 ==> r == 100
  {
    Min(Max(pageSize, 1), 100)
  }

  /** `parseInt(url.searchParams.get(name) || fallback, 10)`. */
  function QueryInt(req: Request, name: string, fallback: string): Option<int> {
    var text := if name in req.query && req.query[name] != "" then req.query[name] else fallback;
    ParseInt(text)
  }

  datatype Listing = Listing(rows: seq<Bookmark>, pagination: Performance.Pagination)

  /** The rows and metadata `BookmarkController.list` answers with. */
  function ListPage(req: Request, db: Db): (r: Result<Listing, Thrown>)
    ensures req.user.None? ==> r == Err(NoUser)
    ensures r.Ok? <==> req.user.Some? && db.up && QueryInt(req, "page", "1").Some? && QueryInt(req, "pageSize", "20").Some?
    ensures r.Ok? ==>
              var page := QueryInt(req, "page", "1");
              var size := QueryInt(req, "pageSize", "20");
              var owned := BookmarksOf(db.bookmarks, req.user.value.id);
              && db.up && page.Some? && size.Some?
              && r.value.pagination == Performance.PaginationOf(page.value, ClampPageSize(size.value), |owned|)
              && |r.value.rows| <= ClampPageSize(size.value) <= 100
              && (forall k :: 0 <= k < |r.value.rows| ==> r.value.rows[k].userId == req.user.value.id)
              && r.value.rows == Performance.Window(owned, Performance.Paginate(page.value, ClampPageSize(size.value)))
  {
    match req.user
    case None => Err(NoUser)
    case Some(c) =>
      var page := QueryInt(req, "page", "1");
      var size := QueryInt(req, "pageSize", "20");
      if page.None? || size.None? then Err(NotANumberInQuery)
      else if !db.up then Err(Security.DatabaseError)
      else
        var limited := ClampPageSize(size.value);
        var owned := BookmarksOf(db.bookmarks, c.id);
        var rows := Performance.Window(owned, Performance.Paginate(page.value, limited));
        assert forall k :: 0 <= k < |rows| ==> rows[k] in owned;
        Ok(Listing(rows, Performance.PaginationOf(page.value, limited, |owned|)))
  }

  /** An absent or empty query parameter reads as its fallback. */
  lemma QueryFallback(req: Request, name: string, n: nat)
    requires name !in req.query
    ensures QueryInt(req, name, IntToString(n)) == Some(n)
  {
    ParseIntOfIntToString(n);
  }

  /** A request without `page` and `pageSize` gets the first twenty of the
      user's bookmarks. */
  lemma ListDefaults(req: Request, db: Db)
    requires req.user.Some? && db.up
    requires "page" !in req.query && "pageSize" !in req.query
    ensures ListPage(req, db).Ok?
    ensures ListPage(req, db).value.pagination.pageSize == 20
    ensures ListPage(req, db).value.pagination.page == 1
  {
    assert IntToString(1) == "1";
    assert IntToString(20) == "20";
    QueryFallback(req, "page", 1);
    QueryFallback(req, "pageSize", 20);
  }

  /** An oversized `pageSize` is cut to 100. */
  lemma ListClampsPageSize(req: Request, db: Db)
    requires req.user.Some? && db.up
    requires req.query.Keys == {"pageSize"} && req.query["pageSize"] == "500"
    ensures ListPage(req, db).Ok?
    ensures ListPage(req, db).value.pagination.pageSize == 100
  {
    assert IntToString(1) == "1";
    assert IntToString(500) == "500";
    QueryFallback(req, "page", 1);
    ParseIntOfIntToString(500);
  }

  function RowJson(b: Bookmark): Json {
    JObj([("id", JInt(b.id)), ("title", JStr(b.title)), ("url", JStr(b.url)),
          ("created_at", JStr(b.createdAt)), ("updated_at", JStr(b.updatedAt))])
  }

  function PaginationJson(m: Performance.Pagination): Json {
    JObj([("page", JInt(m.page)), ("pageSize", JInt(m.pageSize)), ("total", JInt(m.total)),
          ("totalPages", JInt(m.totalPages)), ("hasNext", JBool(m.hasNext)), ("hasPrev", JBool(m.hasPrev))])
  }

  /** `BookmarkController.list` without its `withErrorHandling` wrapper. */
  function List(req: Request, db: Db): (o: Outcome)
    ensures Responds(o)
    ensures ListPage(req, db).Err? <==> o.Threw?
    ensures o.Returned? ==> o.reply.Resp? && o.reply.response.status == 200
  {
    match ListPage(req, db)
    case Err(e) => Threw(e)
    case Ok(l) =>
      var data := seq(|l.rows|, k requires 0 <= k < |l.rows| => RowJson(l.rows[k]));
      Returned(Resp(CreateJsonResponse(JObj([("data", JArr(data)), ("pagination", PaginationJson(l.pagination))]))))
  }

  const InvalidUrl := "URL格式不正确"

  /** The checks `add` and `update` share: required title and url, then a
      URL the parser accepts; yields the sanitised title and url. */
  function CleanBookmark(p: Platform, data: map<string, string>): (r: Result<(string, string), Thrown>)
    ensures !ValidateRequired(data, ["title", "url"]).valid ==>
              r == Err(ValidationError(Join(ValidateRequired(data, ["title", "url"]).errors, ", ")))
    ensures r.Ok? <==> ValidateRequired(data, ["title", "url"]).valid && p.sanitizeUrl(Field(data, "url")).Some?
    ensures r.Ok? ==> r.value == (Security.SanitizeText(JStr(Field(data, "title"))), p.sanitizeUrl(Field(data, "url")).value)
    ensures r.Err? && ValidateRequired(data, ["title", "url"]).valid ==> r == Err(ValidationError(InvalidUrl))
  {
    var v := ValidateRequired(data, ["title", "url"]);
    if !v.valid then Err(ValidationError(Join(v.errors, ", ")))
    else
      match p.sanitizeUrl(Field(data, "url"))
      case None => Err(ValidationError(InvalidUrl))
      case Some(url) => Ok((Security.SanitizeText(JStr(Field(data, "title"))), url))
  }

  /** `BookmarkController.add` without its `withErrorHandling` wrapper: the
      new row belongs to the caller and holds the sanitised title and url. */
  function Add(p: Platform, req: Request, db: Db): (s: Step)
    ensures Responds(s.outcome)
    ensures req.user.None? ==> s == Step(Threw(NoUser), db)
    ensures s.db == db || (
              && req.user.Some? && db.up && ReadBody(req, "title").Ok?
              && CleanBookmark(p, ReadBody(req, "title").value).Ok?
              && var (title, url) := CleanBookmark(p, ReadBody(req, "title").value).value;
                 s.db == db.(bookmarks := db.bookmarks + [Bookmark(db.nextBookmarkId, req.user.value.id, title, url, CurrentTimestamp(req.now), CurrentTimestamp(req.now))],
                             nextBookmarkId := db.nextBookmarkId + 1)
                 && s.outcome.Returned? && s.outcome.reply.Resp? && s.outcome.reply.response.status == 201)
  {
    match req.user
    case None => Step(Threw(NoUser), db)
    case Some(c) =>
      match ReadBody(req, "title")
      case Err(e) => Step(Threw(e), db)
      case Ok(data) =>
        match CleanBookmark(p, data)
        case Err(e) => Step(Threw(e), db)
        case Ok((title, url)) =>
          if !db.up then Step(Threw(Security.DatabaseError), db)
          else
            var b := Bookmark(db.nextBookmarkId, c.id, title, url, CurrentTimestamp(req.now), CurrentTimestamp(req.now));
            Step(Returned(Resp(CreateJsonResponse(
                   JObj([("id", JInt(b.id)), ("title", JStr(title)), ("url", JStr(url)), ("created_at", JStr(b.createdAt))]), 201))),
                 db.(bookmarks := db.bookmarks + [b], nextBookmarkId := db.nextBookmarkId + 1))
  }

  /** The `TypeError` of reading `request.params.id` when the router set no
      `params` (an exact route-key hit). */
  const NoParams := OtherError("Cannot read properties of undefined (reading 'id')", None)

  /** The error the database driver raises when `undefined` is bound. */
  const UndefinedBinding := OtherError("D1_TYPE_ERROR: Type 'undefined' not supported for value 'undefined'", None)

  /** `request.params.id`: `Ok(None)` is `undefined`. */
  function ParamId(req: Request): (r: Result<Option<string>, Thrown>)
    ensures req.params.None? <==> r == Err(NoParams)
  {
    match req.params
    case None => Err(NoParams)
    case Some(m) => if "id" in m then Ok(m["id"]) else Ok(None)
  }

  /** The integer row id a bound id text addresses. `WHERE id = ?` compares
      the text with an INTEGER column, so SQLite first reads it as a number:
      surrounding white space, a sign, leading zeros, a zero fraction and an
      exponent are all accepted. A text that is not a number, or a number
      that is not an integer, addresses no row. */
  function BookmarkId(text: string): (r: Option<int>)
    ensures text != "" && (forall i :: 0 <= i < |text| ==> IsDigit(text[i])) ==>
              r == Some(DigitsValue(text))
  {
    NumericValueOfPlainDigits(text);
    match NumericValue(text)
    case None => None
    case Some(d) => IntegerValue(d)
  }

  /** A text that reads as a decimal addresses the integer that decimal
      equals, if any. */
  lemma BookmarkIdOfDecimal(text: string, d: Decimal)
    requires NumericValue(text) == Some(d)
    ensures BookmarkId(text) == IntegerValue(d)
  {
  }

  /** Every integer's own spelling addresses it. */
  lemma BookmarkIdOfIntToString(n: int)
    ensures BookmarkId(IntToString(n)) == Some(n)
  {
    var m: nat := if n < 0 then -n else n;
    DigitsValueOfNatToString(m);
    NumericValueOfDigits(if n < 0 then "-" else "", NatToString(m));
    assert IntToString(n) == (if n < 0 then "-" else "") + NatToString(m);
  }

  /** Spelled with a zero fraction (`5.`, `5.0`, `5.000`), an id still
      addresses its row. */
  lemma BookmarkIdOfZeroFraction(n: nat, k: nat)
    ensures BookmarkId(NatToString(n) + "." + Zeros(k)) == Some(n)
  {
    DigitsValueOfNatToString(n);
    NumericValueZeroFraction(NatToString(n), k, NatToString(n) + "." + Zeros(k));
    IntegerValueOfScaled(n, k);
  }

  /** A number with a non-zero fraction is not an integer, so it addresses
      no row. */
  lemma BookmarkIdRejectsFraction(n: nat, text: string)
    requires text == NatToString(n) + ".5"
    ensures BookmarkId(text) == None
  {
    DigitsValueOfNatToString(n);
    NumericValueHalf(NatToString(n), text);
    HalfIsNotInteger(n);
    BookmarkIdOfDecimal(text, Decimal(n * 10 + 5, -1));
  }

  /** White space around an id text does not change the row it addresses. */
  lemma BookmarkIdIgnoresPadding(pre: string, text: string, post: string)
    requires forall i :: 0 <= i < |pre| ==> IsSqlSpace(pre[i])
    requires forall i :: 0 <= i < |post| ==> IsSqlSpace(post[i])
    requires text != "" && !IsSqlSpace(text[0]) && !IsSqlSpace(text[|text| - 1])
    ensures BookmarkId(pre + text + post) == BookmarkId(text)
  {
    NumericValuePadded(pre, text, post);
  }

  /** Leading zeros are read away. */
  lemma BookmarkIdLeadingZeros(k: nat, n: nat)
    ensures BookmarkId(Zeros(k) + NatToString(n)) == Some(n)
  {
    DigitsValueOfNatToString(n);
    DigitsValueLeadingZeros(k, NatToString(n));
  }

  /** A plus sign is read away. */
  lemma BookmarkIdPlusSign()
    ensures BookmarkId("+7") == Some(7)
  {
    NumericValueOfDigits("+", "7");
  }

  /** Surrounding white space is read away. */
  lemma BookmarkIdPaddedSpelling(pre: string, n: nat, post: string)
    requires forall i :: 0 <= i < |pre| ==> IsSqlSpace(pre[i])
    requires forall i :: 0 <= i < |post| ==> IsSqlSpace(post[i])
    ensures BookmarkId(pre + NatToString(n) + post) == Some(n)
  {
    var text := NatToString(n);
    DigitsValueOfNatToString(n);
    assert !IsSqlSpace(text[0]) && !IsSqlSpace(text[|text| - 1]);
    BookmarkIdIgnoresPadding(pre, text, post);
    NumericValueOfPlainDigits(text);
  }

  /** An exponent scales the number before it is compared with the id. */
  lemma BookmarkIdOfExponent(n: nat, k: nat)
    ensures BookmarkId(NatToString(n) + "e" + NatToString(k)) == Some(n * Pow10(k))
  {
    DigitsValueOfNatToString(n);
    DigitsValueOfNatToString(k);
    NumericValueWithExponent(NatToString(n), NatToString(k), NatToString(n) + "e" + NatToString(k));
  }

  /** Texts that are not numbers address no row. */
  lemma BookmarkIdNotNumbers()
    ensures BookmarkId("7a") == None
    ensures BookmarkId("") == None
    ensures BookmarkId(".") == None
  {
  }

  const NotOwned := "收藏夹不存在或无权限"

  /** The row `SELECT ... WHERE id = ? AND user_id = ?` finds. */
  function Owned(db: Db, idText: string, userId: int): (b: Option<Bookmark>)
    ensures b.Some? <==> BookmarkId(idText).Some? && exists k :: 0 <= k < |db.bookmarks| && Addressed(db.bookmarks[k], BookmarkId(idText).value, userId)
    ensures b.Some? ==> b.value in db.bookmarks && Addressed(b.value, BookmarkId(idText).value, userId)
  {
    match BookmarkId(idText)
    case None => None
    case Some(id) => FindBookmark(db.bookmarks, id, userId)
  }

  /** The lookup `get`, `update` and `delete` start with, after the user and
      the id have been read: the id must be bound, the store must answer, and
      the row must exist and belong to the caller. */
  function Lookup(idParam: Option<string>, userId: int, db: Db): (r: Result<Bookmark, Thrown>)
    ensures idParam.None? ==> r == Err(UndefinedBinding)
    ensures idParam.Some? && !db.up ==> r == Err(Security.DatabaseError)
    ensures idParam.Some? && db.up ==>
              (r.Ok? <==> Owned(db, idParam.value, userId).Some?)
              && (r.Err? ==> r.error == NotFoundError(NotOwned))
    ensures r.Ok? ==> r.value in db.bookmarks && r.value.userId == userId
  {
    match idParam
    case None => Err(UndefinedBinding)
    case Some(text) =>
      if !db.up then Err(Security.DatabaseError)
      else
        match Owned(db, text, userId)
        case None => Err(NotFoundError(NotOwned))
        case Some(b) => Ok(b)
  }

  /** Another user's bookmark and a missing one are indistinguishable: both
      are the same 404. */
  lemma ForeignBookmarkLooksMissing(db: Db, b: Bookmark, userId: int)
    requires db.up && b in db.bookmarks && b.userId != userId
    requires forall k :: 0 <= k < |db.bookmarks| && db.bookmarks[k].id == b.id ==> db.bookmarks[k].userId != userId
    ensures Lookup(Some(IntToString(b.id)), userId, db) == Err(NotFoundError(NotOwned))
  {
    BookmarkIdOfIntToString(b.id);
  }

  /** `BookmarkController.get` without its `withErrorHandling` wrapper. */
  function GetBookmark(req: Request, db: Db): (o: Outcome)
    ensures Responds(o)
    ensures req.user.None? ==> o == Threw(NoUser)
    ensures req.user.Some? && req.params.None? ==> o == Threw(NoParams)
    ensures o.Returned? ==>
              && req.user.Some? && ParamId(req).Ok?
              && Lookup(ParamId(req).value, req.user.value.id, db).Ok?
              && o == Returned(Resp(CreateJsonResponse(RowJson(Lookup(ParamId(req).value, req.user.value.id, db).value))))
    ensures req.user.Some? && ParamId(req).Ok? ==>
              var r := Lookup(ParamId(req).value, req.user.value.id, db);
              && (r.Err? ==> o == Threw(r.error))
              && (r.Ok? ==> o.Returned?)
  {
    match req.user
    case None => Threw(NoUser)
    case Some(c) =>
      match ParamId(req)
      case Err(e) => Threw(e)
      case Ok(id) =>
        match Lookup(id, c.id, db)
        case Err(e) => Threw(e)
        case Ok(b) => Returned(Resp(CreateJsonResponse(RowJson(b))))
  }

  /** `BookmarkController.update` without its `withErrorHandling` wrapper:
      body, then id, then validation and sanitising, then the ownership
      check, and only then the write. */
  function Update(p: Platform, req: Request, db: Db): (s: Step)
    ensures Responds(s.outcome)
    ensures req.user.None? ==> s == Step(Threw(NoUser), db)
    ensures s.db == db || (
              && req.user.Some? && ReadBody(req, "title").Ok? && ParamId(req).Ok?
              && CleanBookmark(p, ReadBody(req, "title").value).Ok?
              && Lookup(ParamId(req).value, req.user.value.id, db).Ok?
              && var (title, url) := CleanBookmark(p, ReadBody(req, "title").value).value;
                 var b := Lookup(ParamId(req).value, req.user.value.id, db).value;
                 s.db == db.(bookmarks := UpdateBookmarks(db.bookmarks, b.id, req.user.value.id, title, url, req.now)))
    ensures req.user.Some? && ReadBody(req, "title").Err? ==> s == Step(Threw(ReadBody(req, "title").error), db)
    ensures req.user.Some? && ReadBody(req, "title").Ok? && req.params.None? ==> s == Step(Threw(NoParams), db)
    ensures req.user.Some? && ReadBody(req, "title").Ok? && ParamId(req).Ok? ==>
              var cleaned := CleanBookmark(p, ReadBody(req, "title").value);
              var r := Lookup(ParamId(req).value, req.user.value.id, db);
              && (cleaned.Err? ==> s == Step(Threw(cleaned.error), db))
              && (cleaned.Ok? && r.Err? ==> s == Step(Threw(r.error), db))
              && (cleaned.Ok? && r.Ok? ==> s.outcome.Returned?)
  {
    match req.user
    case None => Step(Threw(NoUser), db)
    case Some(c) =>
      match ReadBody(req, "title")
      case Err(e) => Step(Threw(e), db)
      case Ok(data) =>
        match ParamId(req)
        case Err(e) => Step(Threw(e), db)
        case Ok(id) =>
          match CleanBookmark(p, data)
          case Err(e) => Step(Threw(e), db)
          case Ok((title, url)) =>
            match Lookup(id, c.id, db)
            case Err(e) => Step(Threw(e), db)
            case Ok(b) =>
              Step(Returned(Resp(CreateJsonResponse(
                     JObj([("id", JInt(b.id)), ("title", JStr(title)), ("url", JStr(url)), ("updated_at", JStr(CurrentTimestamp(req.now)))])))),
                   db.(bookmarks := UpdateBookmarks(db.bookmarks, b.id, c.id, title, url, req.now)))
  }

  /** An update touches only the caller's addressed row, and only its title,
      url and update time. */
  lemma UpdateTouchesOnlyOwnedRow(p: Platform, req: Request, db: Db)
    ensures var s := Update(p, req, db);
      |s.db.bookmarks| == |db.bookmarks|
      && forall k :: 0 <= k < |db.bookmarks| && s.db.bookmarks[k] != db.bookmarks[k] ==>
           && req.user.Some? && db.bookmarks[k].userId == req.user.value.id
           && s.db.bookmarks[k] == db.bookmarks[k].(title := s.db.bookmarks[k].title, url := s.db.bookmarks[k].url, updatedAt := CurrentTimestamp(req.now))
  {
  }

  /** `BookmarkController.delete` without its `withErrorHandling` wrapper. */
  function DeleteBookmark(req: Request, db: Db): (s: Step)
    ensures Responds(s.outcome)
    ensures req.user.None? ==> s == Step(Threw(NoUser), db)
    ensures s.db == db || (
              && req.user.Some? && ParamId(req).Ok?
              && Lookup(ParamId(req).value, req.user.value.id, db).Ok?
              && s.db == db.(bookmarks := DeleteBookmarks(db.bookmarks, Lookup(ParamId(req).value, req.user.value.id, db).value.id, req.user.value.id))
              && s.outcome == Returned(Resp(CreateJsonResponse(JObj([("message", JStr("Bookmark deleted successfully"))])))))
    ensures req.user.Some? && req.params.None? ==> s == Step(Threw(NoParams), db)
    ensures req.user.Some? && ParamId(req).Ok? ==>
              var r := Lookup(ParamId(req).value, req.user.value.id, db);
              && (r.Err? ==> s == Step(Threw(r.error), db))
              && (r.Ok? ==> s.outcome.Returned? && s.db.bookmarks == DeleteBookmarks(db.bookmarks, r.value.id, req.user.value.id))
  {
    match req.user
    case None => Step(Threw(NoUser), db)
    case Some(c) =>
      match ParamId(req)
      case Err(e) => Step(Threw(e), db)
      case Ok(id) =>
        match Lookup(id, c.id, db)
        case Err(e) => Step(Threw(e), db)
        case Ok(b) =>
          Step(Returned(Resp(CreateJsonResponse(JObj([("message", JStr("Bookmark deleted successfully"))])))),
               db.(bookmarks := DeleteBookmarks(db.bookmarks, b.id, c.id)))
  }

  /** A delete removes exactly the caller's addressed row: every other
      bookmark, including other users' rows with the same id, stays. */
  lemma DeleteRemovesOnlyOwnedRow(req: Request, db: Db, x: Bookmark)
    requires x in db.bookmarks
    ensures var s := DeleteBookmark(req, db);
      x !in s.db.bookmarks ==> req.user.Some? && x.userId == req.user.value.id && s.outcome.Returned?
  {
  }
}
