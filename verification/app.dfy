/** worker/src/index.js: the worker's router (four global middlewares and
    ten routes), the interpretation of its middlewares and handlers, the
    CORS headers, and the `fetch` entry point. The per-isolate state the
    source keeps in module globals (the database and the performance
    monitor) is threaded through as a `World`. */
module App {
  import opened Base
  import opened Platform
  import opened Http
  import opened Errors
  import opened Store
  import Security
  import Middleware
  import Performance
  import Controllers
  import opened Router

  /** The bindings the worker reads from `env`. */
  datatype Env = Env(jwtSecret: string, corsOrigin: Option<string>)

  datatype World = World(db: Db, metrics: Performance.Metrics)

  /** The middlewares `index.js` registers with `router.use`. */
  datatype Stage = ResponseTimeMonitor | SecurityHeaders | RateLimiter(limit: int, windowMs: int) | ConnectionPool

  /** The handlers behind `withAuth`. */
  datatype Protected = UserInfoH | ListH | AddH | GetH | UpdateH | DeleteH | MetricsH

  /** The handlers the routes are registered with. */
  datatype Handler = RegisterH | LoginH | VerifyH | Authed(inner: Protected)

  const Globals: seq<Stage> := [ResponseTimeMonitor, SecurityHeaders, RateLimiter(100, 60000), ConnectionPool]

  /** The `router.post/get/put/delete` calls, in source order. */
  const Table: seq<Registration<Handler>> := [
    Registration("POST", "/api/auth/register", RegisterH),
    Registration("POST", "/api/auth/login", LoginH),
    Registration("POST", "/api/user/verify", VerifyH),
    Registration("GET", "/api/user/info", Authed(UserInfoH)),
    Registration("GET", "/api/bookmarks", Authed(ListH)),
    Registration("POST", "/api/bookmarks", Authed(AddH)),
    Registration("GET", "/api/bookmarks/:id", Authed(GetH)),
    Registration("PUT", "/api/bookmarks/:id", Authed(UpdateH)),
    Registration("DELETE", "/api/bookmarks/:id", Authed(DeleteH)),
    Registration("GET", "/api/metrics", Authed(MetricsH))
  ]

  /** The methods the table registers with; each is its own upper case. */
  predicate StandardVerb(v: string) {
    v == "GET" || v == "POST" || v == "PUT" || v == "DELETE"
  }

  lemma StandardVerbIsUpper(verb: string)
    requires StandardVerb(verb)
    ensures Upper(verb) == verb && ':' !in verb
  {
    KeyOfUpper(verb, "");
  }

  lemma TableFacts()
    ensures forall i :: 0 <= i < |Table| ==> StandardVerb(Table[i].verb)
    ensures forall i, j :: 0 <= i < j < |Table| ==> (Table[i].verb, Table[i].path) != (Table[j].verb, Table[j].path)
  {
  }

  /** Two registrations share a key only if they share method and path, so
      the ten keys are pairwise distinct. */
  lemma TableKeysDistinct()
    ensures forall i, j :: 0 <= i < j < |Table| ==> Key(Table[i].verb, Table[i].path) != Key(Table[j].verb, Table[j].path)
  {
    TableFacts();
    forall i, j | 0 <= i < j < |Table|
      ensures Key(Table[i].verb, Table[i].path) != Key(Table[j].verb, Table[j].path)
    {
      StandardVerbIsUpper(Table[i].verb);
      StandardVerbIsUpper(Table[j].verb);
      RoutePathOfKey(Table[i].verb, Table[i].path);
      RoutePathOfKey(Table[j].verb, Table[j].path);
    }
  }

  /** The router `index.js` builds at load time: the four global
      middlewares in `use` order, and one entry per registration, in source
      order, keyed by method and path, without route middlewares. */
  function WorkerRouter(): (r: Router<Handler, Stage>)
    ensures IsWorkerRouter(r)
  {
    var base := Use(Use(Use(Use(NewRouter(), ResponseTimeMonitor), SecurityHeaders), RateLimiter(100, 60000)), ConnectionPool);
    assert WellFormed(base) && base.routes == [];
    assert base.middlewares == Globals;
    TableKeysDistinct();
    assert Keys(base) == [];
    AddAllFresh(base, Table);
    var r := AddAll(base, Table);
    assert r.routes == Entries(Table);
    r
  }

  /** What the worker's router is: the shape `WorkerRouter` builds. The
      properties below are stated for any router of this shape, so that
      they do not depend on unfolding the construction. */
  predicate IsWorkerRouter(r: Router<Handler, Stage>) {
    WellFormed(r) && r.middlewares == Globals && r.routes == Entries(Table)
  }

  // ---------------------------------------------------------------------
  // CORS

  /** `setCORSHeaders(request, env)`. */
  function CorsHeaders(req: Request, env: Env): (h: map<string, string>)
    ensures h.Keys == {"Access-Control-Allow-Methods", "Access-Control-Allow-Headers", "Access-Control-Max-Age", "Access-Control-Allow-Origin"}
    ensures h["Access-Control-Allow-Origin"] ==
              if Truthy(GetHeader(req, "Origin")) then GetHeader(req, "Origin").value
              else if Truthy(env.corsOrigin) then env.corsOrigin.value
              else "*"
  {
    var origin := GetHeader(req, "Origin");
    map[
      "Access-Control-Allow-Methods" := "GET, POST, PUT, DELETE, OPTIONS",
      "Access-Control-Allow-Headers" := "Content-Type, Authorization, X-CSRF-Token",
      "Access-Control-Max-Age" := "86400",
      "Access-Control-Allow-Origin" :=
        if Truthy(origin) then origin.value
        else if Truthy(env.corsOrigin) then env.corsOrigin.value
        else "*"
    ]
  }

  /** The `TypeError` of reading `headers` of a `null` result. */
  const NullHeaders := OtherError("Cannot read properties of null (reading 'headers')", None)

  /** `addCORSHeaders(response, request, env)`. As written, spreading a
      `Headers` object copies none of its entries, so only the CORS headers
      survive; corrected, the response keeps its own headers and the CORS
      headers are laid over them. A closure has no status and no body, so
      the new response is a 200 with an empty body. */
  function AddCorsHeaders(build: Build, reply: Reply, req: Request, env: Env): (r: Result<Response, Thrown>)
    ensures reply.NullReply? <==> r == Err(NullHeaders)
    ensures r.Ok? ==> forall h :: h in CorsHeaders(req, env) ==> h in r.value.headers && r.value.headers[h] == CorsHeaders(req, env)[h]
    ensures reply.Resp? && build == AsWritten ==>
              r == Ok(Response(reply.response.status, reply.response.body, CorsHeaders(req, env)))
    ensures reply.Resp? && build == Corrected ==>
              && r.Ok? && r.value.status == reply.response.status && r.value.body == reply.response.body
              && forall h :: h in reply.response.headers && h !in CorsHeaders(req, env) ==>
                   h in r.value.headers && r.value.headers[h] == reply.response.headers[h]
  {
    var cors := CorsHeaders(req, env);
    match reply
    case NullReply => Err(NullHeaders)
    case FunctionReply => Ok(Response(200, NoContent, cors))
    case Resp(response) =>
      match build
      case AsWritten => Ok(Response(response.status, response.body, cors))
      case Corrected => Ok(Response(response.status, response.body, response.headers + cors))
  }

  /** As written, every header a routed response was built with is lost on
      the way out: its `Content-Type`, `Retry-After`, `X-Response-Time` and
      security headers alike. */
  lemma CorsMergeDropsHeadersAsWritten(response: Response, req: Request, env: Env, h: string)
    requires h in response.headers && h !in CorsHeaders(req, env)
    ensures h !in AddCorsHeaders(AsWritten, Resp(response), req, env).value.headers
    ensures h in AddCorsHeaders(Corrected, Resp(response), req, env).value.headers
  {
  }

  // ---------------------------------------------------------------------
  // middlewares and handlers

  /** The headers `addSecurityHeaders` puts in front of the response's own. */
  const SecurityHeaderValues: map<string, string> := map[
    "X-Content-Type-Options" := "nosniff",
    "X-Frame-Options" := "DENY",
    "X-XSS-Protection" := "1; mode=block",
    "Referrer-Policy" := "strict-origin-when-cross-origin",
    "Content-Security-Policy" := "default-src 'self'"
  ]

  /** The headers `addSecurityHeaders` gives the new response. As written,
      the response's own headers are spread into an object literal after
      the security headers; spreading a `Headers` object copies none of its
      entries, so only the security headers survive. Corrected, the
      response's own headers are laid over the security headers. */
  function SecurityMerge(build: Build, r: Response): (headers: map<string, string>)
    ensures forall h :: h in SecurityHeaderValues && h !in r.headers ==>
              h in headers && headers[h] == SecurityHeaderValues[h]
    ensures build == AsWritten ==> headers == SecurityHeaderValues
    ensures build == Corrected ==>
              && headers.Keys == SecurityHeaderValues.Keys + r.headers.Keys
              && forall h :: h in r.headers ==> h in headers && headers[h] == r.headers[h]
  {
    match build
    case AsWritten => SecurityHeaderValues
    case Corrected => SecurityHeaderValues + r.headers
  }

  /** As written, a header the handler set and the security stage does not
      add (its `Content-Type`, say) is lost; corrected, it keeps its value. */
  lemma SecurityMergeDropsHeadersAsWritten(r: Response, h: string)
    requires h in r.headers && h !in SecurityHeaderValues
    ensures h !in SecurityMerge(AsWritten, r)
    ensures h in SecurityMerge(Corrected, r) && SecurityMerge(Corrected, r)[h] == r.headers[h]
  {
  }

  datatype Answer = Answer(outcome: Outcome, world: World)

  /** The body of the `/api/metrics` handler: `getMetrics()`; the averages
      and ratios it adds are not part of this model. */
  function MetricsJson(m: Performance.Metrics): Json {
    JObj([("requests", JInt(m.requests)),
          ("responseTimes", JArr(seq(|m.responseTimes|, k requires 0 <= k < |m.responseTimes| => JInt(m.responseTimes[k])))),
          ("errors", JInt(m.errors)), ("cacheHits", JInt(m.cacheHits)), ("cacheMisses", JInt(m.cacheMisses))])
  }

  /** A handler behind `withAuth`, after authentication, including the
      `withErrorHandling` each controller is defined with. */
  function RunProtected(p: Platform, build: Build, h: Protected, req: Request, w: World): (a: Answer)
    ensures a.outcome.Returned? && a.outcome.reply.Resp?
    ensures a.world.metrics == w.metrics
  {
    match h
    case UserInfoH => Answer(WithErrorHandling(Controllers.UserInfo(req)), w)
    case ListH => Answer(WithErrorHandling(Controllers.List(req, w.db)), w)
    case AddH =>
      var s := Controllers.Add(p, req, w.db);
      Answer(WithErrorHandling(s.outcome), w.(db := s.db))
    case GetH => Answer(WithErrorHandling(Controllers.GetBookmark(req, w.db)), w)
    case UpdateH =>
      var s := Controllers.Update(p, req, w.db);
      Answer(WithErrorHandling(s.outcome), w.(db := s.db))
    case DeleteH =>
      var s := Controllers.DeleteBookmark(req, w.db);
      Answer(WithErrorHandling(s.outcome), w.(db := s.db))
    case MetricsH =>
      Answer(Returned(Resp(Response(200, JsonBody(MetricsJson(w.metrics)), map["Content-Type" := "application/json"]))), w)
  }

  /** `withAuth(handler)` around a protected handler: an authentication
      failure is answered by `withAuth`'s own `withErrorHandling`. */
  function RunAuthed(p: Platform, build: Build, env: Env, inner: Protected, req: Request, w: World): (a: Answer)
    ensures a.outcome.Returned? && a.outcome.reply.Resp?
    ensures a.world.metrics == w.metrics
    ensures Middleware.Authenticate(p, req, env.jwtSecret).Err? ==>
              a == Answer(Returned(Resp(ResponseForThrown(Middleware.Authenticate(p, req, env.jwtSecret).error))), w)
  {
    match Middleware.Authenticate(p, req, env.jwtSecret)
    case Err(e) => Answer(WithErrorHandling(Threw(e)), w)
    case Ok(req') =>
      var a := RunProtected(p, build, inner, req', w);
      Answer(WithErrorHandling(a.outcome), a.world)
  }

  /** A route's handler as registered (controllers carry their own
      `withErrorHandling`, and so does `withAuth`). */
  function RunEndpoint(p: Platform, build: Build, env: Env, h: Handler, req: Request, w: World): (a: Answer)
    ensures a.outcome.Returned? && a.outcome.reply.Resp?
    ensures a.world.metrics == w.metrics
    ensures h.Authed? ==> a == RunAuthed(p, build, env, h.inner, req, w)
  {
    match h
    case RegisterH =>
      var s := Controllers.Register(p, build, req, env.jwtSecret, w.db);
      Answer(WithErrorHandling(s.outcome), w.(db := s.db))
    case LoginH =>
      var s := Controllers.Login(p, req, env.jwtSecret, w.db);
      Answer(WithErrorHandling(s.outcome), w.(db := s.db))
    case VerifyH => Answer(WithErrorHandling(Controllers.UserInfo(req)), w)
    case Authed(inner) => RunAuthed(p, build, env, inner, req, w)
  }

  /** The placeholder `responseTimeMonitor` builds for a result without
      headers: its body falls back to the server-error text and its status
      to 200. */
  function Placeholder(elapsed: int): Response {
    Response(200, Text(InternalServerErrorMessage),
             map["Content-Type" := "application/json", "X-Response-Time" := IntToString(elapsed)])
  }

  /** What `responseTimeMonitor` makes of what `next` produced: the elapsed
      time is recorded in every case, an error as well when `next` threw or
      produced nothing, and a result without headers is replaced by the
      placeholder. */
  function Timed(a: Answer, elapsed: int): (t: Answer)
    ensures t.world.db == a.world.db
    ensures t.world.metrics.requests == a.world.metrics.requests
  {
    var timed := a.world.(metrics := Performance.RecordResponseTime(a.world.metrics, elapsed));
    var failed := timed.(metrics := Performance.RecordError(timed.metrics));
    match a.outcome
    case Threw(e) => Answer(Threw(e), failed)
    case Returned(NullReply) => Answer(Returned(Resp(Response(500, Text(InternalServerErrorMessage), map[]))), failed)
    case Returned(FunctionReply) => Answer(Returned(Resp(Placeholder(elapsed))), timed)
    case Returned(Resp(r)) =>
      Answer(Returned(Resp(r.(headers := r.headers["X-Response-Time" := IntToString(elapsed)]))), timed)
  }

  /** The corrected `addSecurityHeaders` applied to what `next` produced
      (both the call at `index.js:63` and the merge are corrected). */
  function Secured(a: Answer): (s: Answer)
    ensures s.world == a.world
  {
    match a.outcome
    case Returned(Resp(r)) => Answer(Returned(Resp(r.(headers := SecurityMerge(Corrected, r)))), a.world)
    case _ => a
  }

  /** How a route's handler answers a request in a given world. */
  type Serve = (Handler, Request, World) -> Answer

  /** The handlers of this worker. */
  function Handlers(p: Platform, build: Build, env: Env): Serve {
    (h, req, w) => RunEndpoint(p, build, env, h, req, w)
  }

  /** The whole chain `applyMiddlewaresAndHandler` calls, ending in the
      handler `serve` runs; the router wraps that handler once more in
      `withErrorHandling`. */
  function Run(build: Build, c: Chain<Handler, Stage>, req: Request, w: World, serve: Serve): (a: Answer)
    decreases c
  {
    match c
    case Endpoint(h) =>
      var a := serve(h, req, w);
      Answer(WithErrorHandling(a.outcome), a.world)
    case Layer(ResponseTimeMonitor, next) =>
      Timed(Run(build, next, req, w.(metrics := Performance.RecordRequest(w.metrics)), serve), req.elapsed)
    case Layer(SecurityHeaders, next) =>
      if build == AsWritten then Answer(Returned(FunctionReply), w)
      else Secured(Run(build, next, req, w, serve))
    case Layer(RateLimiter(limit, windowMs), next) =>
      var gate := Security.RateLimitGate(w.db, req, limit, windowMs);
      if gate.Err? then Answer(Threw(gate.error), w)
      else if gate.value.0.Stop? then Answer(Returned(Resp(gate.value.0.response)), w.(db := gate.value.1))
      else Run(build, next, req, w.(db := gate.value.1), serve)
    case Layer(ConnectionPool, next) =>
      var gate := Performance.ConnectionPoolGate(w.db);
      if gate.Stop? then Answer(Returned(Resp(gate.response)), w)
      else Run(build, next, req, w, serve)
  }

  // ---------------------------------------------------------------------
  // fetch

  /** What the runtime sees: a response, or an exception `fetch` lets
      escape. */
  datatype Delivery = Delivered(response: Response, world: World) | Uncaught(error: Thrown, world: World)

  /** `handleOptionsRequest(request, env)`. */
  function Preflight(req: Request, env: Env): Response {
    Response(204, NoContent, CorsHeaders(req, env))
  }

  /** The request the chain sees: with `params` set after a pattern
      match, untouched after an exact match. */
  function WithParams(req: Request, params: Option<map<string, Option<string>>>): (r: Request)
    ensures r.verb == req.verb && r.headers == req.headers && r.now == req.now && r.elapsed == req.elapsed
  {
    if params.Some? then req.(params := params) else req
  }

  /** The router's answer for a request, before CORS headers. */
  function Routed(p: Platform, build: Build, env: Env, router: Router<Handler, Stage>, req: Request, w: World): Answer
    requires WellFormed(router)
  {
    match Handle(router, req.verb, req.path, build)
    case NoRoute(response) => Answer(Returned(Resp(response)), w)
    case Found(params, chain) => Run(build, chain, WithParams(req, params), w, Handlers(p, build, env))
  }

  /** The `try` block's ending and its `catch`: the router's answer gets the
      CORS headers, and anything thrown becomes a 500 that carries them. */
  function Respond(build: Build, env: Env, req: Request, a: Answer): (d: Delivery)
    ensures d.Delivered? && d.world == a.world
    ensures forall h :: h in CorsHeaders(req, env) ==> h in d.response.headers && d.response.headers[h] == CorsHeaders(req, env)[h]
    ensures a.outcome.Threw? ==> d.response == CreateErrorResponse(InternalServerErrorMessage, 500, CorsHeaders(req, env))
    ensures a.outcome.Returned? && a.outcome.reply.Resp? ==> d.response == AddCorsHeaders(build, a.outcome.reply, req, env).value
  {
    var failure := CreateErrorResponse(InternalServerErrorMessage, 500, CorsHeaders(req, env));
    match a.outcome
    case Threw(_) => Delivered(failure, a.world)
    case Returned(reply) =>
      var r := AddCorsHeaders(build, reply, req, env);
      if r.Err? then Delivered(failure, a.world) else Delivered(r.value, a.world)
  }

  /** `fetch(request, env, ctx)`. Creating the rate-limit table comes first
      and outside the `try`: with the database down it throws, and the
      exception escapes `fetch`, preflight requests included. */
  function Fetch(p: Platform, build: Build, env: Env, router: Router<Handler, Stage>, req: Request, w: World): (d: Delivery)
    requires WellFormed(router)
    ensures !w.db.up <==> d == Uncaught(Security.DatabaseError, w)
    ensures w.db.up && req.verb == "OPTIONS" ==> d == Delivered(Preflight(req, env), w)
    ensures d.Delivered? ==>
              forall h :: h in CorsHeaders(req, env) ==> h in d.response.headers && d.response.headers[h] == CorsHeaders(req, env)[h]
    ensures w.db.up && req.verb != "OPTIONS" ==> d == Respond(build, env, req, Routed(p, build, env, router, req, w))
  {
    if !w.db.up then Uncaught(Security.DatabaseError, w)
    else if req.verb == "OPTIONS" then Delivered(Preflight(req, env), w)
    else Respond(build, env, req, Routed(p, build, env, router, req, w))
  }

  /** Every routed request's chain: the global middlewares around the
      handler the route names. */
  lemma RoutedRuns(router: Router<Handler, Stage>, p: Platform, build: Build, env: Env, req: Request, w: World)
    requires Wired(router)
    requires Handle(router, req.verb, req.path, build).Found?
    ensures var d := Handle(router, req.verb, req.path, build);
      Routed(p, build, env, router, req, w)
        == Run(build, Nest(Globals, Core(d.chain)), WithParams(req, d.params), w, Handlers(p, build, env))
  {
    RoutedChain(router, build, req.verb, req.path);
  }

  // ---------------------------------------------------------------------
  // properties of the wiring

  /** A router wired the way `index.js` wires it: the four global
      middlewares and no route middlewares. */
  predicate Wired(r: Router<Handler, Stage>) {
    && WellFormed(r) && r.middlewares == Globals
    && forall k :: 0 <= k < |r.routes| ==> r.routes[k].route.middlewares == []
  }

  /** The worker's router is wired: its entries carry no route
      middlewares. */
  lemma WorkerRouterIsWired(r: Router<Handler, Stage>)
    requires IsWorkerRouter(r)
    ensures Wired(r)
  {
  }

  /** The chain of every route: the four global middlewares, in `use`
      order, around the route's handler. */
  lemma RoutedChain(router: Router<Handler, Stage>, build: Build, verb: string, path: string)
    requires Wired(router)
    requires Handle(router, verb, path, build).Found?
    ensures var c := Handle(router, verb, path, build).chain;
      c == Nest(Globals, Core(c))
  {
    var d := Handle(router, verb, path, build);
    var route: Route<Handler, Stage>;
    if Lookup(router, Key(verb, path)).Some? {
      route := Lookup(router, Key(verb, path)).value;
    } else {
      route := MatchRoute(router.routes, path, Upper(verb), build).value.1;
    }
    assert route.middlewares == [];
    assert Globals + [] == Globals;
    assert d.chain == Nest(Globals, route.handler);
  }

  /** The response `responseTimeMonitor` and the corrected
      `addSecurityHeaders` make of a handler's response. */
  function Dressed(r: Response, elapsed: int): Response {
    r.(headers := SecurityMerge(Corrected, r)["X-Response-Time" := IntToString(elapsed)])
  }

  /** As written, the chain stops at `addSecurityHeaders`, which hands the
      monitor a closure: the monitor's placeholder comes back, the request
      and its time are counted, and nothing after the second middleware
      runs. */
  lemma AsWrittenChainStops(h: Handler, req: Request, w: World, serve: Serve)
    ensures Run(AsWritten, Nest(Globals, h), req, w, serve)
              == Answer(Returned(Resp(Placeholder(req.elapsed))),
                        w.(metrics := Performance.RecordResponseTime(Performance.RecordRequest(w.metrics), req.elapsed)))
  {
    var inner := Nest(Globals[1..], h);
    assert Nest(Globals, h) == Layer(ResponseTimeMonitor, inner);
    assert inner == Layer(SecurityHeaders, Nest(Globals[2..], h));
  }

  /** As written, every routed request (database up, not a preflight) is
      answered 200 with the server-error text and only the CORS headers,
      whatever route it hits: no handler, rate limiter or query runs, so the
      store is untouched, and the monitor counts the request and its time. */
  lemma AsWrittenRoutesAnswerPlaceholder(router: Router<Handler, Stage>, p: Platform, env: Env, req: Request, w: World)
    requires Wired(router)
    requires w.db.up && req.verb != "OPTIONS"
    requires Handle(router, req.verb, req.path, AsWritten).Found?
    ensures Fetch(p, AsWritten, env, router, req, w)
              == Delivered(Response(200, Text(InternalServerErrorMessage), CorsHeaders(req, env)),
                           w.(metrics := Performance.RecordResponseTime(Performance.RecordRequest(w.metrics), req.elapsed)))
  {
    var d := Handle(router, req.verb, req.path, AsWritten);
    RoutedRuns(router, p, AsWritten, env, req, w);
    AsWrittenChainStops(Core(d.chain), WithParams(req, d.params), w, Handlers(p, AsWritten, env));
  }

  /** Corrected, a request the rate limiter admits (with the database up)
      reaches its handler; the monitor adds the response time and the
      security headers sit under the handler's own. */
  lemma CorrectedChainReachesHandler(h: Handler, req: Request, w: World, serve: Serve)
    requires w.db.up
    requires Security.RateLimit(w.db.rateLimits, Security.RateLimitKey(req), req.now).allowed
    requires var admitted := Security.RateLimit(w.db.rateLimits, Security.RateLimitKey(req), req.now);
      serve(h, req, World(w.db.(rateLimits := admitted.records), Performance.RecordRequest(w.metrics))).outcome.Returned?
      && serve(h, req, World(w.db.(rateLimits := admitted.records), Performance.RecordRequest(w.metrics))).outcome.reply.Resp?
    ensures var admitted := Security.RateLimit(w.db.rateLimits, Security.RateLimitKey(req), req.now);
      var a := serve(h, req, World(w.db.(rateLimits := admitted.records), Performance.RecordRequest(w.metrics)));
      Run(Corrected, Nest(Globals, h), req, w, serve)
        == Answer(Returned(Resp(Dressed(a.outcome.reply.response, req.elapsed))),
                  a.world.(metrics := Performance.RecordResponseTime(a.world.metrics, req.elapsed)))
  {
    var admitted := Security.RateLimit(w.db.rateLimits, Security.RateLimitKey(req), req.now);
    var w0 := w.(metrics := Performance.RecordRequest(w.metrics));
    var w1 := World(w.db.(rateLimits := admitted.records), Performance.RecordRequest(w.metrics));
    var a := serve(h, req, w1);
    var pool := Layer(ConnectionPool, Endpoint(h));
    var limited := Layer(RateLimiter(100, 60000), pool);
    assert Nest(Globals, h) == Layer(ResponseTimeMonitor, Layer(SecurityHeaders, limited));
    assert Run(Corrected, pool, req, w1, serve) == a;
    assert Security.RateLimitGate(w0.db, req, 100, 60000) == Ok((Security.Pass, w1.db));
    assert Run(Corrected, limited, req, w0, serve) == a;
    assert Run(Corrected, Layer(SecurityHeaders, limited), req, w0, serve) == Secured(a);
    assert Run(Corrected, Nest(Globals, h), req, w, serve) == Timed(Secured(a), req.elapsed);
  }

  /** Corrected, a routed request the rate limiter admits gets its
      handler's status and body, with the handler's headers over the
      security headers, the response time, and the CORS headers over all. */
  lemma CorrectedRoutesReachHandler(router: Router<Handler, Stage>, p: Platform, env: Env, req: Request, w: World)
    requires Wired(router)
    requires w.db.up && req.verb != "OPTIONS"
    requires Handle(router, req.verb, req.path, Corrected).Found?
    requires Security.RateLimit(w.db.rateLimits, Security.RateLimitKey(req), req.now).allowed
    ensures var d := Handle(router, req.verb, req.path, Corrected);
      var admitted := Security.RateLimit(w.db.rateLimits, Security.RateLimitKey(req), req.now);
      var a := RunEndpoint(p, Corrected, env, Core(d.chain), WithParams(req, d.params),
                           World(w.db.(rateLimits := admitted.records), Performance.RecordRequest(w.metrics)));
      var handled := a.outcome.reply.response;
      Fetch(p, Corrected, env, router, req, w)
        == Delivered(Response(handled.status, handled.body, Dressed(handled, req.elapsed).headers + CorsHeaders(req, env)),
                     a.world.(metrics := Performance.RecordResponseTime(a.world.metrics, req.elapsed)))
  {
    var d := Handle(router, req.verb, req.path, Corrected);
    var req' := WithParams(req, d.params);
    assert Security.RateLimitKey(req') == Security.RateLimitKey(req);
    var admitted := Security.RateLimit(w.db.rateLimits, Security.RateLimitKey(req), req.now);
    var w1 := World(w.db.(rateLimits := admitted.records), Performance.RecordRequest(w.metrics));
    var serve := Handlers(p, Corrected, env);
    var a := RunEndpoint(p, Corrected, env, Core(d.chain), req', w1);
    assert serve(Core(d.chain), req', w1) == a;
    RoutedRuns(router, p, Corrected, env, req, w);
    CorrectedChainReachesHandler(Core(d.chain), req', w, serve);
    RespondCorrected(env, req, Dressed(a.outcome.reply.response, req.elapsed),
                     a.world.(metrics := Performance.RecordResponseTime(a.world.metrics, req.elapsed)));
  }

  /** Corrected, a response leaves `fetch` with its own status, body and
      headers, and the CORS headers laid over them. */
  lemma RespondCorrected(env: Env, req: Request, r: Response, w: World)
    ensures Respond(Corrected, env, req, Answer(Returned(Resp(r)), w))
              == Delivered(Response(r.status, r.body, r.headers + CorsHeaders(req, env)), w)
  {
  }

  /** The monitor's step: `next` sees the request counted, and the monitor
      post-processes what it produced. */
  lemma MonitorStep(build: Build, next: Chain<Handler, Stage>, req: Request, w: World, serve: Serve)
    ensures Run(build, Layer(ResponseTimeMonitor, next), req, w, serve)
              == Timed(Run(build, next, req, w.(metrics := Performance.RecordRequest(w.metrics)), serve), req.elapsed)
  {
  }

  /** The corrected security-header step. */
  lemma SecuredStep(next: Chain<Handler, Stage>, req: Request, w: World, serve: Serve)
    ensures Run(Corrected, Layer(SecurityHeaders, next), req, w, serve) == Secured(Run(Corrected, next, req, w, serve))
  {
  }

  /** The rate limiter's step when it refuses: `next` does not run. */
  lemma LimiterStops(build: Build, next: Chain<Handler, Stage>, req: Request, w: World, serve: Serve)
    requires w.db.up
    requires !Security.RateLimit(w.db.rateLimits, Security.RateLimitKey(req), req.now).allowed
    ensures var admitted := Security.RateLimit(w.db.rateLimits, Security.RateLimitKey(req), req.now);
      Run(build, Layer(RateLimiter(100, 60000), next), req, w, serve)
        == Answer(Returned(Resp(Security.TooManyRequests(60000))), w.(db := w.db.(rateLimits := admitted.records)))
  {
  }

  /** Corrected, a request over the limit is refused with 429 before its
      handler runs, carrying `Retry-After: 60`, the security headers and
      the response time. */
  lemma CorrectedChainRefuses(h: Handler, req: Request, w: World, serve: Serve)
    requires w.db.up
    requires !Security.RateLimit(w.db.rateLimits, Security.RateLimitKey(req), req.now).allowed
    ensures var admitted := Security.RateLimit(w.db.rateLimits, Security.RateLimitKey(req), req.now);
      Run(Corrected, Nest(Globals, h), req, w, serve)
        == Answer(Returned(Resp(Dressed(Security.TooManyRequests(60000), req.elapsed))),
                  World(w.db.(rateLimits := admitted.records),
                        Performance.RecordResponseTime(Performance.RecordRequest(w.metrics), req.elapsed)))
  {
    var admitted := Security.RateLimit(w.db.rateLimits, Security.RateLimitKey(req), req.now);
    var w0 := w.(metrics := Performance.RecordRequest(w.metrics));
    var limited := Layer(RateLimiter(100, 60000), Layer(ConnectionPool, Endpoint(h)));
    var refusal := Answer(Returned(Resp(Security.TooManyRequests(60000))), w0.(db := w.db.(rateLimits := admitted.records)));
    assert Nest(Globals, h) == Layer(ResponseTimeMonitor, Layer(SecurityHeaders, limited));
    LimiterStops(Corrected, Layer(ConnectionPool, Endpoint(h)), req, w0, serve);
    SecuredStep(limited, req, w0, serve);
    MonitorStep(Corrected, Layer(SecurityHeaders, limited), req, w, serve);
  }

  /** The refusal as the client sees it: a 429 with the limiter's text and
      the security, response-time and CORS headers; the limiter's records
      are the only change to the store. */
  lemma CorrectedRateLimitRefuses(router: Router<Handler, Stage>, p: Platform, env: Env, req: Request, w: World)
    requires Wired(router)
    requires w.db.up && req.verb != "OPTIONS"
    requires Handle(router, req.verb, req.path, Corrected).Found?
    requires !Security.RateLimit(w.db.rateLimits, Security.RateLimitKey(req), req.now).allowed
    ensures var admitted := Security.RateLimit(w.db.rateLimits, Security.RateLimitKey(req), req.now);
      var refusal := Dressed(Security.TooManyRequests(60000), req.elapsed);
      Fetch(p, Corrected, env, router, req, w)
        == Delivered(Response(429, refusal.body, refusal.headers + CorsHeaders(req, env)),
                     World(w.db.(rateLimits := admitted.records),
                           Performance.RecordResponseTime(Performance.RecordRequest(w.metrics), req.elapsed)))
  {
    var d := Handle(router, req.verb, req.path, Corrected);
    var req' := WithParams(req, d.params);
    assert Security.RateLimitKey(req') == Security.RateLimitKey(req);
    RoutedRuns(router, p, Corrected, env, req, w);
    CorrectedChainRefuses(Core(d.chain), req', w, Handlers(p, Corrected, env));
    var admitted := Security.RateLimit(w.db.rateLimits, Security.RateLimitKey(req), req.now);
    RespondCorrected(env, req, Dressed(Security.TooManyRequests(60000), req.elapsed),
                     World(w.db.(rateLimits := admitted.records),
                           Performance.RecordResponseTime(Performance.RecordRequest(w.metrics), req.elapsed)));
  }

  /** The refusal keeps the limiter's `Retry-After: 60`. */
  lemma RefusalRetryAfter(req: Request, env: Env, elapsed: int)
    ensures var refusal := Dressed(Security.TooManyRequests(60000), elapsed);
      var headers := refusal.headers + CorsHeaders(req, env);
      "Retry-After" in headers && headers["Retry-After"] == "60"
  {
    Security.DefaultRetryAfterIsSixty();
  }

  /** `/api/user/verify` is registered without `withAuth`: its handler
      finds no `user` and answers 500 with the engine's `TypeError` text. */
  lemma VerifyRouteAlwaysFails(p: Platform, build: Build, env: Env, req: Request, w: World)
    requires req.user.None?
    ensures RunEndpoint(p, build, env, VerifyH, req, w).outcome
              == Returned(Resp(CreateErrorResponse(Controllers.NoUser.message, 500)))
  {
  }

  // ---------------------------------------------------------------------
  // the bookmark routes

  const BookmarksPrefix := "/api/bookmarks/"

  /** The three `:id` routes, and the literal rest. */
  lemma ParamPaths()
    ensures forall i :: 6 <= i < 9 ==> Table[i].path == BookmarksPrefix + ":" + "id"
  {
  }

  lemma LiteralPaths()
    ensures forall i :: 0 <= i < |Table| && !(6 <= i < 9) ==> ':' !in Table[i].path
  {
    EarlyLiteralPaths();
    assert ':' !in Table[9].path;
  }

  lemma EarlyLiteralPaths()
    ensures forall i :: 0 <= i < 6 ==> ':' !in Table[i].path
  {
    forall i | 0 <= i < 6 ensures ':' !in Table[i].path {
      if i < 3 {
        assert Table[i].path in {"/api/auth/register", "/api/auth/login", "/api/user/verify"};
      } else {
        assert Table[i].path in {"/api/user/info", "/api/bookmarks"};
      }
    }
  }

  /** A concrete one-segment bookmark path is none of the registered
      paths. */
  lemma BookmarkPathUnregistered(segment: string)
    requires |segment| > 0 && ':' !in segment
    ensures forall i :: 0 <= i < |Table| ==> Table[i].path != BookmarksPrefix + segment
  {
    var path := BookmarksPrefix + segment;
    assert |path| > 15 && path[5] == 'b' && ':' !in path;
  }

  /** The method and route path each entry's key yields, in either
      reading. */
  lemma EntryRoutePath(i: nat, build: Build)
    requires i < |Table|
    ensures var e := Entries<Handler, Stage>(Table)[i];
      && ':' in e.key
      && RouteMethod(e.key) == Table[i].verb
      && RoutePath(e.key, build) ==
           if build == Corrected || !(6 <= i < 9) then Table[i].path else BookmarksPrefix
  {
    var t := Table[i];
    TableFacts();
    StandardVerbIsUpper(t.verb);
    RoutePathOfKey(t.verb, t.path);
    if 6 <= i < 9 {
      ParamPaths();
      AsWrittenDropsParam(t.verb, BookmarksPrefix, "id");
    } else {
      LiteralPaths();
      AsWrittenLiteralPath(t.verb, t.path);
    }
  }

  /** As written, a key whose path has no `:` keeps its whole path. */
  lemma AsWrittenLiteralPath(verb: string, path: string)
    requires ':' !in verb && ':' !in path
    ensures RoutePathAsWritten(Key(verb, path)) == path
  {
    var u := Upper(verb);
    assert ':' !in u by {
      forall k | 0 <= k < |u| ensures u[k] != ':' {
        assert verb[k] != ':';
      }
    }
    assert Key(verb, path) == u + [':'] + path;
    SplitAfterFirst(u, ':', path);
    SplitOfSeparatorFree(path, ':');
  }

  /** No entry is keyed by `GET` and an unregistered path. */
  lemma NoExactEntry(router: Router<Handler, Stage>, path: string)
    requires IsWorkerRouter(router)
    requires forall i :: 0 <= i < |Table| ==> Table[i].path != path
    ensures Lookup(router, Key("GET", path)).None?
  {
    var routes := router.routes;
    TableFacts();
    StandardVerbIsUpper("GET");
    RoutePathOfKey("GET", path);
    forall k | 0 <= k < |routes| ensures routes[k].key != Key("GET", path) {
      StandardVerbIsUpper(Table[k].verb);
      RoutePathOfKey(Table[k].verb, Table[k].path);
    }
  }

  /** As written, no entry is a candidate for a bookmark path. */
  lemma NoCandidateAsWritten(i: nat, segment: string, path: string)
    requires i < |Table| && |segment| > 0 && ':' !in segment && path == BookmarksPrefix + segment
    ensures !Candidate(Entries<Handler, Stage>(Table), i, path, "GET", AsWritten)
  {
    var e := Entries<Handler, Stage>(Table)[i];
    EntryRoutePath(i, AsWritten);
    BookmarkPathUnregistered(segment);
    LiteralPaths();
    var rp := RoutePath(e.key, AsWritten);
    assert rp != path;
    LiteralPathMatchesOnlyItself(rp, path);
  }

  /** Corrected, no entry before the `get` route is a candidate for a
      bookmark path. */
  lemma NoEarlierCandidateCorrected(i: nat, segment: string, path: string)
    requires i < 6 && |segment| > 0 && ':' !in segment && path == BookmarksPrefix + segment
    ensures !Candidate(Entries<Handler, Stage>(Table), i, path, "GET", Corrected)
  {
    EntryRoutePath(i, Corrected);
    BookmarkPathUnregistered(segment);
    LiteralPaths();
    LiteralPathMatchesOnlyItself(Table[i].path, path);
  }

  /** Corrected, the three `:id` routes match any one-segment bookmark
      path. */
  lemma ParamEntryIsCandidate(i: nat, segment: string, path: string)
    requires 6 <= i < 9 && |segment| > 0 && '/' !in segment && path == BookmarksPrefix + segment
    ensures Candidate(Entries<Handler, Stage>(Table), i, path, Table[i].verb, Corrected)
  {
    EntryRoutePath(i, Corrected);
    ParamPaths();
    ParamPatternMatches(Table[i].path, BookmarksPrefix, "id", segment, path);
  }

  lemma ParamPatternMatches(routePath: string, prefix: string, name: string, segment: string, path: string)
    requires routePath == prefix + ":" + name && path == prefix + segment
    requires ':' !in prefix && |name| > 0 && '/' !in name && |segment| > 0 && '/' !in segment
    ensures Matches(Compile(routePath), path)
  {
    ParamSegmentMatches(prefix, name, segment);
  }

  /** As written, `matchRoute` finds nothing for a bookmark path. */
  lemma BookmarkPathMatchesAsWritten(router: Router<Handler, Stage>, segment: string, path: string)
    requires IsWorkerRouter(router)
    requires |segment| > 0 && ':' !in segment && path == BookmarksPrefix + segment
    ensures MatchRoute(router.routes, path, "GET", AsWritten).None?
  {
    var routes := router.routes;
    forall i | 0 <= i < |routes|
      ensures !Candidate(routes, i, path, "GET", AsWritten)
    {
      NoCandidateAsWritten(i, segment, path);
    }
  }

  /** Corrected, `matchRoute` finds the `get` route for a bookmark path. */
  lemma BookmarkPathMatchesCorrected(router: Router<Handler, Stage>, segment: string, path: string)
    requires IsWorkerRouter(router)
    requires |segment| > 0 && ':' !in segment && '/' !in segment && path == BookmarksPrefix + segment
    ensures MatchRoute(router.routes, path, "GET", Corrected)
              == Some((Table[6].path, Route(Authed(GetH), [])))
  {
    var routes := router.routes;
    forall i | 0 <= i < 6
      ensures !Candidate(routes, i, path, "GET", Corrected)
    {
      NoEarlierCandidateCorrected(i, segment, path);
    }
    ParamEntryIsCandidate(6, segment, path);
    EntryRoutePath(6, Corrected);
  }

  /** The bookmark routes in the two readings of the router: as written,
      `GET /api/bookmarks/<id>` finds no route (the pattern was cut to
      `/api/bookmarks/`) and is answered 404; corrected, it reaches the
      `get` handler behind the global middlewares with `id` bound to the
      segment. */
  lemma BookmarkRouteByBuild(router: Router<Handler, Stage>, segment: string)
    requires IsWorkerRouter(router)
    requires |segment| > 0 && ':' !in segment && '/' !in segment
    ensures Handle(router, "GET", BookmarksPrefix + segment, AsWritten)
              == NoRoute(CreateErrorResponse(RouteNotFound, 404))
    ensures Handle(router, "GET", BookmarksPrefix + segment, Corrected)
              == Found(Some(map["id" := Some(segment)]), Nest(Globals, Authed(GetH)))
  {
    var path := BookmarksPrefix + segment;
    BookmarkPathUnregistered(segment);
    NoExactEntry(router, path);
    StandardVerbIsUpper("GET");
    BookmarkPathMatchesAsWritten(router, segment, path);
    BookmarkPathMatchesCorrected(router, segment, path);
    ParamPaths();
    BookmarkParam(segment);
    assert Globals + [] == Globals;
  }

  /** The parameters `extractParams` binds for the `:id` routes. */
  lemma BookmarkParam(segment: string)
    requires '/' !in segment
    ensures ExtractParams(BookmarksPrefix + segment, BookmarksPrefix + ":" + "id") == map["id" := Some(segment)]
  {
    var prefix := "/api/bookmarks";
    LastSegmentParam(prefix, "id", segment);
    assert prefix + "/" + segment == BookmarksPrefix + segment;
    assert prefix + "/:" + "id" == BookmarksPrefix + ":" + "id";
  }
}
