/** Requests, responses and JSON values as the worker sees them. A request
    carries, besides what the client sent, the per-request readings of the
    runtime the source takes from globals: the clock, the elapsed time the
    response-time monitor measures, and the random salt bytes. */
module Http {
  import opened Base
  import opened Platform

  datatype Json =
    | JNull
    | JBool(b: bool)
    | JInt(i: int)
    | JStr(s: string)
    | JArr(items: seq<Json>)
    | JObj(fields: seq<(string, Json)>)

  /** What a `Response` body was built from: nothing (`null`), a plain
      text string, or a value passed to `JSON.stringify`. */
  datatype Payload = NoContent | Text(text: string) | JsonBody(json: Json)

  datatype Response = Response(status: int, body: Payload, headers: map<string, string>)

  /** A parsed JSON request body: not JSON at all, the literal `null`, or an
      object whose string-valued fields are kept. */
  datatype Body = Malformed | NullBody | Fields(values: map<string, string>)

  datatype Request = Request(
    /** `request.method` as delivered. */
    verb: string,
    path: string,
    query: map<string, string>,
    /** Header values keyed by lower-case header name. */
    headers: map<string, string>,
    body: Body,
    /** `request.params`, set by the router after a pattern match only. */
    params: Option<map<string, Option<string>>>,
    /** `request.user`, set by `withAuth`. */
    user: Option<Claims>,
    /** `Date.now()` while this request is handled, in milliseconds. */
    now: int,
    /** The response time the monitor measures, in milliseconds. */
    elapsed: int,
    salt: Salt
  )

  /** `request.headers.get(name)`: case-insensitive, `None` for null. */
  function GetHeader(req: Request, name: string): (v: Option<string>)
    ensures v.Some? <==> Lower(name) in req.headers
  {
    var k := Lower(name);
    if k in req.headers then Some(req.headers[k]) else None
  }

  /** JavaScript truthiness of an optional string (null/undefined or ""). */
  predicate Truthy(v: Option<string>) {
    v.Some? && v.value != ""
  }
}
