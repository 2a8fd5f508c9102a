/** worker/src/security.js: the text escaper, the password-strength and
    common-password checks, the disposable-email check, the rate limiter
    over the `rate_limits` records and its middleware, and the CSRF check
    with its cookie parser. */
module Security {
  import opened Base
  import opened Platform
  import opened Http
  import opened Errors
  import opened Store

  // ---------------------------------------------------------------------
  // escaping

  /** The escape map as written: `&`, `<`, `>` and `"` map to themselves and
      only `'` changes, to `&#039;`. */
  function EscapeChar(c: char): (r: string)
    ensures c != '\'' ==> r == [c]
  {
    if c == '\'' then "&#039;" else [c]
  }

  /** `text.replace(/[&<>"']/g, m => map[m])`. */
  function Escape(s: string): (r: string)
    decreases |s|
  {
    if |s| == 0 then "" else EscapeChar(s[0]) + Escape(s[1..])
  }

  /** `SecurityUtils.sanitizeText(text)`: a non-string gives `''`. */
  function SanitizeText(v: Json): (r: string)
    ensures !v.JStr? ==> r == ""
    ensures v.JStr? ==> r == Escape(v.s)
  {
    if v.JStr? then Escape(v.s) else ""
  }

  /** The escaped text has no `'` left. */
  lemma {:induction false} EscapeRemovesQuotes(s: string)
    ensures '\'' !in Escape(s)
    decreases |s|
  {
    if |s| > 0 {
      EscapeRemovesQuotes(s[1..]);
    }
  }

  /** Each `'` lengthens the text by five; nothing else changes length. */
  lemma {:induction false} EscapeLength(s: string)
    ensures |Escape(s)| == |s| + 5 * Occurrences(s, '\'')
    decreases |s|
  {
    if |s| > 0 {
      EscapeLength(s[1..]);
    }
  }

  /** A text without `'` passes through unchanged, markup included. */
  lemma {:induction false} EscapeFixesQuoteFree(s: string)
    requires '\'' !in s
    ensures Escape(s) == s
    decreases |s|
  {
    if |s| > 0 {
      assert '\'' !in s[1..];
      EscapeFixesQuoteFree(s[1..]);
      assert [s[0]] + s[1..] == s;
    }
  }

  /** Escaping distributes over concatenation. */
  lemma {:induction false} EscapeAppend(a: string, b: string)
    ensures Escape(a + b) == Escape(a) + Escape(b)
    decreases |a|
  {
    if |a| == 0 {
      assert a + b == b;
    } else {
      assert (a + b)[1..] == a[1..] + b;
      EscapeAppend(a[1..], b);
    }
  }

  /** Because `&` is not escaped, the escaper is not injective: a quote and
      its own escape render the same. */
  lemma EscapeNotInjective()
    ensures Escape("'") == Escape("&#039;")
    ensures "<script>" == SanitizeText(JStr("<script>"))
  {
    EscapeFixesQuoteFree("&#039;");
    EscapeFixesQuoteFree("<script>");
  }

  // ---------------------------------------------------------------------
  // password and email checks

  predicate HasLower(s: string) { exists i :: 0 <= i < |s| && 'a' <= s[i] <= 'z' }
  predicate HasUpper(s: string) { exists i :: 0 <= i < |s| && 'A' <= s[i] <= 'Z' }
  predicate HasDigit(s: string) { exists i :: 0 <= i < |s| && IsDigit(s[i]) }

  predicate IsAlphanumeric(c: char) {
    'a' <= c <= 'z' || 'A' <= c <= 'Z' || IsDigit(c)
  }

  /** `/[^a-zA-Z0-9]/.test(s)`. */
  predicate HasSpecial(s: string) { exists i :: 0 <= i < |s| && !IsAlphanumeric(s[i]) }

  const TooShort := "密码长度不能少于8位"
  const NeedsLower := "密码必须包含小写字母"
  const NeedsUpper := "密码必须包含大写字母"
  const NeedsDigit := "密码必须包含数字"
  const SuggestsSpecial := "建议密码包含特殊字符"

  datatype Strength = Strength(valid: bool, score: nat, errors: seq<string>)

  /** One rule of the strength check: a failed rule appends its message and,
      unless it is only advisory, clears `valid`; a passed rule adds one
      to the score. */
  function Rule(r: Strength, passed: bool, message: string, advisory: bool): (r': Strength)
    ensures r'.score + |r'.errors| == r.score + |r.errors| + 1
    ensures r'.valid <==> r.valid && (passed || advisory)
    ensures forall m :: m in r'.errors <==> m in r.errors || (!passed && m == message)
  {
    if passed then r.(score := r.score + 1)
    else Strength(r.valid && advisory, r.score, r.errors + [message])
  }

  /** `SecurityUtils.validatePasswordStrength(password)`. */
  function ValidatePasswordStrength(password: string): (r: Strength)
    ensures r.valid <==> |password| >= 8 && HasLower(password) && HasUpper(password) && HasDigit(password)
    ensures r.score + |r.errors| == 5
    ensures forall m :: m in r.errors <==>
              || (|password| < 8 && m == TooShort)
              || (!HasLower(password) && m == NeedsLower)
              || (!HasUpper(password) && m == NeedsUpper)
              || (!HasDigit(password) && m == NeedsDigit)
              || (!HasSpecial(password) && m == SuggestsSpecial)
  {
    var r0 := Strength(true, 0, []);
    var r1 := Rule(r0, |password| >= 8, TooShort, false);
    var r2 := Rule(r1, HasLower(password), NeedsLower, false);
    var r3 := Rule(r2, HasUpper(password), NeedsUpper, false);
    var r4 := Rule(r3, HasDigit(password), NeedsDigit, false);
    Rule(r4, HasSpecial(password), SuggestsSpecial, true)
  }

  /** The messages come in the order the rules run, one per failed rule, and
      the score counts the rules that pass. */
  lemma StrengthReport(password: string)
    ensures var r := ValidatePasswordStrength(password);
      && r.errors == (if |password| < 8 then [TooShort] else [])
                     + (if !HasLower(password) then [NeedsLower] else [])
                     + (if !HasUpper(password) then [NeedsUpper] else [])
                     + (if !HasDigit(password) then [NeedsDigit] else [])
                     + (if !HasSpecial(password) then [SuggestsSpecial] else [])
      && r.score == (if |password| >= 8 then 1 else 0) + (if HasLower(password) then 1 else 0)
                    + (if HasUpper(password) then 1 else 0) + (if HasDigit(password) then 1 else 0)
                    + (if HasSpecial(password) then 1 else 0)
  {
  }

  /** Each message appears exactly when its rule fails: the five messages
      are distinct. */
  lemma StrengthMessages(password: string)
    ensures var r := ValidatePasswordStrength(password);
      && (TooShort in r.errors <==> |password| < 8)
      && (NeedsLower in r.errors <==> !HasLower(password))
      && (NeedsUpper in r.errors <==> !HasUpper(password))
      && (NeedsDigit in r.errors <==> !HasDigit(password))
      && (SuggestsSpecial in r.errors <==> !HasSpecial(password))
  {
    assert TooShort[2] != NeedsLower[2] && TooShort[2] != NeedsUpper[2];
    assert TooShort[2] != NeedsDigit[2] && TooShort[0] != SuggestsSpecial[0];
    assert NeedsLower[6] != NeedsUpper[6] && NeedsLower[6] != NeedsDigit[6];
    assert NeedsUpper[6] != NeedsDigit[6] && NeedsLower[0] != SuggestsSpecial[0];
    assert NeedsUpper[0] != SuggestsSpecial[0] && NeedsDigit[0] != SuggestsSpecial[0];
  }

  /** A long mixed-case password with a digit is valid without a special
      character; the missing one only costs a point and adds advice. */
  lemma SpecialCharacterIsAdvisory()
    ensures var r := ValidatePasswordStrength("Abcdefg1");
      r.valid && r.score == 4 && r.errors == [SuggestsSpecial]
  {
    var pw := "Abcdefg1";
    assert 'b' <= pw[1] <= 'z';
    assert 'A' <= pw[0] <= 'Z';
    assert IsDigit(pw[7]);
    assert !HasSpecial(pw) by {
      forall i | 0 <= i < |pw| ensures IsAlphanumeric(pw[i]) { }
    }
  }

  const CommonPasswords := ["password", "123456", "12345678", "123456789", "12345",
                            "qwerty", "abc123", "password1", "admin", "welcome"]

  /** `SecurityUtils.isCommonPassword(password)`. */
  predicate IsCommonPassword(password: string) {
    Lower(password) in CommonPasswords
  }

  lemma LowerIdempotent(s: string)
    ensures Lower(Lower(s)) == Lower(s)
  {
  }

  /** The check ignores (ASCII) case: a password is common exactly when its
      lower-case form is. */
  lemma CommonPasswordIgnoresCase(password: string)
    ensures IsCommonPassword(password) <==> IsCommonPassword(Lower(password))
    ensures IsCommonPassword("PassWord")
  {
    LowerIdempotent(password);
    assert Lower("PassWord") == "password";
  }

  const TemporaryDomains := ["10minutemail.com", "guerrillamail.com", "mailinator.com",
                             "tempmail.org", "throwawaymail.com", "yopmail.com"]

  /** `SecurityUtils.isTemporaryEmail(email)`: the lower-cased second
      `@`-separated piece is a listed domain; without an `@` there is no
      second piece, and the `TypeError` is caught as `false`. */
  predicate IsTemporaryEmail(email: string) {
    var parts := Split(email, '@');
    |parts| >= 2 && Lower(parts[1]) in TemporaryDomains
  }

  /** An address without `@` is never temporary, and the domain is the
      piece right after the first `@`, whether or not a second one follows. */
  lemma TemporaryEmailCases(local: string, domain: string, rest: string)
    requires '@' !in local && '@' !in domain
    ensures !IsTemporaryEmail(local)
    ensures IsTemporaryEmail(local + "@" + domain) <==> Lower(domain) in TemporaryDomains
    ensures IsTemporaryEmail(local + "@" + domain + "@" + rest) <==> Lower(domain) in TemporaryDomains
  {
    assert !IsTemporaryEmail(local) by {
      OccurrencesZero(local, '@');
    }
    assert Split(local + "@" + domain, '@') == [local, domain] by {
      SplitAfterFirst(local, '@', domain);
      SplitOfSeparatorFree(domain, '@');
      assert local + "@" + domain == local + ['@'] + domain;
    }
    assert Split(local + "@" + domain + "@" + rest, '@')[1] == domain by {
      SplitAfterFirst(local, '@', domain + "@" + rest);
      SplitAfterFirst(domain, '@', rest);
      assert local + "@" + domain + "@" + rest == local + ['@'] + (domain + ['@'] + rest);
    }
  }

  // ---------------------------------------------------------------------
  // rate limiting

  /** Number of records under `key`. */
  function Count(records: seq<RateRecord>, key: string): nat
    decreases |records|
  {
    if |records| == 0 then 0 else (if records[0].key == key then 1 else 0) + Count(records[1..], key)
  }

  /** `DELETE FROM rate_limits WHERE timestamp < windowStart`. */
  function Prune(records: seq<RateRecord>, windowStart: int): (r: seq<RateRecord>)
    ensures forall x :: x in r <==> x in records && x.timestamp >= windowStart
    ensures |r| <= |records|
    decreases |records|
  {
    if |records| == 0 then []
    else (if records[0].timestamp < windowStart then [] else [records[0]]) + Prune(records[1..], windowStart)
  }

  lemma {:induction false} CountAppend(a: seq<RateRecord>, b: seq<RateRecord>, key: string)
    ensures Count(a + b, key) == Count(a, key) + Count(b, key)
    decreases |a|
  {
    if |a| == 0 {
      assert a + b == b;
    } else {
      assert (a + b)[1..] == a[1..] + b;
      CountAppend(a[1..], b, key);
    }
  }

  datatype Admission = Admission(allowed: bool, records: seq<RateRecord>)

  /** `SecurityUtils.rateLimit(env, key, limit, windowMs)` at clock reading
      `now`: prune every key's old records, count this key's, then refuse
      or record the request. */
  function RateLimit(records: seq<RateRecord>, key: string, now: int,
                     limit: int := 100, windowMs: int := 60000): (r: Admission)
    ensures forall x :: x in r.records ==> x.timestamp >= now - windowMs || x == RateRecord(key, now)
    ensures r.allowed <==> Count(Prune(records, now - windowMs), key) < limit
    ensures r.allowed ==> r.records == Prune(records, now - windowMs) + [RateRecord(key, now)]
    ensures !r.allowed ==> r.records == Prune(records, now - windowMs)
    ensures forall x: RateRecord :: x.key != key ==> (x in r.records <==> x in records && x.timestamp >= now - windowMs)
  {
    var kept := Prune(records, now - windowMs);
    if Count(kept, key) >= limit then Admission(false, kept)
    else Admission(true, kept + [RateRecord(key, now)])
  }

  /** With a non-negative window every surviving record is inside the window. */
  lemma RateLimitLeavesWindow(records: seq<RateRecord>, key: string, now: int, limit: int, windowMs: nat)
    ensures forall x :: x in RateLimit(records, key, now, limit, windowMs).records ==> x.timestamp >= now - windowMs
  {
  }

  /** The limit is an invariant: once a key has at most `limit` records in
      the window, no call takes it past `limit`. */
  lemma RateLimitKeepsBound(records: seq<RateRecord>, key: string, now: int, limit: int, windowMs: int)
    requires Count(Prune(records, now - windowMs), key) <= limit
    ensures Count(RateLimit(records, key, now, limit, windowMs).records, key) <= limit
  {
    var kept := Prune(records, now - windowMs);
    CountAppend(kept, [RateRecord(key, now)], key);
  }

  /** Three requests inside one window with a limit of three are admitted
      and the fourth is refused. */
  lemma ThirdThenRefused(key: string, now: int)
    ensures var a1 := RateLimit([], key, now, 3);
      var a2 := RateLimit(a1.records, key, now, 3);
      var a3 := RateLimit(a2.records, key, now, 3);
      var a4 := RateLimit(a3.records, key, now, 3);
      a1.allowed && a2.allowed && a3.allowed && !a4.allowed
  {
    var x := RateRecord(key, now);
    var w := now - 60000;
    assert Prune([x], w) == [x];
    assert Prune([x, x], w) == [x, x];
    assert Prune([x, x, x], w) == [x, x, x];
    assert [] + [x] == [x];
    assert [x] + [x] == [x, x];
    assert [x, x] + [x] == [x, x, x];
  }

  /** A key with no record counts zero. */
  lemma {:induction false} CountAbsentKey(records: seq<RateRecord>, key: string)
    requires forall x :: x in records ==> x.key != key
    ensures Count(records, key) == 0
    decreases |records|
  {
    if |records| > 0 {
      assert records[0] in records;
      assert forall x :: x in records[1..] ==> x in records;
      CountAbsentKey(records[1..], key);
    }
  }

  /** Once every earlier request of a key has left the window, the key is
      admitted again (for any positive limit), and its new request is the
      only one of it the limiter keeps. */
  lemma WindowElapsedAdmitsAgain(records: seq<RateRecord>, key: string, now: int, limit: int, windowMs: int)
    requires limit > 0
    requires forall x :: x in records && x.key == key ==> x.timestamp < now - windowMs
    ensures RateLimit(records, key, now, limit, windowMs).allowed
    ensures Count(RateLimit(records, key, now, limit, windowMs).records, key) == 1
  {
    var kept := Prune(records, now - windowMs);
    CountAbsentKey(kept, key);
    CountAppend(kept, [RateRecord(key, now)], key);
    assert [RateRecord(key, now)][1..] == [];
  }

  /** The thrown value a query meets when the database does not answer. The
      wording is the database driver's. */
  const DatabaseError := OtherError("D1_ERROR: database unavailable", None)

  /** The limiter key: `rate_limit:` and the first truthy of the
      `CF-Connecting-IP` header, the `X-Forwarded-For` header, `'unknown'`. */
  function RateLimitKey(req: Request): (key: string)
    ensures Truthy(GetHeader(req, "CF-Connecting-IP")) ==> key == "rate_limit:" + GetHeader(req, "CF-Connecting-IP").value
    ensures (!Truthy(GetHeader(req, "CF-Connecting-IP")) && Truthy(GetHeader(req, "X-Forwarded-For")))
              ==> key == "rate_limit:" + GetHeader(req, "X-Forwarded-For").value
    ensures (!Truthy(GetHeader(req, "CF-Connecting-IP")) && !Truthy(GetHeader(req, "X-Forwarded-For")))
              ==> key == "rate_limit:unknown"
  {
    var cf := GetHeader(req, "CF-Connecting-IP");
    var xff := GetHeader(req, "X-Forwarded-For");
    "rate_limit:" + (if Truthy(cf) then cf.value else if Truthy(xff) then xff.value else "unknown")
  }

  /** `Math.ceil(n / d)` for a positive `d`. */
  function CeilDiv(n: int, d: int): (q: int)
    requires d > 0
    ensures (q - 1) * d < n <= q * d
  {
    -((-n) / d)
  }

  /** The refusal the middleware returns. */
  function TooManyRequests(windowMs: int): (r: Response)
    ensures r.status == 429 && r.body == Text("请求过于频繁，请稍后再试")
    ensures r.headers == map["Content-Type" := "text/plain", "Retry-After" := IntToString(CeilDiv(windowMs, 1000))]
  {
    Response(429, Text("请求过于频繁，请稍后再试"),
             map["Content-Type" := "text/plain", "Retry-After" := IntToString(CeilDiv(windowMs, 1000))])
  }

  /** A middleware's verdict before `next`: go on, or answer now. */
  datatype Gate = Pass | Stop(response: Response)

  /** The decision `SecurityMiddleware.rateLimit(limit, windowMs)` takes
      before calling `next`, with the records it leaves behind. */
  function RateLimitGate(db: Db, req: Request, limit: int := 100, windowMs: int := 60000): (r: Result<(Gate, Db), Thrown>)
    ensures !db.up <==> r == Err(DatabaseError)
    ensures r.Ok? ==>
              var a := RateLimit(db.rateLimits, RateLimitKey(req), req.now, limit, windowMs);
              && r.value.1 == db.(rateLimits := a.records)
              && (r.value.0 == Pass <==> a.allowed)
              && (!a.allowed ==> r.value.0 == Stop(TooManyRequests(windowMs)))
  {
    if !db.up then Err(DatabaseError)
    else
      var a := RateLimit(db.rateLimits, RateLimitKey(req), req.now, limit, windowMs);
      Ok((if a.allowed then Pass else Stop(TooManyRequests(windowMs)), db.(rateLimits := a.records)))
  }

  lemma DefaultRetryAfterIsSixty()
    ensures TooManyRequests(60000).headers["Retry-After"] == "60"
  {
    assert CeilDiv(60000, 1000) == 60;
  }

  // ---------------------------------------------------------------------
  // CSRF

  /** The thrown `URIError` of `decodeURIComponent`. */
  const MalformedUri := OtherError("URI malformed", None)

  /** The value text of one `name=value` cookie: the piece after the first
      `=` and before any second one; JavaScript's destructuring yields
      `undefined` when there is no `=`, which `decodeURIComponent` turns
      into the text `undefined`. */
  function CookieValueText(pieces: seq<string>): string {
    if |pieces| >= 2 then pieces[1] else "undefined"
  }

  /** Index of the first cookie whose name is `name`, if any. */
  function FirstCookie(cookies: seq<string>, name: string): (k: Option<nat>)
    ensures k.Some? ==> k.value < |cookies| && Split(Trim(cookies[k.value]), '=')[0] == name
    ensures k.Some? ==> forall j :: 0 <= j < k.value ==> Split(Trim(cookies[j]), '=')[0] != name
    ensures k.None? ==> forall j :: 0 <= j < |cookies| ==> Split(Trim(cookies[j]), '=')[0] != name
    decreases |cookies|
  {
    if |cookies| == 0 then None
    else if Split(Trim(cookies[0]), '=')[0] == name then Some(0)
    else
      match FirstCookie(cookies[1..], name)
      case None => None
      case Some(k) => Some(k + 1)
  }

  /** `SecurityMiddleware.getCookieValue(request, name)`: `Ok(None)` for
      `null`, `Err` when `decodeURIComponent` throws. */
  function GetCookieValue(p: Platform, req: Request, name: string): (r: Result<Option<string>, Thrown>)
    ensures !Truthy(GetHeader(req, "Cookie")) ==> r == Ok(None)
    ensures r.Ok? && r.value.Some? ==>
              var cookies := Split(GetHeader(req, "Cookie").value, ';');
              var k := FirstCookie(cookies, name);
              k.Some? && p.decodeUri(CookieValueText(Split(Trim(cookies[k.value]), '='))) == r.value
    ensures (Truthy(GetHeader(req, "Cookie")) && FirstCookie(Split(GetHeader(req, "Cookie").value, ';'), name).None?)
              ==> r == Ok(None)
    ensures Truthy(GetHeader(req, "Cookie")) ==>
              var cookies := Split(GetHeader(req, "Cookie").value, ';');
              var k := FirstCookie(cookies, name);
              k.Some? ==>
              var text := CookieValueText(Split(Trim(cookies[k.value]), '='));
              && (p.decodeUri(text).Some? ==> r == Ok(Some(p.decodeUri(text).value)))
              && (p.decodeUri(text).None? ==> r == Err(MalformedUri))
  {
    var header := GetHeader(req, "Cookie");
    if !Truthy(header) then Ok(None)
    else
      var cookies := Split(header.value, ';');
      match FirstCookie(cookies, name)
      case None => Ok(None)
      case Some(k) =>
        match p.decodeUri(CookieValueText(Split(Trim(cookies[k]), '=')))
        case None => Err(MalformedUri)
        case Some(v) => Ok(Some(v))
  }

  /** A cookie's value stops at a second `=`: `name=v=w` has value `v`, and
      a cookie with no `=` has the value text `undefined`. */
  lemma CookieValueStopsAtSecondEquals(name: string, v: string, w: string)
    requires '=' !in name && '=' !in v
    ensures Split(name + "=" + v + "=" + w, '=')[0] == name
    ensures CookieValueText(Split(name + "=" + v + "=" + w, '=')) == v
    ensures CookieValueText(Split(name, '=')) == "undefined"
  {
    assert name + "=" + v + "=" + w == name + ['='] + (v + ['='] + w);
    SplitAfterFirst(name, '=', v + "=" + w);
    SplitAfterFirst(v, '=', w);
    SplitOfSeparatorFree(name, '=');
  }

  /** The plain-text refusal of the CSRF check. */
  const CsrfRejected := Response(403, Text("无效的CSRF令牌"), map[])

  /** The decision `SecurityMiddleware.csrfProtection(handler)` takes before
      calling the handler. */
  function CsrfGate(p: Platform, req: Request): (r: Result<Gate, Thrown>)
    ensures Upper(req.verb) in ["GET", "HEAD", "OPTIONS"] ==> r == Ok(Pass)
    ensures r == Ok(Pass) && Upper(req.verb) !in ["GET", "HEAD", "OPTIONS"] ==>
              && Truthy(GetHeader(req, "X-CSRF-Token"))
              && GetCookieValue(p, req, "csrf_token") == Ok(Some(GetHeader(req, "X-CSRF-Token").value))
    ensures r.Ok? && r.value.Stop? ==> r.value.response == CsrfRejected
    ensures Upper(req.verb) !in ["GET", "HEAD", "OPTIONS"] && GetCookieValue(p, req, "csrf_token").Ok? ==>
              var header := GetHeader(req, "X-CSRF-Token");
              && (r == Ok(Pass) <==> Truthy(header) && GetCookieValue(p, req, "csrf_token").value == Some(header.value))
              && (r != Ok(Pass) ==> r == Ok(Stop(CsrfRejected)))
    ensures Upper(req.verb) !in ["GET", "HEAD", "OPTIONS"] && GetCookieValue(p, req, "csrf_token").Err? ==>
              r == Err(GetCookieValue(p, req, "csrf_token").error)
  {
    if Upper(req.verb) in ["GET", "HEAD", "OPTIONS"] then Ok(Pass)
    else
      var csrfToken := GetHeader(req, "X-CSRF-Token");
      match GetCookieValue(p, req, "csrf_token")
      case Err(e) => Err(e)
      case Ok(cookieToken) =>
        if !Truthy(csrfToken) || Some(csrfToken.value) != cookieToken then Ok(Stop(CsrfRejected))
        else Ok(Pass)
  }

  /** A state-changing request whose header token equals its `csrf_token`
      cookie passes; one without the header is refused. */
  lemma CsrfAcceptsMatchingToken(p: Platform, req: Request, token: string)
    requires Upper(req.verb) !in ["GET", "HEAD", "OPTIONS"]
    requires GetCookieValue(p, req, "csrf_token") == Ok(Some(token))
    ensures token != "" && GetHeader(req, "X-CSRF-Token") == Some(token) ==> CsrfGate(p, req) == Ok(Pass)
    ensures !Truthy(GetHeader(req, "X-CSRF-Token")) ==> CsrfGate(p, req) == Ok(Stop(CsrfRejected))
  {
  }
}
