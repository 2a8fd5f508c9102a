/** worker/src/tokenService.js: the HMAC-signed bearer token. A token is
    `base64(header).base64(payload).hex(HMAC(secret, "header.payload"))`;
    it looks like a JWT but only follows its own rules. */
module Token {
  import opened Base
  import opened Platform
  import opened Http
  import opened Errors
  import opened Store
  import Auth

  /** Seven days, in seconds. */
  const DefaultExpiresIn := 7 * 24 * 60 * 60

  /** `JSON.stringify({alg: 'HS256', typ: 'JWT'})`. */
  const HeaderJson := "{\"alg\":\"HS256\",\"typ\":\"JWT\"}"

  /** The InvalidCharacterError `btoa` throws on a character above U+00FF.
      The exact wording is the engine's. */
  const NotBinaryError := OtherError("The string to be encoded contains characters outside of the Latin1 range.", None)

  /** `btoa(s)`, which throws on a non-binary string. */
  function Btoa(p: Platform, s: string): (r: Result<string, Thrown>)
    ensures r.Ok? <==> Latin1(s)
  {
    if Latin1(s) then Ok(p.btoa(s)) else Err(NotBinaryError)
  }

  /** `Math.floor(nowMs / 1000)`; Dafny's `/` floors for a positive divisor. */
  function Seconds(nowMs: int): int {
    nowMs / 1000
  }

  /** `exp && exp < now`: a zero or missing `exp` never expires. */
  predicate Expired(c: Claims, nowSec: int) {
    c.exp.Some? && c.exp.value != 0 && c.exp.value < nowSec
  }

  /** The signature `generateToken` puts on, and `verifyToken` expects for,
      an encoded header and payload. */
  function Signature(p: Platform, encodedHeader: string, encodedPayload: string, secret: string): string {
    Auth.HmacSha256(p, encodedHeader + "." + encodedPayload, secret)
  }

  /** `TokenService.generateToken(userId, email, secret, expiresIn)` at
      clock reading `nowMs`. */
  function GenerateToken(p: Platform, userId: int, email: string, secret: string, nowMs: int,
                         expiresIn: int := DefaultExpiresIn): (r: Result<string, Thrown>)
    ensures r.Ok? <==> Latin1(p.stringifyClaims(Claims(userId, email, Some(Seconds(nowMs) + expiresIn))))
    ensures r.Err? ==> r.error == NotBinaryError
  {
    var payload := Claims(userId, email, Some(Seconds(nowMs) + expiresIn));
    assert Latin1(HeaderJson);
    var encodedHeader := p.btoa(HeaderJson);
    match Btoa(p, p.stringifyClaims(payload))
    case Err(e) => Err(e)
    case Ok(encodedPayload) =>
      Ok(encodedHeader + "." + encodedPayload + "." + Signature(p, encodedHeader, encodedPayload, secret))
  }

  /** `TokenService.verifyToken(token, secret)` at clock reading `nowMs`;
      `None` is the `null` it returns instead of throwing. */
  function VerifyToken(p: Platform, token: Option<string>, secret: string, nowMs: int): (r: Option<Claims>)
    ensures !Truthy(token) ==> r.None?
    ensures Truthy(token) && |Split(token.value, '.')| != 3 ==> r.None?
    ensures r.Some? ==>
              var parts := Split(token.value, '.');
              && |parts| == 3
              && parts[2] == Signature(p, parts[0], parts[1], secret)
              && p.atob(parts[1]).Some?
              && p.parseClaims(p.atob(parts[1]).value) == Some(r.value)
              && !Expired(r.value, Seconds(nowMs))
    ensures Truthy(token) ==>
              var parts := Split(token.value, '.');
              (&& |parts| == 3
               && parts[2] == Signature(p, parts[0], parts[1], secret)
               && p.atob(parts[1]).Some?
               && p.parseClaims(p.atob(parts[1]).value).Some?)
              ==>
              var c := p.parseClaims(p.atob(parts[1]).value).value;
              r == if c.exp.Some? && c.exp.value != 0 && c.exp.value < Seconds(nowMs) then None else Some(c)
  {
    if !Truthy(token) then None
    else
      var parts := Split(token.value, '.');
      if |parts| != 3 then None
      else if parts[2] != Signature(p, parts[0], parts[1], secret) then None
      else
        match p.atob(parts[1])
        case None => None
        case Some(json) =>
          match p.parseClaims(json)
          case None => None
          case Some(c) => if Expired(c, Seconds(nowMs)) then None else Some(c)
  }

  /** A string made of three dot-free pieces joined by dots splits back
      into those pieces. */
  lemma ThreePiecesSplit(h: string, pl: string, sig: string)
    requires '.' !in h && '.' !in pl && '.' !in sig
    ensures Split(h + "." + pl + "." + sig, '.') == [h, pl, sig]
  {
    var parts := [h, pl, sig];
    assert parts[1..] == [pl, sig];
    assert [pl, sig][1..] == [sig];
    assert Join([sig], ".") == sig;
    assert Join([pl, sig], ".") == pl + "." + sig;
    assert Join(parts, ".") == h + "." + (pl + "." + sig);
    assert h + "." + (pl + "." + sig) == h + "." + pl + "." + sig;
    SplitJoin(parts, '.');
  }

  /** Round trip: a token issued at `issuedMs` with `expiresIn` verifies,
      with the same secret at `nowMs`, to the payload it was issued with
      exactly when that payload has not expired; `exp` equal to the current
      second is still valid, and an `exp` of zero never expires. */
  lemma {:induction false} VerifyIssuedToken(p: Platform, userId: int, email: string, secret: string,
                                             issuedMs: int, expiresIn: int, nowMs: int)
    requires TokenLaws(p)
    requires GenerateToken(p, userId, email, secret, issuedMs, expiresIn).Ok?
    ensures var c := Claims(userId, email, Some(Seconds(issuedMs) + expiresIn));
      VerifyToken(p, Some(GenerateToken(p, userId, email, secret, issuedMs, expiresIn).value), secret, nowMs)
        == if Expired(c, Seconds(nowMs)) then None else Some(c)
  {
    var c := Claims(userId, email, Some(Seconds(issuedMs) + expiresIn));
    assert Latin1(HeaderJson);
    var h := p.btoa(HeaderJson);
    var pl := p.btoa(p.stringifyClaims(c));
    assert '.' !in h && '.' !in pl;
    ThreePiecesSplit(h, pl, Signature(p, h, pl, secret));
    var token := h + "." + pl + "." + Signature(p, h, pl, secret);
    assert GenerateToken(p, userId, email, secret, issuedMs, expiresIn).value == token;
    assert token != "";
    assert p.atob(pl) == Some(p.stringifyClaims(c));
  }

  /** The default lifetime: a token verifies for its whole seven days,
      up to and including its expiry second, and not a second longer. */
  lemma DefaultLifetime(p: Platform, userId: int, email: string, secret: string, issuedMs: int, nowMs: int)
    requires TokenLaws(p)
    requires GenerateToken(p, userId, email, secret, issuedMs).Ok?
    requires Seconds(issuedMs) + DefaultExpiresIn != 0
    ensures VerifyToken(p, Some(GenerateToken(p, userId, email, secret, issuedMs).value), secret, nowMs).Some?
        <==> Seconds(nowMs) <= Seconds(issuedMs) + 604800
  {
    VerifyIssuedToken(p, userId, email, secret, issuedMs, DefaultExpiresIn, nowMs);
  }

  /** A three-piece token whose last piece is not exactly the recomputed
      signature is refused, whatever its payload. */
  lemma TamperedSignatureRejected(p: Platform, h: string, pl: string, sig: string, secret: string, nowMs: int)
    requires '.' !in h && '.' !in pl && '.' !in sig
    requires sig != Signature(p, h, pl, secret)
    ensures VerifyToken(p, Some(h + "." + pl + "." + sig), secret, nowMs).None?
  {
    ThreePiecesSplit(h, pl, sig);
  }

  /** `TokenService.extractTokenFromRequest`: the text after `Bearer ` in
      the Authorization header, when the header starts with it. */
  function ExtractTokenFromRequest(req: Request): (t: Option<string>)
    ensures t.Some? <==> GetHeader(req, "Authorization").Some? && StartsWith(GetHeader(req, "Authorization").value, "Bearer ")
    ensures t.Some? ==> GetHeader(req, "Authorization").value == "Bearer " + t.value
  {
    var header := GetHeader(req, "Authorization");
    if !Truthy(header) || !StartsWith(header.value, "Bearer ") then None
    else
      assert header.value == header.value[..7] + header.value[7..];
      Some(header.value[7..])
  }

  /** The public fields `verifyRequestAndGetUser` selects. */
  datatype PublicUser = PublicUser(id: int, email: string, createdAt: string)

  datatype UserCheck = Valid(user: PublicUser) | Invalid(message: string, status: int)

  /** `TokenService.verifyRequestAndGetUser(request, env)`: token first,
      then signature and expiry, then the user row. */
  function VerifyRequestAndGetUser(p: Platform, req: Request, secret: string, db: Db): (r: UserCheck)
    ensures !Truthy(ExtractTokenFromRequest(req)) ==> r == Invalid("缺少认证令牌", 401)
    ensures (Truthy(ExtractTokenFromRequest(req)) && VerifyToken(p, ExtractTokenFromRequest(req), secret, req.now).None?)
              ==> r == Invalid("无效的认证令牌", 401)
    ensures r.Valid? ==>
              var c := VerifyToken(p, ExtractTokenFromRequest(req), secret, req.now);
              && c.Some? && db.up
              && exists u :: u in db.users && u.id == c.value.id && r.user == PublicUser(u.id, u.email, u.createdAt)
    ensures r.Invalid? && r.status == 404 ==> r.message == "用户不存在"
    ensures Truthy(ExtractTokenFromRequest(req)) && VerifyToken(p, ExtractTokenFromRequest(req), secret, req.now).Some? ==>
              var c := VerifyToken(p, ExtractTokenFromRequest(req), secret, req.now).value;
              && (!db.up ==> r == Invalid("Token verification failed", 500))
              && (db.up && UserById(db.users, c.id).None? ==> r == Invalid("用户不存在", 404))
              && (db.up && UserById(db.users, c.id).Some? ==>
                    var u := UserById(db.users, c.id).value;
                    r == Valid(PublicUser(u.id, u.email, u.createdAt)))
  {
    var token := ExtractTokenFromRequest(req);
    if !Truthy(token) then Invalid("缺少认证令牌", 401)
    else
      match VerifyToken(p, token, secret, req.now)
      case None => Invalid("无效的认证令牌", 401)
      case Some(c) =>
        if !db.up then Invalid("Token verification failed", 500)
        else
          match UserById(db.users, c.id)
          case None => Invalid("用户不存在", 404)
          case Some(u) => Valid(PublicUser(u.id, u.email, u.createdAt))
  }
}
