/** The parts of the JavaScript runtime the worker calls but whose internals
    are not modelled: base64 (`btoa`/`atob`), JSON serialisation of the
    token payload, HMAC-SHA256 and PBKDF2 from WebCrypto, the WHATWG URL
    parser behind `sanitizeUrl`, and `decodeURIComponent`. Each is a field
    of `Platform`; the laws the proofs rely on are stated as predicates over
    it and are only ever assumed through `requires`. */
module Platform {
  import opened Base

  /** The 16 bytes `crypto.getRandomValues(new Uint8Array(16))` yields. */
  type Salt = s: seq<Byte> | |s| == 16 witness seq(16, i => 0)

  /** The token payload `{id, email, exp}`; `exp` is in Unix seconds and may
      be absent in a token that was not produced by `generateToken`. */
  datatype Claims = Claims(id: int, email: string, exp: Option<int>)

  datatype Platform = Platform(
    /** `btoa` on a binary string (standard alphabet, section 4 of RFC 4648). */
    btoa: string -> string,
    /** `atob`; `None` when it throws (not valid base64). */
    atob: string -> Option<string>,
    /** `JSON.stringify` of a token payload. */
    stringifyClaims: Claims -> string,
    /** `JSON.parse` of a token payload; `None` when it throws or does not
        describe a payload object. */
    parseClaims: string -> Option<Claims>,
    /** The raw HMAC-SHA256 tag (RFC 2104): key first, message second. */
    hmac: (string, string) -> seq<Byte>,
    /** PBKDF2-HMAC-SHA256 (section 5.2 of RFC 8018), 100000 iterations,
        256 bits, of a password with a salt. */
    pbkdf2: (string, seq<Byte>) -> seq<Byte>,
    /** `SecurityUtils.sanitizeUrl`: the WHATWG URL parser, the http/https
        scheme check and credential stripping; `None` when it returns null. */
    sanitizeUrl: string -> Option<string>,
    /** `decodeURIComponent`; `None` when it throws a URIError. */
    decodeUri: string -> Option<string>
  )

  /** `atob` inverts `btoa` on binary strings. */
  ghost predicate Base64RoundTrips(p: Platform) {
    forall s :: Latin1(s) ==> p.atob(p.btoa(s)) == Some(s)
  }

  /** The base64 alphabet has no `.`. */
  ghost predicate Base64HasNoDot(p: Platform) {
    forall s :: Latin1(s) ==> '.' !in p.btoa(s)
  }

  /** `atob` always produces a binary string. */
  ghost predicate Base64DecodesToBinary(p: Platform) {
    forall t :: p.atob(t).Some? ==> Latin1(p.atob(t).value)
  }

  /** `JSON.parse` inverts `JSON.stringify` on payloads. */
  ghost predicate JsonRoundTrips(p: Platform) {
    forall c :: p.parseClaims(p.stringifyClaims(c)) == Some(c)
  }

  /** `deriveBits(..., 256)` yields 32 bytes. */
  ghost predicate DerivesThirtyTwoBytes(p: Platform) {
    forall pw, salt :: |p.pbkdf2(pw, salt)| == 32
  }

  /** Whether the JSON text of a payload is a binary string depends only on
      its e-mail: the id and `exp` render as ASCII digits. */
  ghost predicate ClaimsTextBinaryByEmail(p: Platform) {
    forall c1: Claims, c2: Claims ::
      c1.email == c2.email ==> (Latin1(p.stringifyClaims(c1)) <==> Latin1(p.stringifyClaims(c2)))
  }

  /** The laws the token codec round trip needs. */
  ghost predicate TokenLaws(p: Platform) {
    Base64RoundTrips(p) && Base64HasNoDot(p) && JsonRoundTrips(p)
  }

  /** The laws the password hash round trip needs. */
  ghost predicate HashLaws(p: Platform) {
    Base64RoundTrips(p) && Base64DecodesToBinary(p) && DerivesThirtyTwoBytes(p)
  }
}
