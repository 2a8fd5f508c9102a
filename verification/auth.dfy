/** worker/src/auth.js: the lowercase hex rendering of an HMAC-SHA256 tag,
    and the salt-plus-derived-key layout of stored password hashes around an
    abstract PBKDF2. */
module Auth {
  import opened Base
  import opened Platform
  import opened Errors

  // ---------------------------------------------------------------------
  // hex rendering

  /** The lowercase hexadecimal digit for a value below 16. */
  function HexDigit(d: nat): (c: char)
    requires d < 16
    ensures '0' <= c <= '9' || 'a' <= c <= 'f'
  {
    if d < 10 then ('0' as int + d) as char else ('a' as int + d - 10) as char
  }

  /** `n.toString(16)`: base-16 digits without leading zeros. */
  function ToBase16(n: nat): (r: string)
    ensures |r| >= 1
    decreases n
  {
    if n < 16 then [HexDigit(n)] else ToBase16(n / 16) + [HexDigit(n % 16)]
  }

  /** `s.padStart(width, c)`. */
  function PadStart(s: string, width: nat, c: char): string {
    if |s| >= width then s else seq(width - |s|, _ => c) + s
  }

  /** One byte as `b.toString(16).padStart(2, '0')`. */
  function ByteToHex(b: Byte): string {
    PadStart(ToBase16(b), 2, '0')
  }

  /** The hex rendering at the end of `hmacSha256`: the bytes' two-digit
      renderings joined with no separator. */
  function Hex(bs: seq<Byte>): string
    decreases |bs|
  {
    if |bs| == 0 then "" else ByteToHex(bs[0]) + Hex(bs[1..])
  }

  /** Every byte renders as exactly two digits, high nibble first. */
  lemma ByteToHexIsTwoDigits(b: Byte)
    ensures ByteToHex(b) == [HexDigit(b / 16), HexDigit(b % 16)]
  {
    if b < 16 {
      assert ToBase16(b) == [HexDigit(b)];
      assert b / 16 == 0;
      assert HexDigit(0) == '0';
    } else {
      assert b / 16 < 16;
      assert ToBase16(b / 16) == [HexDigit(b / 16)];
    }
  }

  /** The value of a lowercase hex digit. */
  function HexValue(c: char): Option<nat> {
    if '0' <= c <= '9' then Some(c as int - '0' as int)
    else if 'a' <= c <= 'f' then Some(c as int - 'a' as int + 10)
    else None
  }

  /** Reads a hex rendering back into bytes. */
  function FromHex(s: string): Option<seq<Byte>>
    decreases |s|
  {
    if |s| == 0 then Some([])
    else if |s| == 1 then None
    else
      match (HexValue(s[0]), HexValue(s[1]), FromHex(s[2..]))
      case (Some(hi), Some(lo), Some(rest)) =>
        if hi < 16 && lo < 16 then Some([hi * 16 + lo] + rest) else None
      case _ => None
  }

  predicate IsLowerHex(s: string) {
    forall i :: 0 <= i < |s| ==> ('0' <= s[i] <= '9' || 'a' <= s[i] <= 'f')
  }

  /** The rendering has two characters per byte, all in `[0-9a-f]`, and
      reading it back gives the bytes. */
  lemma {:induction false} HexRoundTrip(bs: seq<Byte>)
    ensures |Hex(bs)| == 2 * |bs|
    ensures IsLowerHex(Hex(bs))
    ensures FromHex(Hex(bs)) == Some(bs)
    decreases |bs|
  {
    if |bs| > 0 {
      HexRoundTrip(bs[1..]);
      ByteToHexIsTwoDigits(bs[0]);
      var h := Hex(bs);
      var b := bs[0];
      assert h == [HexDigit(b / 16), HexDigit(b % 16)] + Hex(bs[1..]);
      assert h[2..] == Hex(bs[1..]);
      assert HexValue(h[0]) == Some(b / 16);
      assert HexValue(h[1]) == Some(b % 16);
      assert [bs[0]] + bs[1..] == bs;
    }
  }

  /** Distinct byte strings render differently. */
  lemma HexInjective(a: seq<Byte>, b: seq<Byte>)
    requires Hex(a) == Hex(b)
    ensures a == b
  {
    HexRoundTrip(a);
    HexRoundTrip(b);
  }

  /** `hmacSha256(message, secret)`: the tag rendered in lowercase hex. */
  function HmacSha256(p: Platform, message: string, secret: string): (sig: string)
    ensures IsLowerHex(sig) && '.' !in sig
    ensures |sig| == 2 * |p.hmac(secret, message)|
  {
    HexRoundTrip(p.hmac(secret, message));
    Hex(p.hmac(secret, message))
  }

  // ---------------------------------------------------------------------
  // password hashes

  /** The RangeError `Uint8Array.prototype.set` throws when the source does
      not fit at the offset. The exact wording is the engine's. */
  const OffsetOutOfBounds := OtherError("offset is out of bounds", None)

  /** `target.set(source, offset)`. */
  function TypedArraySet(target: seq<Byte>, source: seq<Byte>, offset: nat): (r: Result<seq<Byte>, Thrown>)
    ensures r.Ok? <==> offset + |source| <= |target|
    ensures r.Ok? ==>
              && |r.value| == |target|
              && r.value[offset..offset + |source|] == source
              && r.value[..offset] == target[..offset]
              && r.value[offset + |source|..] == target[offset + |source|..]
  {
    if offset + |source| <= |target| then Ok(target[..offset] + source + target[offset + |source|..])
    else Err(OffsetOutOfBounds)
  }

  /** `String.fromCharCode.apply(null, bytes)`. */
  function BytesToBinary(bs: seq<Byte>): (s: string)
    ensures |s| == |bs| && Latin1(s)
  {
    seq(|bs|, i requires 0 <= i < |bs| => bs[i] as char)
  }

  /** `new Uint8Array(s.split('').map(c => c.charCodeAt(0)))`: each code
      unit is reduced modulo 256. */
  function BinaryToBytes(s: string): (bs: seq<Byte>)
    ensures |bs| == |s|
  {
    seq(|s|, i requires 0 <= i < |s| => (s[i] as int) % 256)
  }

  lemma BinaryRoundTrip(bs: seq<Byte>)
    ensures BinaryToBytes(BytesToBinary(bs)) == bs
  {
  }

  /** The layout both hash functions fill: `size` zero bytes, then the salt at
      offset 0 and the derived key at offset `|salt|`. */
  function Layout(p: Platform, password: string, salt: Salt, size: nat): Result<string, Thrown> {
    var derived := p.pbkdf2(password, salt);
    match TypedArraySet(seq(size, _ => 0), salt, 0)
    case Err(e) => Err(e)
    case Ok(withSalt) =>
      match TypedArraySet(withSalt, derived, |salt|)
      case Err(e) => Err(e)
      case Ok(combined) => Ok(p.btoa(BytesToBinary(combined)))
  }

  /** `hashPassword` as written: the combined buffer is sized
      `salt.length + derivedBits.byteLength / 8`. */
  function HashPasswordAsWritten(p: Platform, password: string, salt: Salt): Result<string, Thrown> {
    Layout(p, password, salt, |salt| + |p.pbkdf2(password, salt)| / 8)
  }

  /** As written, writing the 32 derived bytes at offset 16 of a 20-byte
      buffer throws, so no password can ever be hashed. */
  lemma HashPasswordAsWrittenAlwaysThrows(p: Platform, password: string, salt: Salt)
    requires DerivesThirtyTwoBytes(p)
    ensures HashPasswordAsWritten(p, password, salt) == Err(OffsetOutOfBounds)
  {
    assert |p.pbkdf2(password, salt)| == 32;
  }

  /** `hashPassword` with the buffer sized `salt.length + byteLength`: the
      salt followed by the derived key, base64-encoded. */
  function HashPassword(p: Platform, password: string, salt: Salt): (r: Result<string, Thrown>)
    ensures r.Ok?
    ensures r.value == p.btoa(BytesToBinary(salt + p.pbkdf2(password, salt)))
  {
    var derived := p.pbkdf2(password, salt);
    var size := |salt| + |derived|;
    var withSalt := TypedArraySet(seq(size, _ => 0), salt, 0);
    assert withSalt.Ok?;
    var combined := TypedArraySet(withSalt.value, derived, |salt|);
    assert combined.Ok?;
    assert combined.value[..|salt|] == withSalt.value[..|salt|] == salt;
    assert combined.value[|salt|..] == combined.value[|salt|..|salt| + |derived|] == derived;
    assert combined.value == combined.value[..|salt|] + combined.value[|salt|..];
    assert Layout(p, password, salt, size) == Ok(p.btoa(BytesToBinary(combined.value)));
    Layout(p, password, salt, size)
  }

  /** The loop at the end of `verifyPassword`: lengths first, then byte by
      byte, stopping at the first difference. */
  method CompareHashes(stored: seq<Byte>, computed: seq<Byte>) returns (equal: bool)
    ensures equal <==> stored == computed
  {
    if |stored| != |computed| {
      return false;
    }
    var i := 0;
    while i < |stored|
      invariant 0 <= i <= |stored|
      invariant stored[..i] == computed[..i]
    {
      if stored[i] != computed[i] {
        return false;
      }
      i := i + 1;
    }
    assert stored == stored[..i] && computed == computed[..i];
    return true;
  }

  /** `verifyPassword(password, hash)`: the first 16 decoded bytes are the
      salt, the rest the stored key; an undecodable hash gives false. */
  function VerifyPassword(p: Platform, password: string, hash: string): (ok: bool)
    ensures p.atob(hash).None? ==> !ok
  {
    match p.atob(hash)
    case None => false
    case Some(binary) =>
      var combined := BinaryToBytes(binary);
      var cut := if |combined| < 16 then |combined| else 16;
      var salt := combined[..cut];
      var stored := combined[cut..];
      stored == p.pbkdf2(password, salt)
  }

  /** A hash built by `HashPassword` verifies for a password exactly when
      that password derives the same key under the stored salt; in
      particular it verifies for the password it was built from. */
  lemma VerifyPasswordOfHash(p: Platform, password: string, candidate: string, salt: Salt)
    requires HashLaws(p)
    ensures VerifyPassword(p, candidate, HashPassword(p, password, salt).value)
      <==> p.pbkdf2(candidate, salt) == p.pbkdf2(password, salt)
    ensures VerifyPassword(p, password, HashPassword(p, password, salt).value)
  {
    var bytes := salt + p.pbkdf2(password, salt);
    var bin := BytesToBinary(bytes);
    assert p.atob(p.btoa(bin)) == Some(bin);
    BinaryRoundTrip(bytes);
    assert |bytes| >= 16;
    assert bytes[..16] == salt;
    assert bytes[16..] == p.pbkdf2(password, salt);
  }
}
