/** worker/src/middleware.js: the `withAuth` gate, the required-field
    check, and the e-mail and password-length validators (the copies in
    worker/src/controllers.js behave the same, except for the wording of
    the required-field message). */
module Middleware {
  import opened Base
  import opened Platform
  import opened Http
  import opened Errors
  import Token

  // ---------------------------------------------------------------------
  // withAuth

  /** What `withAuth(handler)` does before calling `handler`: the request
      with `user` set to the decoded payload, or the `AuthenticationError`
      it throws. Only the token is consulted: the user store is not a
      parameter. */
  function Authenticate(p: Platform, req: Request, secret: string): (r: Result<Request, Thrown>)
    ensures !Truthy(Token.ExtractTokenFromRequest(req)) ==> r == Err(AuthenticationError("缺少认证令牌"))
    ensures Truthy(Token.ExtractTokenFromRequest(req))
            && Token.VerifyToken(p, Token.ExtractTokenFromRequest(req), secret, req.now).None?
            ==> r == Err(AuthenticationError("无效的认证令牌"))
    ensures r.Ok? <==> Token.VerifyToken(p, Token.ExtractTokenFromRequest(req), secret, req.now).Some?
    ensures r.Ok? ==> r.value == req.(user := Token.VerifyToken(p, Token.ExtractTokenFromRequest(req), secret, req.now))
  {
    var token := Token.ExtractTokenFromRequest(req);
    if !Truthy(token) then Err(AuthenticationError("缺少认证令牌"))
    else
      match Token.VerifyToken(p, token, secret, req.now)
      case None => Err(AuthenticationError("无效的认证令牌"))
      case Some(c) => Ok(req.(user := Some(c)))
  }

  /** A request without a bearer token is answered 401 and never reaches
      the handler; a request whose token verifies reaches it with the
      payload as `user`. */
  lemma AuthenticateOutcomes(p: Platform, req: Request, secret: string)
    ensures GetHeader(req, "Authorization").None? ==>
              WithErrorHandling(Threw(Authenticate(p, req, secret).error)).reply.response
                == CreateErrorResponse("缺少认证令牌", 401)
    ensures Authenticate(p, req, secret).Ok? ==> Authenticate(p, req, secret).value.user.Some?
  {
  }

  // ---------------------------------------------------------------------
  // required fields

  /** The fields of `fields`, in order, that are missing or empty in `data`
      (`!data[field]` for string values). */
  function Missing(data: map<string, string>, fields: seq<string>): (m: seq<string>)
    ensures forall f :: f in m <==> f in fields && !(f in data && data[f] != "")
    ensures |m| <= |fields|
    decreases |fields|
  {
    if |fields| == 0 then []
    else
      var f := fields[0];
      (if f in data && data[f] != "" then [] else [f]) + Missing(data, fields[1..])
  }

  /** The missing fields keep their order: the missing fields of a
      concatenation are those of each part, concatenated. */
  lemma {:induction false} MissingAppend(data: map<string, string>, a: seq<string>, b: seq<string>)
    ensures Missing(data, a + b) == Missing(data, a) + Missing(data, b)
    decreases |a|
  {
    if |a| == 0 {
      assert a + b == b;
    } else {
      assert (a + b)[1..] == a[1..] + b;
      MissingAppend(data, a[1..], b);
    }
  }

  /** `{ valid, errors }`; `errors` is absent (empty here) when valid. */
  datatype Validation = Validation(valid: bool, errors: seq<string>)

  /** One message per missing field, built by `message`. */
  function Messages(fields: seq<string>, message: string -> string): (r: seq<string>)
    ensures |r| == |fields|
    ensures forall k :: 0 <= k < |fields| ==> r[k] == message(fields[k])
  {
    seq(|fields|, k requires 0 <= k < |fields| => message(fields[k]))
  }

  /** The required-field scan both copies of `validateRequestBody` run:
      valid when nothing is missing, otherwise one `message` per missing
      field, in list order. */
  function CheckRequired(data: map<string, string>, fields: seq<string>, message: string -> string): (r: Validation)
    ensures r.valid <==> forall f :: f in fields ==> f in data && data[f] != ""
    ensures r.errors == Messages(Missing(data, fields), message)
  {
    var missing := Missing(data, fields);
    assert |missing| != 0 ==> missing[0] in missing;
    Validation(|missing| == 0, Messages(missing, message))
  }

  /** `validateRequestBody(data, requiredFields)` of worker/src/middleware.js. */
  function ValidateRequestBody(data: map<string, string>, fields: seq<string>): (r: Validation)
    ensures r.valid <==> forall f :: f in fields ==> f in data && data[f] != ""
    ensures r.errors == Messages(Missing(data, fields), f => f + "不能为空")
  {
    CheckRequired(data, fields, f => f + "不能为空")
  }

  /** One field present, one missing: one message, for the missing one. */
  lemma OneMissing()
    ensures ValidateRequestBody(map["email" := "a"], ["email", "password"]).errors == ["password不能为空"]
  {
    assert ["email", "password"][1..] == ["password"];
    var d := map["email" := "a"];
    assert Missing(d, ["password"]) == ["password"];
    assert Missing(d, ["email", "password"]) == ["password"];
    var e' := ValidateRequestBody(d, ["email", "password"]).errors;
    assert |e'| == 1 && e'[0] == "password" + "不能为空";
    assert "password" + "不能为空" == "password不能为空";
    assert e' == [e'[0]];
  }

  // ---------------------------------------------------------------------
  // e-mail and password

  /** `/^[^\s@]+@[^\s@]+\.[^\s@]+$/.test(s)`, stated over positions: one
      `@` with at least one character before it, a `.` with at least one
      character on each side between it and the end, and no white space and
      no other `@` anywhere. */
  ghost predicate EmailPattern(s: string) {
    exists i, j ::
      && 0 < i && i + 1 < j && j + 1 < |s|
      && s[i] == '@' && s[j] == '.'
      && forall k :: 0 <= k < |s| && k != i ==> s[k] != '@' && !IsJsSpace(s[k])
  }

  /** Position of the first `c` in `s`, or `|s|`. */
  function IndexOf(s: string, c: char): (n: nat)
    ensures n <= |s|
    ensures n < |s| ==> s[n] == c
    ensures forall k :: 0 <= k < n ==> s[k] != c
    decreases |s|
  {
    if |s| == 0 then 0 else if s[0] == c then 0 else 1 + IndexOf(s[1..], c)
  }

  /** The e-mail check as a scan: the first `@` is not at the start, there
      is no second one, a `.` sits strictly inside what follows it, and no
      character is white space. */
  predicate IsValidEmail(s: string) {
    var i := IndexOf(s, '@');
    && 0 < i && i + 2 <= |s| - 1
    && '@' !in s[i + 1..]
    && '.' in s[i + 2..|s| - 1]
    && forall k :: 0 <= k < |s| ==> !IsJsSpace(s[k])
  }

  /** The scan accepts exactly the strings the regular expression matches. */
  lemma EmailScanMatchesPattern(s: string)
    ensures IsValidEmail(s) <==> EmailPattern(s)
  {
    if IsValidEmail(s) {
      var i := IndexOf(s, '@');
      var t := s[i + 2..|s| - 1];
      var d := IndexOf(t, '.');
      var j := i + 2 + d;
      assert s[j] == t[d];
      forall k | 0 <= k < |s| && k != i
        ensures s[k] != '@'
      {
        if k > i {
          assert s[k] == s[i + 1..][k - i - 1];
        }
      }
      assert 0 < i && i + 1 < j && j + 1 < |s| && s[i] == '@' && s[j] == '.';
    }
    if EmailPattern(s) {
      var i, j :| && 0 < i && i + 1 < j && j + 1 < |s|
                  && s[i] == '@' && s[j] == '.'
                  && forall k :: 0 <= k < |s| && k != i ==> s[k] != '@' && !IsJsSpace(s[k]);
      assert IndexOf(s, '@') == i;
      assert s[i + 2..|s| - 1][j - i - 2] == '.';
      var u := s[i + 1..];
      forall k | 0 <= k < |u|
        ensures u[k] != '@'
      {
        assert u[k] == s[i + 1 + k];
      }
    }
  }

  lemma EmailExamples()
    ensures IsValidEmail("a@b.c")
    ensures !IsValidEmail("a@b")
    ensures !IsValidEmail("a@@b.c")
    ensures !IsValidEmail("@b.c")
  {
    assert IndexOf("a@b.c", '@') == 1;
    assert "a@b.c"[3..4] == ".";
    assert IndexOf("a@@b.c", '@') == 1;
    assert "a@@b.c"[2] == '@';
    assert IndexOf("@b.c", '@') == 0;
  }

  /** `isValidPassword(password, minLength = 6)`. */
  predicate IsValidPassword(password: string, minLength: int := 6) {
    |password| >= minLength
  }

  /** A password long enough for a minimum length is long enough for any
      smaller one; five characters fail the default and six pass it. */
  lemma PasswordLengthMonotone(password: string, lo: int, hi: int)
    requires lo <= hi
    ensures IsValidPassword(password, hi) ==> IsValidPassword(password, lo)
    ensures !IsValidPassword("12345") && IsValidPassword("123456")
  {
  }
}
