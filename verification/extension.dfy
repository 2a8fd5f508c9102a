/** The extension's shared error handling (extension/shared/errorHandler.js)
    and its HTML escaper (extension/shared/utils.js): the client-side error
    classes, the normalisation of whatever an API call threw into an
    `ApiError`, the notification each error produces, the form validator,
    and `escapeHtml`. */
module Extension {
  import opened Base
  import opened Http
  import Security
  import Middleware

  // ---------------------------------------------------------------------
  // error classes

  /** `ErrorType`. */
  datatype ErrorKind = NetworkKind | ApiKind | ValidationKind | AuthKind | UnknownKind

  function KindName(k: ErrorKind): string {
    match k
    case NetworkKind => "NETWORK_ERROR"
    case ApiKind => "API_ERROR"
    case ValidationKind => "VALIDATION_ERROR"
    case AuthKind => "AUTH_ERROR"
    case UnknownKind => "UNKNOWN_ERROR"
  }

  /** `ErrorSeverity`. */
  datatype Severity = Info | Warning | Error

  function SeverityName(s: Severity): string {
    match s
    case Info => "info"
    case Warning => "warning"
    case Error => "error"
  }

  /** The class an error object was constructed with; `instanceof` tests it. */
  datatype ErrorClass = AppErrorClass | NetworkErrorClass | ApiErrorClass | ValidationErrorClass | AuthErrorClass

  /** An instance of `AppError` or one of its subclasses; only an `ApiError`
      has a `status`. */
  datatype ClientError = ClientError(cls: ErrorClass, name: string, message: string, kind: ErrorKind,
                                     severity: Severity, status: Option<int>)

  /** `new AppError(message, type, severity)` with the source's defaults. */
  function NewAppError(message: string, kind: ErrorKind := UnknownKind, severity: Severity := Error): ClientError {
    ClientError(AppErrorClass, "AppError", message, kind, severity, None)
  }

  function NetworkError(message: string := "网络连接失败"): ClientError {
    ClientError(NetworkErrorClass, "NetworkError", message, NetworkKind, Error, None)
  }

  function ApiError(message: string, status: int := 500): ClientError {
    ClientError(ApiErrorClass, "ApiError", message, ApiKind, Error, Some(status))
  }

  function ValidationError(message: string): ClientError {
    ClientError(ValidationErrorClass, "ValidationError", message, ValidationKind, Warning, None)
  }

  function AuthError(message: string := "认证失败"): ClientError {
    ClientError(AuthErrorClass, "AuthError", message, AuthKind, Warning, None)
  }

  /** The classes' types, severities and defaults: validation and
      authentication problems are warnings, network and API failures are
      errors, and an `ApiError` without a status carries 500. */
  lemma ErrorClassDefaults(m: string)
    ensures ValidationError(m).severity == Warning && KindName(ValidationError(m).kind) == "VALIDATION_ERROR"
    ensures AuthError(m).severity == Warning && KindName(AuthError(m).kind) == "AUTH_ERROR"
    ensures NetworkError(m).severity == Error && KindName(NetworkError(m).kind) == "NETWORK_ERROR"
    ensures ApiError(m).severity == Error && ApiError(m).status == Some(500) && KindName(ApiError(m).kind) == "API_ERROR"
    ensures NewAppError(m).severity == Error && KindName(NewAppError(m).kind) == "UNKNOWN_ERROR"
    ensures AuthError().message == "认证失败" && NetworkError().message == "网络连接失败"
  {
  }

  // ---------------------------------------------------------------------
  // what a call can throw

  /** A value caught in a `catch`: a falsy value (`null`, `undefined`, ...),
      one of the classes above, or any other error object with its
      `message` ("" when it has none), whether it is a `TypeError`, and its
      `status` property. */
  datatype Caught =
    | Falsy
    | Raised(error: ClientError)
    | Foreign(typeError: bool, message: string, status: Option<int>)

  predicate IsApiError(e: ClientError) {
    e.cls == ApiErrorClass
  }

  /** `error.status || 500`: an absent or zero status reads as 500. */
  function StatusOr500(status: Option<int>): (s: int)
    ensures s != 0
  {
    if status.Some? && status.value != 0 then status.value else 500
  }

  /** The message and status the third branch of `handleApiError` reads. */
  function MessageOf(e: Caught): string {
    match e
    case Falsy => ""
    case Raised(err) => err.message
    case Foreign(_, message, _) => message
  }

  function StatusOf(e: Caught): Option<int> {
    match e
    case Falsy => None
    case Raised(err) => err.status
    case Foreign(_, _, status) => status
  }

  /** `ErrorHandler.handleApiError(error)`. */
  function HandleApiError(e: Caught): (r: ClientError)
    ensures IsApiError(r)
    ensures e.Falsy? ==> r == ApiError("未知错误")
    ensures e.Raised? && IsApiError(e.error) ==> r == e.error
    ensures !e.Falsy? && !(e.Raised? && IsApiError(e.error)) ==>
              && r.severity == Error && r.kind == ApiKind
              && r.status == Some(if MessageOf(e) != "" then StatusOr500(StatusOf(e)) else 500)
              && r.message == if MessageOf(e) != "" then MessageOf(e) else "API请求失败"
  {
    match e
    case Falsy => ApiError("未知错误")
    case Raised(err) =>
      if IsApiError(err) then err
      else if err.message != "" then ApiError(err.message, StatusOr500(err.status))
      else ApiError("API请求失败")
    case Foreign(_, message, status) =>
      if message != "" then ApiError(message, StatusOr500(status)) else ApiError("API请求失败")
  }

  /** Normalising twice is normalising once: what `handleApiError` returns
      is an `ApiError`, which it passes through. */
  lemma HandleApiErrorIdempotent(e: Caught)
    ensures HandleApiError(Raised(HandleApiError(e))) == HandleApiError(e)
  {
  }

  // ---------------------------------------------------------------------
  // notifications

  /** A `showNotification(message, severity)` call. */
  datatype Notice = Notice(message: string, severity: Severity)

  const FetchFailedNotice := Notice("网络连接失败，请检查网络设置", Error)
  const UnknownNotice := Notice("发生未知错误，请稍后重试", Error)

  /** `ErrorHandler.handleError(error)`: the notification it shows. */
  function HandleError(e: Caught): (n: Notice)
    ensures e.Raised? ==> n == Notice(e.error.message, e.error.severity)
    ensures !e.Raised? ==> n.severity == Error
    ensures e.Foreign? && e.typeError && Includes(e.message, "Failed to fetch") ==> n == FetchFailedNotice
    ensures n == FetchFailedNotice && !e.Raised? ==> e.Foreign? && e.typeError && Includes(e.message, "Failed to fetch")
  {
    match e
    case Raised(err) => Notice(err.message, err.severity)
    case Foreign(typeError, message, _) =>
      if typeError && Includes(message, "Failed to fetch") then FetchFailedNotice else UnknownNotice
    case Falsy => UnknownNotice
  }

  /** How the promise an API call returns settles. */
  datatype Settled<T> = Fulfilled(value: T) | Rejected(reason: Caught)

  /** What `handleApiCall` does with it: the value it resolves to or the
      error it rethrows, and the notification it shows on the way. */
  datatype CallResult<T> = CallResult(result: Result<T, ClientError>, notice: Option<Notice>)

  /** `ErrorHandler.handleApiCall(apiCall, errorMessage)`; `errorMessage`
      is never read. */
  function HandleApiCall<T>(call: Settled<T>, errorMessage: string := "操作失败"): (r: CallResult<T>)
    ensures call.Fulfilled? <==> r.result.Ok?
    ensures call.Fulfilled? ==> r == CallResult(Ok(call.value), None)
    ensures call.Rejected? ==> r.result == Err(HandleApiError(call.reason))
    ensures call.Rejected? ==> r.notice == Some(Notice(r.result.error.message, r.result.error.severity))
    ensures call.Rejected? && !(call.reason.Raised? && IsApiError(call.reason.error)) ==> r.notice.value.severity == Error
  {
    match call
    case Fulfilled(v) => CallResult(Ok(v), None)
    case Rejected(reason) =>
      var apiError := HandleApiError(reason);
      CallResult(Err(apiError), Some(HandleError(Raised(apiError))))
  }

  // ---------------------------------------------------------------------
  // the form validator

  /** `rule.type`: the three checked types, or any other (truthy) name,
      which no case of the `switch` handles. */
  datatype FieldType = EmailField | UrlField | PasswordField | OtherField(name: string)

  /** What a custom validator returns: `true`, or anything else; a
      `Reject("")` is a falsy result. */
  datatype Verdict = Accept | Reject(message: string)

  /** One entry of `rules`. An absent `label` is `""` and an absent
      `minLength` is `0`, as both are falsy where they are read. */
  datatype FieldRule = FieldRule(required: bool, labelText: string, kind: Option<FieldType>, minLength: int,
                                 validator: Option<string -> Verdict>)

  datatype FormCheck = FormCheck(valid: bool, errors: seq<string>)

  /** `rule.label || field`. */
  function Label(field: string, rule: FieldRule): string {
    if rule.labelText != "" then rule.labelText else field
  }

  /** `rule.minLength || 6`. */
  function MinLength(rule: FieldRule): int {
    if rule.minLength != 0 then rule.minLength else 6
  }

  /** `!value || value.trim() === ''`: missing, empty or all white space. */
  predicate Blank(value: Option<string>) {
    value.None? || value.value == "" || Trim(value.value) == ""
  }

  /** The e-mail check is the worker's regular expression. */
  predicate IsValidEmail(s: string) {
    Middleware.IsValidEmail(s)
  }

  /** The errors one field contributes, as the checks are described: a blank
      field gets the required-field error or nothing; any other value gets
      the error of its type check, then the error of its validator. */
  function FieldErrors(field: string, rule: FieldRule, value: Option<string>, urlParses: string -> bool): (es: seq<string>)
    ensures |es| <= 2
    ensures Blank(value) && rule.required ==> es == [Label(field, rule) + "不能为空"]
    ensures Blank(value) && !rule.required ==> es == []
    ensures !Blank(value) ==> (es == [] <==>
      TypeErrors(Label(field, rule), rule, value.value, urlParses) == [] && VerdictErrors(Label(field, rule), rule, value.value) == [])
  {
    var name := Label(field, rule);
    if Blank(value) then
      if rule.required then [name + "不能为空"] else []
    else
      TypeErrors(name, rule, value.value, urlParses) + VerdictErrors(name, rule, value.value)
  }

  function TypeErrors(name: string, rule: FieldRule, value: string, urlParses: string -> bool): (es: seq<string>)
    ensures |es| <= 1
    ensures rule.kind == Some(EmailField) ==> (es == [] <==> IsValidEmail(value))
    ensures rule.kind == Some(UrlField) ==> (es == [] <==> urlParses(value))
    ensures rule.kind == Some(PasswordField) ==> (es == [] <==> |value| >= MinLength(rule))
    ensures rule.kind.None? || rule.kind.value.OtherField? ==> es == []
  {
    match rule.kind
    case Some(EmailField) => if IsValidEmail(value) then [] else [name + "格式不正确"]
    case Some(UrlField) => if urlParses(value) then [] else [name + "格式不正确"]
    case Some(PasswordField) =>
      if |value| < MinLength(rule) then [name + "长度不能少于" + IntToString(MinLength(rule)) + "位"] else []
    case _ => []
  }

  function VerdictErrors(name: string, rule: FieldRule, value: string): (es: seq<string>)
    ensures |es| <= 1
    ensures es == [] <==> rule.validator.None? || rule.validator.value(value).Accept?
    ensures es != [] ==> es[0] == if rule.validator.value(value).message != "" then rule.validator.value(value).message else name + "验证失败"
  {
    if rule.validator.None? then []
    else match rule.validator.value(value)
      case Accept => []
      case Reject(m) => [if m != "" then m else name + "验证失败"]
  }

  /** The value `data[field]`: `None` when the form has no such field. */
  function ValueOf(data: map<string, string>, field: string): Option<string> {
    if field in data then Some(data[field]) else None
  }

  /** The errors of the first rules, in rule order. */
  function ErrorsOf(data: map<string, string>, rules: seq<(string, FieldRule)>, urlParses: string -> bool): seq<string>
    decreases |rules|
  {
    if |rules| == 0 then []
    else
      var (field, rule) := rules[|rules| - 1];
      ErrorsOf(data, rules[..|rules| - 1], urlParses) + FieldErrors(field, rule, ValueOf(data, field), urlParses)
  }

  /** The body of the loop in `ErrorHandler.validate` for one field, with
      its `continue`s as early returns. */
  method CheckField(field: string, rule: FieldRule, value: Option<string>, urlParses: string -> bool)
    returns (es: seq<string>)
    ensures es == FieldErrors(field, rule, value, urlParses)
  {
    var name := if rule.labelText != "" then rule.labelText else field;
    es := [];
    if rule.required && (value.None? || value.value == "" || Trim(value.value) == "") {
      es := es + [name + "不能为空"];
      return;
    }
    if value.None? || value.value == "" || Trim(value.value) == "" {
      return;
    }
    var text := value.value;
    if rule.kind.Some? {
      match rule.kind.value {
        case EmailField =>
          if !IsValidEmail(text) {
            es := es + [name + "格式不正确"];
          }
        case UrlField =>
          if !urlParses(text) {
            es := es + [name + "格式不正确"];
          }
        case PasswordField =>
          var least := if rule.minLength != 0 then rule.minLength else 6;
          if |text| < least {
            es := es + [name + "长度不能少于" + IntToString(least) + "位"];
          }
        case OtherField(_) =>
      }
    }
    assert es == TypeErrors(name, rule, text, urlParses);
    if rule.validator.Some? {
      var result := rule.validator.value(text);
      if result != Accept {
        es := es + [if result.message != "" then result.message else name + "验证失败"];
      }
    }
  }

  /** `ErrorHandler.validate(data, rules)`; `urlParses` stands for `new
      URL(value)` not throwing. */
  method Validate(data: map<string, string>, rules: seq<(string, FieldRule)>, urlParses: string -> bool)
    returns (r: FormCheck)
    ensures r.errors == ErrorsOf(data, rules, urlParses)
    ensures r.valid <==> forall i :: 0 <= i < |rules| ==> FieldErrors(rules[i].0, rules[i].1, ValueOf(data, rules[i].0), urlParses) == []
  {
    var errors: seq<string> := [];
    for i := 0 to |rules|
      invariant errors == ErrorsOf(data, rules[..i], urlParses)
    {
      assert rules[..i + 1][..i] == rules[..i];
      var field := rules[i].0;
      var es := CheckField(field, rules[i].1, ValueOf(data, field), urlParses);
      errors := errors + es;
    }
    assert rules[..|rules|] == rules;
    NoErrorsIffEveryFieldPasses(data, rules, urlParses);
    r := FormCheck(|errors| == 0, errors);
  }

  /** The errors of the last rule follow those of the others. */
  lemma ErrorsOfSnoc(data: map<string, string>, rules: seq<(string, FieldRule)>, urlParses: string -> bool)
    requires |rules| > 0
    ensures var last := rules[|rules| - 1];
      ErrorsOf(data, rules, urlParses)
        == ErrorsOf(data, rules[..|rules| - 1], urlParses) + FieldErrors(last.0, last.1, ValueOf(data, last.0), urlParses)
  {
  }

  /** The form is valid exactly when every field passes on its own. */
  lemma {:induction false} NoErrorsIffEveryFieldPasses(data: map<string, string>, rules: seq<(string, FieldRule)>, urlParses: string -> bool)
    ensures (ErrorsOf(data, rules, urlParses) == [])
              <==> (forall i :: 0 <= i < |rules| ==> FieldErrors(rules[i].0, rules[i].1, ValueOf(data, rules[i].0), urlParses) == [])
    decreases |rules|
  {
    if |rules| > 0 {
      var front := rules[..|rules| - 1];
      var last := rules[|rules| - 1];
      var lastErrors := FieldErrors(last.0, last.1, ValueOf(data, last.0), urlParses);
      ErrorsOfSnoc(data, rules, urlParses);
      NoErrorsIffEveryFieldPasses(data, front, urlParses);
      if ErrorsOf(data, rules, urlParses) == [] {
        assert ErrorsOf(data, front, urlParses) == [] && lastErrors == [];
        forall i | 0 <= i < |rules|
          ensures FieldErrors(rules[i].0, rules[i].1, ValueOf(data, rules[i].0), urlParses) == []
        {
          if i < |front| {
            assert front[i] == rules[i];
          }
        }
      } else if ErrorsOf(data, front, urlParses) != [] {
        var i :| 0 <= i < |front| && FieldErrors(front[i].0, front[i].1, ValueOf(data, front[i].0), urlParses) != [];
        assert front[i] == rules[i];
      } else {
        assert lastErrors != [];
      }
    }
  }

  /** Errors come in rule order: validating two groups of rules yields the
      first group's errors followed by the second's. */
  lemma {:induction false} ErrorsInRuleOrder(data: map<string, string>, a: seq<(string, FieldRule)>, b: seq<(string, FieldRule)>,
                                             urlParses: string -> bool)
    ensures ErrorsOf(data, a + b, urlParses) == ErrorsOf(data, a, urlParses) + ErrorsOf(data, b, urlParses)
    decreases |b|
  {
    if |b| == 0 {
      assert a + b == a;
    } else {
      var b', last := b[..|b| - 1], b[|b| - 1];
      var tail := FieldErrors(last.0, last.1, ValueOf(data, last.0), urlParses);
      assert b == b' + [last];
      assert a + b == (a + b') + [last];
      calc {
        ErrorsOf(data, a + b, urlParses);
        == { ErrorsOfAppendOne(data, a + b', last, urlParses); }
        ErrorsOf(data, a + b', urlParses) + tail;
        == { ErrorsInRuleOrder(data, a, b', urlParses); }
        (ErrorsOf(data, a, urlParses) + ErrorsOf(data, b', urlParses)) + tail;
        ErrorsOf(data, a, urlParses) + (ErrorsOf(data, b', urlParses) + tail);
        == { ErrorsOfAppendOne(data, b', last, urlParses); }
        ErrorsOf(data, a, urlParses) + ErrorsOf(data, b, urlParses);
      }
    }
  }

  lemma ErrorsOfAppendOne(data: map<string, string>, front: seq<(string, FieldRule)>, last: (string, FieldRule),
                          urlParses: string -> bool)
    ensures ErrorsOf(data, front + [last], urlParses)
              == ErrorsOf(data, front, urlParses) + FieldErrors(last.0, last.1, ValueOf(data, last.0), urlParses)
  {
    assert (front + [last])[..|front|] == front;
  }

  /** The login form of the popup: `邮箱` and `密码`, both required, typed
      `email` and `password`. */
  function LoginRules(): seq<(string, FieldRule)> {
    [("email", FieldRule(true, "邮箱", Some(EmailField), 0, None)),
     ("password", FieldRule(true, "密码", Some(PasswordField), 0, None))]
  }

  /** An empty e-mail reports only the required-field error, and a short
      password reports the default minimum of six. */
  lemma LoginFormErrors(email: string, password: string, urlParses: string -> bool)
    requires email == "" && |password| < 6 && password != "" && !IsJsSpace(password[0])
    ensures ErrorsOf(map["email" := email, "password" := password], LoginRules(), urlParses)
              == ["邮箱不能为空", "密码长度不能少于6位"]
  {
    var data := map["email" := email, "password" := password];
    var rules := LoginRules();
    TrimEmptyIffAllSpace(password);
    assert !Blank(ValueOf(data, "password"));
    assert IntToString(6) == "6";
    var pw := rules[1].1;
    assert Label("password", pw) == "密码" && MinLength(pw) == 6;
    assert "密码" + "长度不能少于" + "6" + "位" == "密码长度不能少于6位";
    assert TypeErrors("密码", pw, password, urlParses) == ["密码长度不能少于6位"];
    assert VerdictErrors("密码", pw, password) == [];
    assert FieldErrors("password", pw, ValueOf(data, "password"), urlParses) == ["密码长度不能少于6位"];
    assert Label("email", rules[0].1) == "邮箱";
    assert Blank(ValueOf(data, "email"));
    assert "邮箱" + "不能为空" == "邮箱不能为空";
    assert FieldErrors("email", rules[0].1, ValueOf(data, "email"), urlParses) == ["邮箱不能为空"];
    ErrorsOfSnoc(data, rules, urlParses);
    ErrorsOfSnoc(data, rules[..1], urlParses);
    assert rules[..1][..0] == [];
  }

  // ---------------------------------------------------------------------
  // escaping

  /** `escapeHtml(text)`: the same map and pattern as the worker's
      `sanitizeText`, so the two agree on every string. */
  function EscapeHtml(text: string): (r: string)
    ensures r == Security.SanitizeText(JStr(text))
    ensures '\'' !in r
    ensures |r| == |text| + 5 * Occurrences(text, '\'')
    ensures '\'' !in text ==> r == text
  {
    Security.EscapeRemovesQuotes(text);
    Security.EscapeLength(text);
    assert '\'' !in text ==> Security.Escape(text) == text by {
      if '\'' !in text {
        Security.EscapeFixesQuoteFree(text);
      }
    }
    Security.Escape(text)
  }

  /** The escaper works character by character and in order: it distributes
      over concatenation, and a single character other than `'` is kept. */
  lemma EscapeHtmlByCharacter(a: string, b: string, c: char)
    ensures EscapeHtml(a + b) == EscapeHtml(a) + EscapeHtml(b)
    ensures EscapeHtml([c]) == if c == '\'' then "&#039;" else [c]
  {
    Security.EscapeAppend(a, b);
    assert [c][1..] == [];
    assert Security.Escape([c]) == Security.EscapeChar(c) + Security.Escape([]);
  }
}
