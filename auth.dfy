/** The auth route (`POST /api/auth`): the submitted password and the
    expected secret are both trimmed and compared; on a match the response
    sets the session cookie (section 4.1 of RFC 6265, with the Max-Age
    attribute of section 5.2.2) whose value the posts route requires. */
module Auth {
  import opened Common
  import opened Api
  import opened Bindings
  import Posts
  import opened JsString

  // ---------------------------------------------------------------------
  // The expected secret
  // ---------------------------------------------------------------------

  /** The development fallback secret. */
  const DefaultSecret: string := "admin123"

  /** `request.env?.ADMIN_PASSWORD` (the request's `cf.env` is not
      consulted here). */
  function RequestAdminPassword(ctx: Context): Option<string> {
    if ctx.requestEnv.Some? then ctx.requestEnv.value.adminPassword else None
  }

  /** The places the secret is taken from, in order. */
  function SecretCandidates(ctx: Context): seq<Option<string>> {
    [Truthy(ctx.processEnv.adminPassword), Truthy(ctx.globalAdminPassword), Truthy(RequestAdminPassword(ctx))]
  }

  /** `process.env.ADMIN_PASSWORD || globalThis.ADMIN_PASSWORD ||
      request.env?.ADMIN_PASSWORD || "admin123"`. */
  function ExpectedSecret(ctx: Context): string {
    match FirstSome(SecretCandidates(ctx))
    case Some(s) => s
    case None => DefaultSecret
  }

  /** The secret is the first non-empty configured value, or "admin123"
      when none is configured; it is never empty, and an empty value counts
      as absent. */
  lemma ExpectedSecretChoice(ctx: Context)
    ensures ExpectedSecret(ctx) != ""
    ensures (forall i :: 0 <= i < 3 ==> SecretCandidates(ctx)[i].None?) ==> ExpectedSecret(ctx) == DefaultSecret
    ensures forall i :: 0 <= i < 3 && SecretCandidates(ctx)[i].Some?
                        && (forall j :: 0 <= j < i ==> SecretCandidates(ctx)[j].None?)
                        ==> ExpectedSecret(ctx) == SecretCandidates(ctx)[i].value
    ensures ctx.processEnv.adminPassword.Some? && ctx.processEnv.adminPassword.value != "" ==>
              ExpectedSecret(ctx) == ctx.processEnv.adminPassword.value
  {
    var c := SecretCandidates(ctx);
    forall i | 0 <= i < 3 && c[i].Some? && (forall j :: 0 <= j < i ==> c[j].None?)
      ensures ExpectedSecret(ctx) == c[i].value
    {
      var r := FirstSome(c);
      var k :| 0 <= k < |c| && c[k] == r && forall j :: 0 <= j < k ==> c[j].None?;
      assert k == i;
    }
  }

  // ---------------------------------------------------------------------
  // The session cookie
  // ---------------------------------------------------------------------

  /** Seven days, in seconds. */
  const MaxAge: nat := 60 * 60 * 24 * 7

  /** The cookie's name. */
  const CookieName: string := "auth"

  /** The attributes that follow the cookie-pair, up to the Max-Age value. */
  const SessionAttributes: string := "; Path=/; HttpOnly; SameSite=Lax; Max-Age="

  /** The `Set-Cookie` value sent on a successful login: `auth=authenticated`
      followed by its attributes. */
  function SessionCookie(secure: bool): string {
    CookieName + "=" + Posts.AuthSentinel + CookieAttributes(secure)
  }

  /** Path, HttpOnly, SameSite, the Max-Age in decimal, and `; Secure` when
      asked for. */
  function CookieAttributes(secure: bool): string {
    SessionAttributes + DecimalString(MaxAge) + (if secure then "; Secure" else "")
  }

  lemma MaxAgeRendering()
    ensures MaxAge == 604800
    ensures DecimalString(MaxAge) == "604800"
  {
    assert DecimalString(6) == "6";
    assert DecimalString(60) == DecimalString(6) + "0";
    assert DecimalString(604) == DecimalString(60) + "4";
    assert DecimalString(6048) == DecimalString(604) + "8";
    assert DecimalString(60480) == DecimalString(6048) + "0";
    assert DecimalString(604800) == DecimalString(60480) + "0";
  }

  /** The header sets the seven-day Max-Age, and `; Secure` is appended
      exactly when asked for. */
  lemma SessionCookieExact(secure: bool)
    ensures SessionCookie(secure) ==
              CookieName + "=" + Posts.AuthSentinel + SessionAttributes + "604800"
              + (if secure then "; Secure" else "")
  {
    MaxAgeRendering();
  }

  /** The cookie-pair a user agent reads from a `Set-Cookie` value
      (section 5.2 of RFC 6265): the text before the first `;`, split at
      its first `=` into name and value. The white space that section
      strips around name and value is not stripped here. */
  function CookiePair(setCookie: string): Option<(string, string)> {
    var pair := match IndexOf(setCookie, ';')
                case None => setCookie
                case Some(k) => setCookie[..k];
    match IndexOf(pair, '=')
    case None => None
    case Some(e) => Some((pair[..e], pair[e + 1..]))
  }

  /** A header that starts `name=value;` has that name and value as its
      cookie-pair, when the name holds no `=` and neither part a `;`. */
  lemma CookiePairOfHeader(name: string, value: string, attributes: string)
    requires '=' !in name && ';' !in name && ';' !in value
    requires attributes != [] && attributes[0] == ';'
    ensures CookiePair(name + "=" + value + attributes) == Some((name, value))
  {
    var pair := name + "=" + value;
    assert ';' !in pair by {
      forall i | 0 <= i < |pair| ensures pair[i] != ';' {
        if i < |name| { assert pair[i] == name[i]; }
        else if i > |name| { assert pair[i] == value[i - |name| - 1]; }
      }
    }
    IndexOfJoin(pair, attributes, ';');
    assert (pair + attributes)[..|pair|] == pair;
    assert pair == name + ("=" + value);
    IndexOfJoin(name, "=" + value, '=');
    assert pair[..|name|] == name;
    assert pair[|name| + 1..] == value;
  }

  /** The session cookie is named `auth` and holds exactly the value the
      posts route admits. */
  lemma SessionCookieAdmitsWrites(secure: bool)
    ensures CookiePair(SessionCookie(secure)) == Some((CookieName, Posts.AuthSentinel))
    ensures Posts.Authorized(Some(CookiePair(SessionCookie(secure)).value.1))
  {
    var attributes := CookieAttributes(secure);
    assert attributes[0] == SessionAttributes[0] == ';';
    CookiePairOfHeader(CookieName, Posts.AuthSentinel, attributes);
  }

  // ---------------------------------------------------------------------
  // The login handler
  // ---------------------------------------------------------------------

  /** The `password` property of the parsed body: falsy (missing, null, "",
      0, false), a non-empty string, or a truthy non-string, whose `trim`
      call throws the given message. */
  datatype PasswordField = Falsy | Text(s: string) | NonText(typeError: string)

  /** The request body: JSON that failed to parse (with the parser's
      message) or the parsed body's `password` property. */
  datatype LoginBody = Unparseable(message: ErrorMessage) | Parsed(password: PasswordField)

  /** A caught error: 500 with the message, or "Unknown error" when it has
      none. */
  function AuthError(message: ErrorMessage): Response {
    Response(500, ErrorJson("Authentication failed", Some(match Truthy(message)
                                                         case Some(m) => m
                                                         case None => "Unknown error")), None)
  }

  /** The password submitted, as the comparison sees it before trimming. */
  function Submitted(field: PasswordField): string
    requires !field.NonText?
  {
    if field.Text? then field.s else ""
  }

  /** The login handler. */
  function Login(body: LoginBody, ctx: Context): Response {
    match body
    case Unparseable(m) => AuthError(m)
    case Parsed(NonText(m)) => AuthError(Some(m))
    case Parsed(field) =>
      if Trim(Submitted(field)) == Trim(ExpectedSecret(ctx)) then
        Response(200, SuccessJson, Some(SessionCookie(ctx.processEnv.nodeEnv == Some("production"))))
      else
        Response(401, ErrorJson("Invalid password", None), None)
  }

  /** Login succeeds exactly when the trimmed password equals the trimmed
      secret: then 200 `{success: true}` with the session cookie, Secure
      exactly in production; otherwise 401 "Invalid password" and no
      cookie. A missing password is the empty string. */
  lemma LoginDecision(field: PasswordField, ctx: Context)
    requires !field.NonText?
    ensures var r := Login(Parsed(field), ctx);
            var ok := Trim(Submitted(field)) == Trim(ExpectedSecret(ctx));
            && (ok ==> r.status == 200 && r.body == SuccessJson
                       && r.setCookie == Some(CookieName + "=" + Posts.AuthSentinel + SessionAttributes + "604800"
                                              + (if ctx.processEnv.nodeEnv == Some("production") then "; Secure" else "")))
            && (!ok ==> r == Response(401, ErrorJson("Invalid password", None), None))
  {
    SessionCookieExact(ctx.processEnv.nodeEnv == Some("production"));
  }

  /** Leading or trailing whitespace around the submitted password never
      changes the outcome. */
  lemma LoginIgnoresPasswordPadding(pre: string, p: string, post: string, ctx: Context)
    requires AllWhitespace(pre) && AllWhitespace(post)
    ensures Login(Parsed(Text(pre + p + post)), ctx) == Login(Parsed(Text(p)), ctx)
  {
    TrimIgnoresPadding(pre, p, post);
  }

  /** Leading or trailing whitespace around the configured secret never
      changes the outcome either. */
  lemma LoginIgnoresSecretPadding(pre: string, post: string, body: LoginBody, ctx1: Context, ctx2: Context)
    requires AllWhitespace(pre) && AllWhitespace(post)
    requires ExpectedSecret(ctx2) == pre + ExpectedSecret(ctx1) + post
    requires ctx2.processEnv.nodeEnv == ctx1.processEnv.nodeEnv
    ensures Login(body, ctx1) == Login(body, ctx2)
  {
    TrimIgnoresPadding(pre, ExpectedSecret(ctx1), post);
  }

  /** A body that cannot be read, or a password that is not a string, is a
      500 "Authentication failed" with the error's message as details, and
      no cookie. */
  lemma LoginErrors(body: LoginBody, ctx: Context)
    requires body.Unparseable? || body.password.NonText?
    ensures var r := Login(body, ctx);
            && r.status == 500 && r.setCookie.None?
            && r.body.ErrorJson? && r.body.error == "Authentication failed"
            && r.body.details == Some(if body.Parsed? then (if body.password.typeError != "" then body.password.typeError else "Unknown error")
                                      else if body.message.Some? && body.message.value != "" then body.message.value
                                      else "Unknown error")
  {
  }

  /** Every successful login hands out a cookie the create path admits. */
  lemma LoginAdmitsWrites(body: LoginBody, ctx: Context)
    requires Login(body, ctx).status == 200
    ensures Login(body, ctx).setCookie.Some?
    ensures var pair := CookiePair(Login(body, ctx).setCookie.value);
            pair == Some((CookieName, Posts.AuthSentinel)) && Posts.Authorized(Some(pair.value.1))
  {
    var secure := ctx.processEnv.nodeEnv == Some("production");
    assert body.Parsed? && !body.password.NonText?;
    assert Trim(Submitted(body.password)) == Trim(ExpectedSecret(ctx));
    assert Login(body, ctx).setCookie == Some(SessionCookie(secure));
    SessionCookieAdmitsWrites(secure);
  }

  /** A secret configured as whitespace only trims to the empty string, so
      a request with no password at all logs in. */
  lemma BlankSecretAdmitsMissingPassword(ctx: Context)
    requires AllWhitespace(ExpectedSecret(ctx))
    ensures Login(Parsed(Falsy), ctx).status == 200
  {
    TrimOfBlank(ExpectedSecret(ctx));
    TrimOfBlank("");
  }
}
