/** The test SP's two SAML routes: `/login` issues a RelayState bound to the
    user's email and redirects to the IdP; `/acs` spends the RelayState, checks
    that the assertion is about the same user, validates the assertion and
    signs the user in. */
module TestSp {

  import opened Results
  import opened Entity
  import opened ReplayGuard
  import opened TestSpDb
  import opened Http

  /** The argument `/login` hands to `generateAuthnRequest`. */
  datatype AuthnRequestArgs = AuthnRequestArgs(connection: IdpConnection, relayState: string)

  /** The SAML library, and `jwt.sign` with the app's secret and a one-hour expiry. */
  datatype SpServices = SpServices(
    generateAuthnRequest: AuthnRequestArgs -> Outcome<AuthnRequest>,
    parseAssertion: string -> Outcome<AssertionExtract>,
    validateAssertion: (IdpConnection, string) -> Outcome<Promise<VoidResult>>,
    signSession: string -> Outcome<string>)

  const SiteTitle: string := "SP Error"
  const AuthCookieName: string := "sp_auth"

  /** `expiresIn: '1h'` of the session token. */
  const SessionLifetimeSeconds: int := 60 * 60

  function RelayStateFor(uuid: string): string
  {
    "rs-" + uuid
  }

  function EmailMismatch(expected: string, got: string): Message
  {
    Text("SP Error invalid email: expected: " + expected + ", got: " + got)
  }

  /** The `maxAge` `/acs` gives the session cookie: 60 * 60 * 1000, meant as
      one hour of milliseconds, which Hono emits as that many seconds. */
  const MaxAgeAsWritten: int := 60 * 60 * 1000

  /** The `maxAge` its comment and the token's expiry call for. */
  const MaxAgeCorrected: int := SessionLifetimeSeconds

  /** The session cookie `/acs` sets, for a given `maxAge`. */
  function SessionCookie(token: string, maxAge: int): Cookie
  {
    Cookie(AuthCookieName, token, true, maxAge, "Lax")
  }

  /** The email check `/acs` binds onto the consumed RelayState. */
  function EmailCheck(relayStateResult: Result<RelayStateRow>, nameID: string): Result<bool>
  {
    Bind(relayStateResult, (row: RelayStateRow) =>
      Returned(if row.boundTo == nameID then Ok(true) else Fail(EmailMismatch(row.boundTo, nameID))))
  }

  /** The callback of the final `map`: sign the session, set the cookie. */
  function IssueSession(services: SpServices, nameID: string, maxAge: int): Outcome<Cookie>
  {
    match services.signSession(nameID)
    case Returned(token) => Returned(SessionCookie(token, maxAge))
    case Threw(e) => Threw(e)
  }

  /** `/acs` from the consume on: what the RelayState lookup gave, the extract
      parsed before it, and the services; `maxAge` is the session cookie's, so
      that the handler as written and as corrected are the same function. */
  function AcsAfterConsume(consumed: Outcome<Result<RelayStateRow>>, extract: AssertionExtract,
                           services: SpServices, connection: IdpConnection, samlResponse: string,
                           maxAge: int): Outcome<Response>
  {
    match consumed
    case Threw(e) => Threw(e)
    case Returned(relayStateResult) =>
      var emailCheckResult := EmailCheck(relayStateResult, extract.nameID);
      match BindAsync(emailCheckResult, (_: bool) => services.validateAssertion(connection, samlResponse))
      case Rejected(e) => Threw(e)
      case Resolved(assertionResult) =>
        var result := Map(assertionResult, (_: Empty) => IssueSession(services, extract.nameID, maxAge));
        Returned(if IsOk(result) then Redirect("/", Some(result.value))
                 else ErrorResponse(ErrorPageFor(SiteTitle, result.message)))
  }

  /** An unknown or spent RelayState ends the request with its failure; the
      assertion is not validated and no session is signed. */
  lemma BadRelayStateStops(m: Message, extract: AssertionExtract, s1: SpServices, s2: SpServices,
                           connection: IdpConnection, samlResponse: string, maxAge: int)
    ensures AcsAfterConsume(Returned(Fail(m)), extract, s1, connection, samlResponse, maxAge)
         == Returned(ErrorResponse(ErrorPageFor(SiteTitle, m)))
    ensures AcsAfterConsume(Returned(Fail(m)), extract, s1, connection, samlResponse, maxAge)
         == AcsAfterConsume(Returned(Fail(m)), extract, s2, connection, samlResponse, maxAge)
  {
  }

  /** An assertion about someone other than the user who started the login is
      refused, with both addresses in the message, before it is validated. */
  lemma OtherUserRefused(row: RelayStateRow, extract: AssertionExtract, s1: SpServices, s2: SpServices,
                         connection: IdpConnection, samlResponse: string, maxAge: int)
    requires row.boundTo != extract.nameID
    ensures AcsAfterConsume(Returned(Ok(row)), extract, s1, connection, samlResponse, maxAge)
         == Returned(ErrorResponse(ErrorPage(SiteTitle, 401, "Not Authenticated",
              "SP Error invalid email: expected: " + row.boundTo + ", got: " + extract.nameID)))
    ensures AcsAfterConsume(Returned(Ok(row)), extract, s1, connection, samlResponse, maxAge)
         == AcsAfterConsume(Returned(Ok(row)), extract, s2, connection, samlResponse, maxAge)
  {
  }

  /** For the user the RelayState was issued to, the validation decides: a
      failure is shown, an exception is a 500, a rejection propagates. */
  lemma ValidationDecides(row: RelayStateRow, extract: AssertionExtract, services: SpServices,
                          connection: IdpConnection, samlResponse: string, maxAge: int)
    requires row.boundTo == extract.nameID
    ensures var r := AcsAfterConsume(Returned(Ok(row)), extract, services, connection, samlResponse, maxAge);
            match services.validateAssertion(connection, samlResponse)
            case Threw(e) => r == Returned(ErrorResponse(ErrorPageFor(SiteTitle, Caught(e))))
            case Returned(Rejected(e)) => r == Threw(e)
            case Returned(Resolved(Fail(m))) => r == Returned(ErrorResponse(ErrorPageFor(SiteTitle, m)))
            case Returned(Resolved(Ok(_))) =>
              r == match services.signSession(extract.nameID)
                   case Returned(token) => Returned(Redirect("/", Some(SessionCookie(token, maxAge))))
                   case Threw(e) => Returned(ErrorResponse(ErrorPageFor(SiteTitle, Caught(e))))
  {
  }

  /** `/acs` signs the user in exactly when the RelayState is live, it was issued
      to the user the assertion names, the assertion validates and the token is
      signed; the session is the assertion's `NameID`. */
  lemma SignInExactlyWhen(consumed: Outcome<Result<RelayStateRow>>, extract: AssertionExtract,
                          services: SpServices, connection: IdpConnection, samlResponse: string, maxAge: int)
    ensures var r := AcsAfterConsume(consumed, extract, services, connection, samlResponse, maxAge);
            (r.Returned? && r.value.Redirect?) <==>
              && consumed.Returned? && consumed.value.Ok?
              && consumed.value.value.boundTo == extract.nameID
              && services.validateAssertion(connection, samlResponse) == Returned(Resolved(Ok(Empty)))
              && services.signSession(extract.nameID).Returned?
    ensures var r := AcsAfterConsume(consumed, extract, services, connection, samlResponse, maxAge);
            r.Returned? && r.value.Redirect? ==>
              r.value == Redirect("/", Some(SessionCookie(services.signSession(extract.nameID).value, maxAge)))
  {
    if consumed.Returned? && consumed.value.Ok? {
      if consumed.value.value.boundTo == extract.nameID {
        ValidationDecides(consumed.value.value, extract, services, connection, samlResponse, maxAge);
        var v := services.validateAssertion(connection, samlResponse);
        if v.Returned? && v.value.Resolved? && v.value.value.Ok? {
          assert v.value.value.value == Empty;
        }
      } else {
        OtherUserRefused(consumed.value.value, extract, services, services, connection, samlResponse, maxAge);
      }
    } else if consumed.Returned? {
      BadRelayStateStops(consumed.value.message, extract, services, services, connection, samlResponse, maxAge);
    }
  }

  /** As written, every sign-in sets a cookie that is kept a thousand times as
      long as the token it carries is valid: a thousand hours. */
  lemma CookieOutlivesToken(consumed: Outcome<Result<RelayStateRow>>, extract: AssertionExtract,
                            services: SpServices, connection: IdpConnection, samlResponse: string)
    ensures var r := AcsAfterConsume(consumed, extract, services, connection, samlResponse, MaxAgeAsWritten);
            r.Returned? && r.value.Redirect? ==>
              r.value.cookie.Some? && r.value.cookie.value.maxAge == 1000 * SessionLifetimeSeconds
  {
    SignInExactlyWhen(consumed, extract, services, connection, samlResponse, MaxAgeAsWritten);
  }

  /** With the corrected `maxAge`, every sign-in sets a cookie that expires with
      its token, and the handler signs in exactly when the one as written does. */
  lemma CookieExpiresWithToken(consumed: Outcome<Result<RelayStateRow>>, extract: AssertionExtract,
                               services: SpServices, connection: IdpConnection, samlResponse: string)
    ensures var r := AcsAfterConsume(consumed, extract, services, connection, samlResponse, MaxAgeCorrected);
            r.Returned? && r.value.Redirect? ==>
              r.value.cookie.Some? && r.value.cookie.value.maxAge == SessionLifetimeSeconds
    ensures var r := AcsAfterConsume(consumed, extract, services, connection, samlResponse, MaxAgeCorrected);
            var w := AcsAfterConsume(consumed, extract, services, connection, samlResponse, MaxAgeAsWritten);
            (r.Returned? && r.value.Redirect?) <==> (w.Returned? && w.value.Redirect?)
  {
    SignInExactlyWhen(consumed, extract, services, connection, samlResponse, MaxAgeCorrected);
    SignInExactlyWhen(consumed, extract, services, connection, samlResponse, MaxAgeAsWritten);
  }

  /** POST `/login`. `username` is the form field, absent or present; `uuid` is
      `crypto.randomUUID()`. The RelayState is recorded before the AuthnRequest
      is generated, so a generator that throws leaves it recorded. */
  method Login(store: RelayStateStore, services: SpServices, connection: IdpConnection,
               username: Option<string>, uuid: string, now: int) returns (outcome: Outcome<Response>)
    requires store.Valid()
    modifies store
    ensures store.Valid()
    ensures username.None? || !store.isEmail(username.value) ==>
              outcome == Threw(ZodError) && store.relayStateTable == old(store.relayStateTable)
    ensures username.Some? && store.isEmail(username.value) ==>
              && store.relayStateTable == Recorded(old(store.relayStateTable), RelayStateFor(uuid), username.value, now)
              && outcome == match services.generateAuthnRequest(AuthnRequestArgs(connection, RelayStateFor(uuid)))
                            case Returned(request) => Returned(Redirect(request.url, None))
                            case Threw(e) => Threw(e)
  {
    if username.None? || !store.isEmail(username.value) {
      return Threw(ZodError);
    }
    var relayState := RelayStateFor(uuid);
    store.RecordRelayState(relayState, username.value, now);
    var result := services.generateAuthnRequest(AuthnRequestArgs(connection, relayState));
    if result.Threw? {
      return Threw(result.thrown);
    }
    return Returned(Redirect(result.value.url, None));
  }

  /** POST `/acs`. The form is parsed and the assertion extracted before the
      RelayState is touched, so a malformed post leaves it live; from the consume
      on, the token is spent whatever the later checks find. The session cookie
      gets the `maxAge` written in the handler. */
  method Acs(store: RelayStateStore, services: SpServices, connection: IdpConnection,
             samlResponse: Option<string>, relayState: Option<string>) returns (outcome: Outcome<Response>)
    requires store.Valid()
    modifies store
    ensures store.Valid()
    ensures samlResponse.None? || relayState.None? ==>
              outcome == Threw(ZodError) && store.relayStateTable == old(store.relayStateTable)
    ensures samlResponse.Some? && relayState.Some? && services.parseAssertion(samlResponse.value).Threw? ==>
              outcome == Threw(services.parseAssertion(samlResponse.value).thrown)
              && store.relayStateTable == old(store.relayStateTable)
    ensures samlResponse.Some? && relayState.Some? && services.parseAssertion(samlResponse.value).Returned? ==>
              var consumed := Consume(old(store.relayStateTable), relayState.value, store.isEmail);
              && store.relayStateTable == consumed.table
              && outcome == AcsAfterConsume(consumed.outcome, services.parseAssertion(samlResponse.value).value,
                                            services, connection, samlResponse.value, MaxAgeAsWritten)
  {
    if samlResponse.None? || relayState.None? {
      return Threw(ZodError);
    }
    var parsed := services.parseAssertion(samlResponse.value);
    if parsed.Threw? {
      return Threw(parsed.thrown);
    }
    var assertionExtract := parsed.value;
    var relayStateResult := store.ConsumeRelayState(relayState.value);
    outcome := AcsAfterConsume(relayStateResult, assertionExtract, services, connection, samlResponse.value, MaxAgeAsWritten);
  }

  /** A whole sign-in on a fresh database: `/login`, then `/acs` with an
      assertion about the same user, then the same post again. The first post
      signs the user in with the cookie as written; the replay is refused
      because the RelayState is spent. */
  method SignInThenReplay(emailCheck: string -> bool, services: SpServices, connection: IdpConnection,
                          username: string, uuid: string, now: int, samlResponse: string)
    returns (login: Outcome<Response>, first: Outcome<Response>, replay: Outcome<Response>)
    requires emailCheck(username)
    requires services.generateAuthnRequest(AuthnRequestArgs(connection, RelayStateFor(uuid))).Returned?
    requires services.parseAssertion(samlResponse).Returned?
    requires services.parseAssertion(samlResponse).value.nameID == username
    requires services.validateAssertion(connection, samlResponse) == Returned(Resolved(Ok(Empty)))
    requires services.signSession(username).Returned?
    ensures login.Returned? && login.value.Redirect? && login.value.cookie.None?
    ensures first == Returned(Redirect("/", Some(Cookie(AuthCookieName, services.signSession(username).value,
                                                         true, 3600000, "Lax"))))
    ensures replay == Returned(ErrorResponse(ErrorPage(SiteTitle, 401, "Not Authenticated", InvalidRelayState)))
  {
    var store := new RelayStateStore(emailCheck);
    login := Login(store, services, connection, Some(username), uuid, now);
    var t1 := store.relayStateTable;
    RecordThenConsume([], RelayStateFor(uuid), username, now, emailCheck);
    SecondConsumeFails(t1, RelayStateFor(uuid), emailCheck);
    first := Acs(store, services, connection, Some(samlResponse), Some(RelayStateFor(uuid)));
    replay := Acs(store, services, connection, Some(samlResponse), Some(RelayStateFor(uuid)));
  }
}
