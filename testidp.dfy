/** The test IdP's single sign-on route: parse the AuthnRequest from the query,
    validate it against the SP connection, and answer with a signed assertion
    for the signed-in user. */
module TestIdp {

  import opened Results
  import opened Entity
  import opened Http

  /** The props of `generateAssertion` besides the connection. */
  datatype AssertionProps = AssertionProps(user: User, relayState: string, requestId: string)

  /** The SAML library. */
  datatype IdpServices = IdpServices(
    parseAuthnRequest: string -> Outcome<Result<AuthnRequestDetails>>,
    validateAuthnRequest: (SpConnection, AuthnRequestDetails) -> Outcome<VoidResult>,
    generateAssertion: (SpConnection, AssertionProps) -> Outcome<Promise<Assertion>>)

  const SiteTitle: string := "IdP Error"

  /** The props `/sso` builds from a validated request. */
  function PropsFor(username: string, relayState: string, authnReq: AuthnRequestDetails): AssertionProps
  {
    AssertionProps(User(username), relayState, authnReq.id)
  }

  /** GET `/sso` behind the auth middleware: `username` is the signed-in user of
      the session, the two options are the query parameters. */
  function Sso(services: IdpServices, connection: SpConnection, username: string,
               samlRequest: Option<string>, relayState: Option<string>): Outcome<Response>
  {
    if samlRequest.None? || relayState.None? then Threw(ZodError)
    else
      match services.parseAuthnRequest(samlRequest.value)
      case Threw(e) => Threw(e)
      case Returned(parseResult) =>
        var validationResult := Validate(parseResult,
          (details: AuthnRequestDetails) => services.validateAuthnRequest(connection, details));
        var assertionProps := Map(validationResult,
          (authnReq: AuthnRequestDetails) => Returned(PropsFor(username, relayState.value, authnReq)));
        match MapAsync(assertionProps, (props: AssertionProps) => services.generateAssertion(connection, props))
        case Rejected(e) => Threw(e)
        case Resolved(result) =>
          Returned(if IsOk(result) then AssertionPage(result.value)
                   else ErrorResponse(ErrorPageFor(SiteTitle, result.message)))
  }

  /** A query without both parameters throws before anything is parsed. */
  lemma QueryNeedsBoth(services: IdpServices, connection: SpConnection, username: string,
                       samlRequest: Option<string>, relayState: Option<string>)
    ensures samlRequest.None? || relayState.None?
            ==> Sso(services, connection, username, samlRequest, relayState) == Threw(ZodError)
  {
  }

  /** A request that does not parse is answered with its failure, and no
      assertion is generated: the answer is the same whatever generator is used. */
  lemma UnparsedRequestRefused(s1: IdpServices, other: (SpConnection, AssertionProps) -> Outcome<Promise<Assertion>>,
                               connection: SpConnection, username: string, samlRequest: string, relayState: string, m: Message)
    requires s1.parseAuthnRequest(samlRequest) == Returned(Fail(m))
    ensures Sso(s1, connection, username, Some(samlRequest), Some(relayState))
         == Returned(ErrorResponse(ErrorPageFor(SiteTitle, m)))
    ensures Sso(s1, connection, username, Some(samlRequest), Some(relayState))
         == Sso(s1.(generateAssertion := other), connection, username, Some(samlRequest), Some(relayState))
  {
  }

  /** A request the connection does not accept is answered with the validation's
      failure (a 500 if the validation threw), and no assertion is generated. */
  lemma InvalidRequestRefused(s1: IdpServices, other: (SpConnection, AssertionProps) -> Outcome<Promise<Assertion>>,
                              connection: SpConnection, username: string, samlRequest: string, relayState: string, details: AuthnRequestDetails)
    requires s1.parseAuthnRequest(samlRequest) == Returned(Ok(details))
    requires !(s1.validateAuthnRequest(connection, details).Returned? && s1.validateAuthnRequest(connection, details).value.Ok?)
    ensures var v := s1.validateAuthnRequest(connection, details);
            var m := if v.Threw? then Caught(v.thrown) else v.value.message;
            Sso(s1, connection, username, Some(samlRequest), Some(relayState))
              == Returned(ErrorResponse(ErrorPageFor(SiteTitle, m)))
    ensures Sso(s1, connection, username, Some(samlRequest), Some(relayState))
         == Sso(s1.(generateAssertion := other), connection, username, Some(samlRequest), Some(relayState))
  {
  }

  /** A valid request is answered for the session's user, with the query's
      RelayState, in response to the request's own id; what the generator throws
      or rejects with is thrown by the handler, it is not turned into a page. */
  lemma ValidRequestAnswered(services: IdpServices, connection: SpConnection, username: string,
                             samlRequest: string, relayState: string, details: AuthnRequestDetails)
    requires services.parseAuthnRequest(samlRequest) == Returned(Ok(details))
    requires services.validateAuthnRequest(connection, details) == Returned(Ok(Empty))
    ensures var props := AssertionProps(User(username), relayState, details.id);
            var r := Sso(services, connection, username, Some(samlRequest), Some(relayState));
            match services.generateAssertion(connection, props)
            case Returned(Resolved(a)) => r == Returned(AssertionPage(a))
            case Returned(Rejected(e)) => r == Threw(e)
            case Threw(e) => r == Threw(e)
  {
  }

  /** The IdP shows an assertion exactly when the query is complete, the
      request parses and validates, and the assertion is generated for it. */
  lemma AssertionExactlyWhen(services: IdpServices, connection: SpConnection, username: string,
                             samlRequest: Option<string>, relayState: Option<string>, a: Assertion)
    ensures Sso(services, connection, username, samlRequest, relayState) == Returned(AssertionPage(a)) <==>
              && samlRequest.Some? && relayState.Some?
              && services.parseAuthnRequest(samlRequest.value).Returned?
              && services.parseAuthnRequest(samlRequest.value).value.Ok?
              && var details := services.parseAuthnRequest(samlRequest.value).value.value;
                 && services.validateAuthnRequest(connection, details) == Returned(Ok(Empty))
                 && services.generateAssertion(connection, PropsFor(username, relayState.value, details))
                    == Returned(Resolved(a))
  {
    if samlRequest.Some? && relayState.Some? {
      var p := services.parseAuthnRequest(samlRequest.value);
      if p.Returned? && p.value.Ok? {
        var v := services.validateAuthnRequest(connection, p.value.value);
        if v.Returned? && v.value.Ok? {
          assert v.value.value == Empty;
          ValidRequestAnswered(services, connection, username, samlRequest.value, relayState.value, p.value.value);
        } else {
          InvalidRequestRefused(services, services.generateAssertion, connection, username, samlRequest.value, relayState.value, p.value.value);
        }
      }
    }
  }
}
