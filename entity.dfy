/** The records the protocol engine passes around. Instants are milliseconds
    since the epoch. */
module Entity {

  import opened Results

  /** An SP's view of one IdP: the SP's own identity and the IdP it trusts. */
  datatype IdpConnection = IdpConnection(
    id: string,
    name: string,
    spEntityId: string,
    spAcsUrl: string,
    spAllowIdpInitiated: bool,
    idpEntityId: string,
    idpSsoUrl: string,
    signingCertificate: string)

  /** An IdP's view of one SP: the IdP's own identity and signing key, and the SP it serves. */
  datatype SpConnection = SpConnection(
    id: string,
    name: string,
    idpEntityId: string,
    idpSsoUrl: string,
    privateKey: string,
    privateKeyPassword: string,
    signingCertificate: string,
    spEntityId: string,
    spAcsUrl: string)

  datatype AuthnRequest = AuthnRequest(url: string)

  datatype AuthnRequestDetails = AuthnRequestDetails(
    id: string,
    issuer: string,
    acsUrl: string,
    ssoUrl: string,
    issueInstant: int)

  datatype Assertion = Assertion(id: string, assertion: string, acsUrl: string, relayState: string)

  datatype AssertionExtract = AssertionExtract(
    id: string,
    inResponseTo: string,
    issuer: string,
    audience: string,
    issueInstant: int,
    nameID: string,
    notBefore: int,
    notOnOrAfter: int,
    destination: string)

  datatype User = User(email: string)

  /** What a zod parser throws when its input does not fit the schema. The text
      of zod's issue list is not modelled. */
  const ZodError: Thrown := ThrownError(Error("ZodError"))
}
