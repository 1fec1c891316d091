/** The values the IdP writes into its SAML assertion template. The clock, the
    two UUIDs, the ISO-8601 formatting of an instant and the Mustache renderer
    are parameters. */
module AssertionTemplate {

  import opened Entity

  const EmailAddressFormat: string := "urn:oasis:names:tc:SAML:1.1:nameid-format:emailAddress"
  const SuccessStatus: string := "urn:oasis:names:tc:SAML:2.0:status:Success"

  const MinuteMs: int := 60000

  /** `getMinutes()` of an instant, in milliseconds since the epoch, read in UTC. */
  function MinutesOf(t: int): (m: int)
    ensures 0 <= m < 60
  {
    (t / MinuteMs) % 60
  }

  /** `setMinutes(m)`: the same hour, `m` minutes past it; a value of 60 or more
      carries into the following hours. */
  function SetMinutes(t: int, m: int): int
  {
    t - MinutesOf(t) * MinuteMs + m * MinuteMs
  }

  /** `fiveMinutesLater` at assertion.ts:16-17. */
  function FiveMinutesLater(now: int): (t: int)
    ensures t == now + 5 * MinuteMs
  {
    SetMinutes(now, MinutesOf(now) + 5)
  }

  /** The `tvalue` object: one field per Mustache tag of the template. */
  datatype TemplateValues = TemplateValues(
    ID: string,
    AssertionID: string,
    Destination: string,
    Audience: string,
    SubjectRecipient: string,
    NameIDFormat: string,
    NameID: string,
    Issuer: string,
    IssueInstant: string,
    ConditionsNotBefore: string,
    ConditionsNotOnOrAfter: string,
    SubjectConfirmationDataNotOnOrAfter: string,
    AssertionConsumerServiceURL: string,
    EntityID: string,
    InResponseTo: string,
    StatusCode: string)

  /** What the callback returns to samlify. */
  datatype TemplateContext = TemplateContext(id: string, context: string)

  /** The body of the callback up to the render: `idUuid` and `assertionUuid` are
      the two `crypto.randomUUID()` calls, `now` is `new Date()`. */
  function TemplateValuesFor(connection: SpConnection, user: User, requestId: string,
                             idUuid: string, assertionUuid: string, now: int,
                             toIsoString: int -> string): TemplateValues
  {
    var later := FiveMinutesLater(now);
    TemplateValues(
      ID := "_" + idUuid,
      AssertionID := "_" + assertionUuid,
      Destination := connection.spAcsUrl,
      Audience := connection.spEntityId,
      SubjectRecipient := connection.spEntityId,
      NameIDFormat := EmailAddressFormat,
      NameID := user.email,
      Issuer := connection.idpEntityId,
      IssueInstant := toIsoString(now),
      ConditionsNotBefore := toIsoString(now),
      ConditionsNotOnOrAfter := toIsoString(later),
      SubjectConfirmationDataNotOnOrAfter := toIsoString(later),
      AssertionConsumerServiceURL := connection.spAcsUrl,
      EntityID := connection.spEntityId,
      InResponseTo := requestId,
      StatusCode := SuccessStatus)
  }

  /** `createTemplateCallback(args)(template)`. */
  function TemplateCallback(connection: SpConnection, user: User, requestId: string,
                            idUuid: string, assertionUuid: string, now: int,
                            toIsoString: int -> string,
                            render: (string, TemplateValues) -> string,
                            template: string): TemplateContext
  {
    var tvalue := TemplateValuesFor(connection, user, requestId, idUuid, assertionUuid, now, toIsoString);
    TemplateContext(tvalue.ID, render(template, tvalue))
  }

  /** The assertion is addressed to the SP of the connection and names the IdP
      as issuer; it is about the user and answers the request. */
  lemma AddressedToTheSp(connection: SpConnection, user: User, requestId: string,
                         idUuid: string, assertionUuid: string, now: int, toIsoString: int -> string)
    ensures var t := TemplateValuesFor(connection, user, requestId, idUuid, assertionUuid, now, toIsoString);
            && t.Destination == t.AssertionConsumerServiceURL == connection.spAcsUrl
            && t.Audience == t.SubjectRecipient == t.EntityID == connection.spEntityId
            && t.NameID == user.email && t.Issuer == connection.idpEntityId
            && t.InResponseTo == requestId
            && t.NameIDFormat == EmailAddressFormat && t.StatusCode == SuccessStatus
  {
  }

  /** The validity window opens at the issue instant and closes five minutes
      later, for the conditions and for the subject confirmation alike. */
  lemma FiveMinuteWindow(connection: SpConnection, user: User, requestId: string,
                         idUuid: string, assertionUuid: string, now: int, toIsoString: int -> string)
    ensures var t := TemplateValuesFor(connection, user, requestId, idUuid, assertionUuid, now, toIsoString);
            && t.ConditionsNotBefore == t.IssueInstant == toIsoString(now)
            && t.ConditionsNotOnOrAfter == t.SubjectConfirmationDataNotOnOrAfter == toIsoString(now + 300000)
  {
  }

  /** The id handed back is the template's `ID`; both ids are `_` and a UUID,
      and they differ exactly when the two UUIDs do. */
  lemma CallbackIds(connection: SpConnection, user: User, requestId: string,
                    idUuid: string, assertionUuid: string, now: int,
                    toIsoString: int -> string, render: (string, TemplateValues) -> string, template: string)
    ensures var t := TemplateValuesFor(connection, user, requestId, idUuid, assertionUuid, now, toIsoString);
            var r := TemplateCallback(connection, user, requestId, idUuid, assertionUuid, now, toIsoString, render, template);
            && r.id == t.ID && r.context == render(template, t)
            && t.ID[0] == '_' && t.ID[1..] == idUuid
            && t.AssertionID[0] == '_' && t.AssertionID[1..] == assertionUuid
            && (t.ID == t.AssertionID <==> idUuid == assertionUuid)
  {
    var t := TemplateValuesFor(connection, user, requestId, idUuid, assertionUuid, now, toIsoString);
    assert t.ID[1..] == idUuid && t.AssertionID[1..] == assertionUuid;
  }
}
