/** The column names of the schema and the object keys `snakeToCamel` gives them. */
module ColumnNames {

  import opened Rows

  lemma ColumnId()
    ensures ToCamel("id") == "id"
  {
    NameToCamel(["id"], "id", "id");
  }

  lemma ColumnName()
    ensures ToCamel("name") == "name"
  {
    NameToCamel(["name"], "name", "name");
  }

  lemma ColumnSpEntityId()
    ensures ToCamel("sp_entity_id") == "spEntityId"
  {
    NameToCamel(["sp", "entity", "id"], "sp_entity_id", "spEntityId");
  }

  lemma ColumnSpAcsUrl()
    ensures ToCamel("sp_acs_url") == "spAcsUrl"
  {
    NameToCamel(["sp", "acs", "url"], "sp_acs_url", "spAcsUrl");
  }

  lemma SpAllowIdpInitiatedSnake()
    ensures "sp_allow_idp_initiated" == SnakeName(["sp", "allow", "idp", "initiated"])
  {
  }

  lemma SpAllowIdpInitiatedCamel()
    ensures "spAllowIdpInitiated" == CamelName(["sp", "allow", "idp", "initiated"])
  {
  }

  lemma ColumnSpAllowIdpInitiated()
    ensures ToCamel("sp_allow_idp_initiated") == "spAllowIdpInitiated"
  {
    SpAllowIdpInitiatedSnake();
    SpAllowIdpInitiatedCamel();
    ToCamelOfSnakeName(["sp", "allow", "idp", "initiated"]);
  }

  lemma ColumnIdpEntityId()
    ensures ToCamel("idp_entity_id") == "idpEntityId"
  {
    NameToCamel(["idp", "entity", "id"], "idp_entity_id", "idpEntityId");
  }

  lemma ColumnIdpSsoUrl()
    ensures ToCamel("idp_sso_url") == "idpSsoUrl"
  {
    NameToCamel(["idp", "sso", "url"], "idp_sso_url", "idpSsoUrl");
  }

  lemma ColumnSigningCertificate()
    ensures ToCamel("signing_certificate") == "signingCertificate"
  {
    NameToCamel(["signing", "certificate"], "signing_certificate", "signingCertificate");
  }

  lemma ColumnPrivateKey()
    ensures ToCamel("private_key") == "privateKey"
  {
    NameToCamel(["private", "key"], "private_key", "privateKey");
  }

  lemma ColumnPrivateKeyPassword()
    ensures ToCamel("private_key_password") == "privateKeyPassword"
  {
    NameToCamel(["private", "key", "password"], "private_key_password", "privateKeyPassword");
  }

  lemma ColumnRelayState()
    ensures ToCamel("relay_state") == "relayState"
  {
    NameToCamel(["relay", "state"], "relay_state", "relayState");
  }

  lemma ColumnTimestamp()
    ensures ToCamel("timestamp") == "timestamp"
  {
    NameToCamel(["timestamp"], "timestamp", "timestamp");
  }

  lemma ColumnUsed()
    ensures ToCamel("used") == "used"
  {
    NameToCamel(["used"], "used", "used");
  }

  lemma ColumnEmail()
    ensures ToCamel("email") == "email"
  {
    NameToCamel(["email"], "email", "email");
  }
}
