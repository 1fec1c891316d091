# samlproxy core in Dafny

samlproxy is a SAML 2.0 identity proxy written in TypeScript. It ships with a
test Service Provider (SP) and a test Identity Provider (IdP). This project
models the parts of it that decide who gets signed in, and proves what they
promise:

- the `Result` railway (`bind`, `validate`, `map`, `bindAsync`, `mapAsync`),
  which every request handler is built from;
- the registry database of IdP and SP connections, including the
  `snake_case`/`camelCase` and integer/boolean row converters;
- the single-use RelayState tables of the proxy and of the test SP, and the
  proxy's SP-to-IdP link table;
- the values the IdP puts into its assertion template;
- the Content-Security-Policy middleware, and how a browser parses the header
  it sets;
- the test SP's `/login` and `/acs` routes and the test IdP's `/sso` route.

Each mutated table is a class with `seq` fields. Its methods are stated
against pure functions over the old table (`Consume`, `Recorded`,
`IdpConnectionFor`, ...), and the guarantees are lemmas about those functions.

Some things are parameters, not code:

- Anything thrown is a value of `Outcome`.
- A promise is a value of `Promise`.
- The SAML library (samlify), `jwt.sign`, zod's `email()` check, the clock,
  `crypto.randomUUID()`, `toISOString` and the Mustache renderer are passed in
  as function-typed arguments or plain values.

Modules and files:

- `Results`: `result.dfy`.
- `Rows`: `rows.dfy`.
- `Entity`: `entity.dfy`.
- `ColumnNames`: `columnnames.dfy`.
- `Registry`: `registry.dfy`.
- `ReplayGuard`: `replayguard.dfy`.
- `ProxyDb`: `proxydb.dfy`.
- `TestSpDb`: `testspdb.dfy`.
- `AssertionTemplate`: `assertion.dfy`.
- `Csp`: `csp.dfy`.
- `Http`: `http.dfy`.
- `TestSp`: `testsp.dfy`.
- `TestIdp`: `testidp.dfy`.

Three behaviours of the code worth noting:

- `mapAsync` does not turn a throwing callback into a failure. Its inner
  `async` lambda turns the throw into a rejected promise, and the handler then
  throws.
- `/acs` parses the form and the assertion *before* it consumes the
  RelayState. A malformed post therefore leaves the token live.
- The test SP's consume parses the row *after* the UPDATE. A row whose email
  the parser rejects is spent, and the call throws.

## Model

| member | source | states |
|---|---|---|
| Results.Caught | packages/common/src/result.ts:27-34 | a thrown `Error` becomes a failure carrying that error; any other thrown value becomes an `Error` whose message is `Error: ` and its text |
| Results.Validate | packages/common/src/result.ts:39-42 | a failure passes through unchanged; when the check succeeds the original value is returned, not the check's; a failing or throwing check gives its failure or the caught exception |
| Results.FromIsOk | packages/common/src/result.ts:16 | `from(v)` is ok, is not a failure and holds `v` |
| Results.ExactlyOneCase | packages/common/src/result.ts:68-69 | `isOk` and `isFail` always disagree |
| Results.BindPassesFailure | packages/common/src/result.ts:21-24 | a failure passes through `bind` unchanged, whatever the callback |
| Results.BindChainsOk | packages/common/src/result.ts:25-35 | an ok value is handed to the callback and its result is returned; an `Error` it throws becomes `Fail(error)`, any other thrown value becomes `Fail(Error("Error: ..."))` |
| Results.BindNeverDropsFailure | packages/common/src/result.ts:21-36 | `bind` is ok exactly when the input is ok and the callback returned an ok result |
| Results.ValidateKeepsValue | packages/common/src/result.ts:39-42 | `validate` succeeds exactly when the bound check does; it then returns the input itself, otherwise the check's failure |
| Results.MapLaws | packages/common/src/result.ts:44 | `map` passes failures through, wraps the callback's value in ok, and catches a throw like `bind` |
| Results.MapIsBindOfFrom | packages/common/src/result.ts:44 | `map` is `bind` of `from` after the function |
| Results.BindAsyncLaws | packages/common/src/result.ts:47-62 | `bindAsync` resolves to the input's failure, or returns the callback's promise as it is, or resolves to the caught synchronous throw; a rejection is not caught |
| Results.BindAsyncAgreesWithBind | packages/common/src/result.ts:47-62 | for a callback that settles normally, `bindAsync` is `bind` awaited |
| Results.MapAsyncLaws | packages/common/src/result.ts:64-65 | `mapAsync` resolves to ok of the awaited value, passes failures through, and rejects, rather than fails, when its callback throws or rejects |
| Rows.Put | packages/common/src/db.ts:12-14 | assigning a key replaces its value in place when the key is present, and appends it otherwise |
| Rows.PutKeys | packages/common/src/db.ts:12-14 | assigning adds exactly that key to the key set |
| Rows.FirstIndexAppend | packages/common/src/db.ts:89-107 | a row appended to a table is the first match only when no earlier row matches |
| Rows.ToCamelFixesPlainKeys | packages/common/src/db.ts:13 | a key without an `_` followed by a lower-case letter is unchanged |
| Rows.ToCamelRemovesAllPairs | packages/common/src/db.ts:13 | no `_` followed by a lower-case letter survives the global replace |
| Rows.ToCamelIdempotent | packages/common/src/db.ts:13 | converting a key twice gives the same as converting it once |
| Rows.ToCamelOfSnakeName | packages/common/src/db.ts:13 | a snake_case name of lower-case words becomes the camelCase name of the same words |
| Rows.HelloWorld | packages/common/src/db.test.ts:7-17 | the test's record `{hello_world: "Hello World", a_number: 123}` becomes `{helloWorld: "Hello World", aNumber: 123}`, in that key order |
| Rows.SnakeToCamelRenames | packages/common/src/db.ts:10-16 | when no two keys convert to the same key, each key is renamed in place and keeps its value |
| Rows.SnakeToCamelKeys | packages/common/src/db.ts:10-16 | whatever the collisions, the resulting keys are the converted input keys |
| Rows.IntsToBools | packages/common/src/db.ts:18-28 | each listed column becomes `true` exactly when it held 1; other columns and the key order are kept |
| Rows.BoolsToInts | packages/common/src/db.ts:30-40 | each boolean becomes 1 or 0; other values and the key order are kept |
| Rows.ConvertersKeepKeys | packages/common/src/db.ts:18-40 | both converters keep the set of keys |
| Rows.BoolColumnRoundTrip | packages/common/src/db.ts:18-40 | a boolean written with `boolsToInts` is read back by `intsToBools` on its column |
| Rows.RowRoundTrip | packages/common/src/db.ts:18-40 | when the boolean-valued keys are exactly the listed columns, `intsToBools(boolsToInts(row))` is the row |
| Rows.GetFound | packages/common/src/db.ts:100-104 | a key has a value in a row exactly when it is one of the row's keys |
| ColumnNames.ColumnSpAllowIdpInitiated | packages/common/src/db.ts:105 | the column `sp_allow_idp_initiated` reads back as the field `spAllowIdpInitiated` |
| ColumnNames.ColumnSigningCertificate | packages/common/src/db.ts:105 | the column `signing_certificate` reads back as the field `signingCertificate` |
| Registry.IdpRowReadsBack | packages/common/src/db.ts:62-107 | the row `insertIdpConnection` writes for a connection is parsed back by `getIdpConnection`'s converters into that connection |
| Registry.SpRowReadsBack | packages/common/src/db.ts:109-157 | the row `insertSpConnection` writes for a connection is parsed back into that connection |
| Registry.IdpConnectionAfterInsert | packages/common/src/db.ts:62-107 | a registered IdP connection answers for its entity id unless an earlier one already does; it never hides an earlier one |
| Registry.SpConnectionAfterInsert | packages/common/src/db.ts:109-178 | the same holds for SP connections, by entity id and by id |
| Registry.ConnectionDb.InsertIdpConnection | packages/common/src/db.ts:62-87 | a connection the parser rejects throws before the INSERT and leaves the tables unchanged; otherwise exactly its row is appended to the IdP table |
| Registry.ConnectionDb.InsertSpConnection | packages/common/src/db.ts:109-136 | the same for the SP table |
| Registry.ConnectionDb.ParseIdpRow | packages/common/src/db.ts:105 | the parse returns the converted connection exactly when it has the right shape and passes the parser, and throws a zod error otherwise |
| Registry.ConnectionDb.ParseAllSpRows | packages/common/src/db.ts:180-198 | all rows parse or the call throws; the result has one connection per row, in order |
| Registry.ConnectionDb.GetIdpConnectionFindsFirst | packages/common/src/db.ts:89-107 | on a registry built by the inserts, the lookup returns the first connection registered for the IdP entity id, or `Invalid IdP entity ID: <id>. No connection found`; it never throws |
| Registry.ConnectionDb.GetSpConnectionFindsFirst | packages/common/src/db.ts:138-157 | the lookup by SP entity id returns the first such connection, or `Invalid SP entity ID. No connection found` |
| Registry.ConnectionDb.GetSpConnectionByIdFindsFirst | packages/common/src/db.ts:159-178 | the lookup by id returns the first such connection, or the same failure |
| Registry.ConnectionDb.GetAllSpConnectionsGivesAll | packages/common/src/db.ts:180-198 | every registered SP connection comes back, in insertion order |
| Registry.InsertAndSelectSpConnection | packages/common/src/db.test.ts:47-74 | in an empty registry, an inserted SP connection is what all three lookups return |
| Registry.InsertAndSelectIdpConnection | packages/common/src/db.test.ts:76-95 | in an empty registry, an inserted IdP connection is what the lookup returns |
| ReplayGuard.Selected | packages/proxy/src/db.ts:52-59 | the consuming SELECT finds the first unused row with the token, and finds none exactly when no such row exists |
| ReplayGuard.ParseRelayState | packages/proxy/src/db.ts:15-20 | the parser accepts a row exactly when `used` is 0 or 1 and the bound column passes its check; otherwise it throws |
| ReplayGuard.Consume | packages/proxy/src/db.ts:50-69 | the consume fails with `RelayState is invalid.` exactly when no unused row has the token, and then changes nothing; otherwise it marks the token used; a returned row was in the table, unused and accepted |
| ReplayGuard.MarkUsedChangesOnlyToken | packages/proxy/src/db.ts:64-67 | the UPDATE changes only `used`, and only for rows with the token |
| ReplayGuard.SecondConsumeFails | packages/proxy/src/db.ts:50-69 | a second consume of the same token fails and changes nothing, whatever the first returned |
| ReplayGuard.RecordThenConsume | packages/proxy/src/db.ts:34-69 | a token just recorded is consumed once and returns the recorded row with `used` = 0 |
| ReplayGuard.RejectedRowIsBurnt | packages/testsp/src/db.ts:55-75 | when the parse throws, every row with the token is already marked used, and the selected row was one the parser rejects |
| ReplayGuard.FlagsPreserved | packages/proxy/src/db.ts:34-69 | recording and consuming keep every `used` value at 0 or 1 |
| ReplayGuard.ConsumeNeverThrows | packages/proxy/src/db.ts:15-20 | when every bound value passes the column's check, as any string does in the proxy, a consume never throws |
| ReplayGuard.SuccessesBounded | packages/proxy/src/db.ts:34-69 | over any sequence of records and consumes, the successful consumes of a token plus its unused rows never exceed what was recorded |
| ReplayGuard.AtMostOneUsePerRecord | packages/proxy/src/db.ts:63-67 | from an empty table, a token is accepted at most as many times as it was recorded |
| ProxyDb.ReadLinkRow | packages/proxy/src/db.ts:23-26 | a link row is parsed exactly when both ids are strings, and throws otherwise |
| ProxyDb.LinkRowReadsBack | packages/proxy/src/db.ts:71-93 | the row `createLink` writes is parsed back into the same link |
| ProxyDb.LinkAfterCreate | packages/proxy/src/db.ts:71-93 | a new link answers both lookups unless an earlier link already does |
| ProxyDb.ProxyDatabase.RecordRelayState | packages/proxy/src/db.ts:34-48 | appends the token, SP entity id, time and `used` = 0; the link table is unchanged |
| ProxyDb.ProxyDatabase.ConsumeRelayState | packages/proxy/src/db.ts:50-69 | returns and leaves exactly what `Consume` says, and never throws; the link table is unchanged |
| ProxyDb.ProxyDatabase.CreateLink | packages/proxy/src/db.ts:71-75 | appends exactly the link's row |
| ProxyDb.ProxyDatabase.GetLinkedSpEntityIdFindsFirst | packages/proxy/src/db.ts:77-84 | the lookup by IdP returns the first link created for it, or `No linked SP found for IdP: <id>`; it never throws |
| ProxyDb.ProxyDatabase.GetLinkedIdpEntityIdFindsFirst | packages/proxy/src/db.ts:86-93 | the lookup by SP returns the first link created for it, or `No linked IdP found for SP: <id>` |
| ProxyDb.RecordThenConsumeTwice | packages/proxy/src/db.test.ts:14-45 | a recorded token is returned once with its values and `used` = 0; the second consume fails |
| ProxyDb.CreateLinkThenLookUp | packages/proxy/src/db.test.ts:47-68 | after `createLink`, both lookups return the link |
| TestSpDb.RelayStateStore.RecordRelayState | packages/testsp/src/db.ts:36-53 | appends the token, email, time and `used` = 0 |
| TestSpDb.RelayStateStore.ConsumeRelayState | packages/testsp/src/db.ts:55-75 | returns and leaves exactly what `Consume` says under the `email()` check; a rejected email throws after the token is spent |
| TestSpDb.RecordThenConsumeTwice | packages/testsp/src/db.test.ts:5-31 | a recorded token is returned once with its values and `used` = 0; the second consume fails |
| TestSpDb.RejectedEmailBurnsToken | packages/testsp/src/db.ts:66-74 | a token bound to an address the parser rejects throws on the first consume and fails on the second |
| AssertionTemplate.FiveMinutesLater | packages/common/src/assertion.ts:16-17 | `setMinutes(getMinutes() + 5)` is exactly five minutes after the instant, carrying into the hour |
| AssertionTemplate.AddressedToTheSp | packages/common/src/assertion.ts:18-35 | destination and ACS URL are the SP's ACS URL; audience, recipient and entity id are the SP's entity id; the issuer is the IdP; the NameID is the user's email, in the email-address format; the assertion answers the request id with the Success status |
| AssertionTemplate.FiveMinuteWindow | packages/common/src/assertion.ts:15-30 | not-before equals the issue instant; both not-on-or-after values are five minutes after it |
| AssertionTemplate.CallbackIds | packages/common/src/assertion.ts:14-39 | the callback returns the template's `ID` and the rendered template; both ids are `_` and a UUID, and they differ exactly when the UUIDs do |
| Csp.ParseSerialize | packages/common/src/hono-middleware.ts:22 | a `"; "`-joined list of well-formed directives (ASCII, lower-case names, no `;`) with distinct names parses back into those directives, each value split into words |
| Csp.HeaderParses | packages/common/src/hono-middleware.ts:12-22 | for an ASCII nonce free of whitespace and `;`, the header reads as the six directives in order, with `default-src 'self'`, both nonce sources naming the request's nonce, and `'none'` for object, base and frame ancestors |
| Csp.UuidIsToken | packages/common/src/hono-middleware.ts:12 | a `randomUUID` nonce is free of whitespace and `;` |
| Csp.PolicyWins | packages/common/src/hono-middleware.ts:11-25 | the handlers see the nonce first, and the response ends up with the middleware's policy whatever the handler set |
| Http.StatusTellsKind | packages/testsp/src/index.tsx:140-150 | a text failure gives 401 `Not Authenticated` with the text; an exception gives 500 |
| Http.ExceptionStaysInLog | packages/testidp/src/index.ts:141-151 | no detail of an exception reaches the page; it shows `Oh dear, a bug. See logs for details.` |
| TestSp.Login | packages/testsp/src/index.tsx:81-100 | a username that is not an email throws and records nothing; otherwise `rs-<uuid>` is recorded for the user before the AuthnRequest is generated, and the browser is sent to its URL, or the generator's throw propagates with the RelayState still recorded |
| TestSp.Acs | packages/testsp/src/index.tsx:102-159 | a malformed form or an assertion that fails to parse throws and leaves the token live; otherwise the token is consumed, and the response is what the checks after the consume give, with the session cookie's `maxAge` as written (3,600,000) |
| TestSp.BadRelayStateStops | packages/testsp/src/index.tsx:111-122 | an unknown or spent RelayState gives its 401 page, is not validated and signs no one in |
| TestSp.OtherUserRefused | packages/testsp/src/index.tsx:112-117 | an assertion about another user than the one who logged in is refused with `SP Error invalid email: expected: <email>, got: <NameID>`, before validation |
| TestSp.ValidationDecides | packages/testsp/src/index.tsx:119-158 | for the right user, a validation failure is shown, a thrown validation is a 500, a rejection propagates, and a valid assertion signs the user in unless signing throws; for any cookie `maxAge` |
| TestSp.SignInExactlyWhen | packages/testsp/src/index.tsx:102-137 | `/acs` redirects to `/` with a session cookie exactly when the token is live, was issued to the assertion's NameID, the assertion validates and the token is signed; the cookie then holds the signed token with the given `maxAge` |
| TestSp.SignInThenReplay | packages/testsp/src/index.tsx:81-159 | login then `/acs` signs the user in with the cookie as written, Max-Age 3,600,000; replaying the same post gets 401 `RelayState is invalid.` |
| TestSp.CookieOutlivesToken | packages/testsp/src/index.tsx:127-132 | with the `maxAge` as written, every sign-in sets a cookie whose Max-Age is a thousand times the token's one-hour lifetime |
| TestSp.CookieExpiresWithToken | packages/testsp/src/index.tsx:127-132 | with the corrected `maxAge`, every sign-in sets a cookie that expires with the token, and sign-in succeeds exactly when it does as written |
| TestIdp.QueryNeedsBoth | packages/testidp/src/index.ts:18-21 | a query without both `SAMLRequest` and `RelayState` throws |
| TestIdp.UnparsedRequestRefused | packages/testidp/src/index.ts:122-151 | a request that does not parse gets its failure page, and no assertion is generated |
| TestIdp.InvalidRequestRefused | packages/testidp/src/index.ts:124-151 | a request the connection rejects gets the validation's failure page (500 if it threw), and no assertion is generated |
| TestIdp.ValidRequestAnswered | packages/testidp/src/index.ts:124-137 | a valid request is answered for the session's user, with the query's RelayState and the request's own id; a throwing or rejecting generator makes the handler throw |
| TestIdp.AssertionExactlyWhen | packages/testidp/src/index.ts:117-137 | the IdP shows an assertion exactly when the query is complete, the request parses and validates, and the assertion is generated for it |

## Findings

| source | as written | input that shows it | evidently intended | confidence | as-written member | corrected member |
|---|---|---|---|---|---|---|
| packages/testsp/src/index.tsx:128-132 | `maxAge: 60 * 60 * 1000` with the comment `1h`; Hono's `maxAge` is in seconds, as `Max-Age` is in section 5.2.2 of RFC 6265 | any successful `/acs`: the cookie is kept 3,600,000 seconds, a thousand hours, while the JWT in it expires after one hour | `maxAge: 60 * 60` | high, not executed | TestSp.Acs (TestSp.CookieOutlivesToken) | TestSp.CookieExpiresWithToken (TestSp.AcsAfterConsume at TestSp.MaxAgeCorrected) |

`TestSp.Acs` models the handler as written, with `TestSp.MaxAgeAsWritten`. The corrected handler is the same function, `TestSp.AcsAfterConsume`, at `TestSp.MaxAgeCorrected`. `TestSp.CookieExpiresWithToken` proves that it signs in exactly when the handler as written does, with a cookie that expires with its token.

## Left out

- The SAML library is abstract. `generateAuthnRequest`, `parseAssertion`, `validateAssertion`, `parseAuthnRequest`, `validateAuthnRequest` and `generateAssertion` are function-typed parameters. Only `generateAuthnRequest` appears in `saml.ts`; the rest of `saml.ts` is not part of this model.
- TestSp.Login: `/login` passes `{ connection, relayState }` to `generateAuthnRequest`, but the function heading `saml.ts` at line 35 takes the connection alone. The model gives the abstract function both and lets it return or throw, so it does not capture what the library makes of that object.
- The connection records follow the columns `db.ts` writes and reads: `id`, `name` and, for IdP connections, `spAllowIdpInitiated` (`db.ts` lines 62-87 and 109-136). The types in `entity.ts` do not declare these fields, and the zod schemas `idpConnectionParser` and `spConnectionParser` are not part of this model. So any removal of unknown keys by those schemas is not modelled; the parsers are predicates that accept or reject a record as a whole.
- The checks of the zod parsers beyond an object's shape are predicates passed in: the connection parsers and `email()`. The login form's `z.string().email()` and the RelayState parser's `z.email()` are taken to be the same check. The text of zod's error messages is not modelled: every parse failure is one `ZodError` value.
- `jwt.sign`, with its secret and one-hour expiry, is one abstract function from the user name to a token or a throw. Cookie serialisation, Hono's context, the HTML pages and the logger are not modelled. A response is a redirect, an assertion page or an error page.
- The clock, `crypto.randomUUID()` and `toISOString` are parameters. `getMinutes`/`setMinutes` are modelled in UTC; time zones and leap seconds are not.
- A record's key order is insertion order. JavaScript lists integer-like keys such as `"1"` first, which the model does not; no column name is integer-like, and `toCamel` never makes or removes one.
- SQLite is modelled as in-memory sequences of rows. An INSERT appends; a `SELECT ... get` returns the first matching row in insertion order. The schema files (`db.sql` and the `CREATE TABLE` scripts) are not part of this model, so neither are their constraints such as unique keys. The registry's inserts rely only on the parser check.
- Concurrency is not modelled. Each consume runs its SELECT and UPDATE as one step, with no other request in between.
- `createDb`, `createIdpConnectionTable`, `createSpConnectionTable`, `proxyTables`, `initDb`, `openDb`, `init` and the Bun `strict` binding mode are left out. They read SQL files and set up the driver; the model starts from empty tables.
- Registry.ConnectionDb.GetAllSpConnections: the filter at `db.ts` line 196 keeps every row, because every row SQLite returns is an object, so the model has no filter.
- The test files' own mismatches with the code are not modelled. `testsp/src/db.test.ts` calls a `readRelayState` that `db.ts` does not export; the model's test follows `consumeRelayState`.
- The test IdP's own `/login` sets its cookie with the same `maxAge` as the test SP. That route is outside this model.
- The proxy's HTTP routes, the key scripts and the cluster scripts are outside this model.
