/** The test SP's RelayState table: each token is bound to the email address
    the user typed at login. */
module TestSpDb {

  import opened Results
  import opened Entity
  import opened ReplayGuard

  class RelayStateStore {

    /** `z.email()`, the check `relayStateParser` makes of the `email` column. */
    const isEmail: string -> bool

    var relayStateTable: seq<RelayStateRow>

    ghost predicate Valid()
      reads this
    {
      UsedIsFlag(relayStateTable)
    }

    /** The database file as `init` leaves it the first time: an empty table. */
    constructor(emailCheck: string -> bool)
      ensures Valid()
      ensures isEmail == emailCheck && relayStateTable == []
    {
      isEmail := emailCheck;
      relayStateTable := [];
    }

    /** `recordRelayState`, with `Date.now()` passed in as `now`. */
    method RecordRelayState(relayState: string, email: string, now: int)
      requires Valid()
      modifies this
      ensures Valid()
      ensures relayStateTable == Recorded(old(relayStateTable), relayState, email, now)
    {
      relayStateTable := relayStateTable + [RelayStateRow(relayState, email, now, 0)];
    }

    /** `consumeRelayState`. The UPDATE runs before the parse, so a row whose
        email the parser rejects is spent all the same, and the call throws. */
    method ConsumeRelayState(relayState: string) returns (outcome: Outcome<Result<RelayStateRow>>)
      requires Valid()
      modifies this
      ensures Valid()
      ensures outcome == Consume(old(relayStateTable), relayState, isEmail).outcome
      ensures relayStateTable == Consume(old(relayStateTable), relayState, isEmail).table
    {
      var selected := Selected(relayStateTable, relayState);
      if selected.None? {
        return Returned(Fail(Text(InvalidRelayState)));
      }
      var row := relayStateTable[selected.value];
      relayStateTable := MarkUsed(relayStateTable, relayState);
      var parsed := ParseRelayState(row, isEmail);
      match parsed
      case Returned(r) => outcome := Returned(Ok(r));
      case Threw(e) => outcome := Threw(e);
    }
  }

  /** The test SP's RelayState test: a recorded token is returned once, with
      `used = 0`, and the second consume fails. */
  method RecordThenConsumeTwice(emailCheck: string -> bool, relayState: string, email: string, now: int)
    returns (first: Outcome<Result<RelayStateRow>>, second: Outcome<Result<RelayStateRow>>)
    requires emailCheck(email)
    ensures first == Returned(Ok(RelayStateRow(relayState, email, now, 0)))
    ensures second == Returned(Fail(Text(InvalidRelayState)))
  {
    var store := new RelayStateStore(emailCheck);
    store.RecordRelayState(relayState, email, now);
    RecordThenConsume([], relayState, email, now, emailCheck);
    SecondConsumeFails(store.relayStateTable, relayState, emailCheck);
    first := store.ConsumeRelayState(relayState);
    second := store.ConsumeRelayState(relayState);
  }

  /** A token bound to an address the parser rejects: the consume throws, and
      the token cannot be used again. */
  method RejectedEmailBurnsToken(emailCheck: string -> bool, relayState: string, email: string, now: int)
    returns (first: Outcome<Result<RelayStateRow>>, second: Outcome<Result<RelayStateRow>>)
    requires !emailCheck(email)
    ensures first == Threw(ZodError)
    ensures second == Returned(Fail(Text(InvalidRelayState)))
  {
    var store := new RelayStateStore(emailCheck);
    store.RecordRelayState(relayState, email, now);
    assert Selected(store.relayStateTable, relayState) == Some(0);
    SecondConsumeFails(store.relayStateTable, relayState, emailCheck);
    first := store.ConsumeRelayState(relayState);
    second := store.ConsumeRelayState(relayState);
  }
}
