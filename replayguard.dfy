/** The single-use RelayState table shared by the proxy and the test SP: a row
    per issued token, `used` flipped from 0 to 1 the first time the token is
    consumed. */
module ReplayGuard {

  import opened Results
  import opened Rows
  import opened Entity

  /** A row of `relay_state`. `boundTo` is the column recorded beside the
      token: `sp_entity_id` in the proxy, `email` in the test SP. `timestamp`
      is milliseconds since the epoch. */
  datatype RelayStateRow = RelayStateRow(relayState: string, boundTo: string, timestamp: int, used: int)

  const InvalidRelayState: string := "RelayState is invalid."

  /** `WHERE relay_state = $relayState AND used = 0`. */
  predicate Unused(row: RelayStateRow, token: string)
  {
    row.relayState == token && row.used == 0
  }

  /** The row the consuming SELECT returns: the first unused row with the token. */
  function Selected(table: seq<RelayStateRow>, token: string): (r: Option<nat>)
    ensures r.Some? ==> r.value < |table| && Unused(table[r.value], token)
    ensures r.Some? ==> forall j | 0 <= j < r.value :: !Unused(table[j], token)
    ensures r.None? <==> forall j | 0 <= j < |table| :: !Unused(table[j], token)
  {
    FirstIndex(table, (row: RelayStateRow) => Unused(row, token))
  }

  /** `UPDATE relay_state SET used = 1 WHERE relay_state = $relayState`. */
  function MarkUsed(table: seq<RelayStateRow>, token: string): seq<RelayStateRow>
  {
    seq(|table|, i requires 0 <= i < |table| =>
      if table[i].relayState == token then table[i].(used := 1) else table[i])
  }

  /** The INSERT of `recordRelayState`: a fresh row, not yet used. */
  function Recorded(table: seq<RelayStateRow>, token: string, boundTo: string, now: int): (t: seq<RelayStateRow>)
    ensures |t| == |table| + 1 && t[..|table|] == table
    ensures t[|table|] == RelayStateRow(token, boundTo, now, 0)
  {
    table + [RelayStateRow(token, boundTo, now, 0)]
  }

  /** `relayStateParser.parse(result)`: `used` must be the literal 0 or 1 and
      `boundTo` must pass the column's own check; it throws otherwise. */
  function ParseRelayState(row: RelayStateRow, accepts: string -> bool): (r: Outcome<RelayStateRow>)
    ensures r.Returned? <==> (row.used == 0 || row.used == 1) && accepts(row.boundTo)
    ensures r.Returned? ==> r.value == row
    ensures r.Threw? ==> r == Threw(ZodError)
  {
    if (row.used == 0 || row.used == 1) && accepts(row.boundTo) then Returned(row) else Threw(ZodError)
  }

  /** What a consume returns and the table it leaves behind. */
  datatype Consumed = Consumed(outcome: Outcome<Result<RelayStateRow>>, table: seq<RelayStateRow>)

  /** `consumeRelayState`: SELECT, fail when nothing is found, UPDATE, then parse
      the row that the SELECT returned. */
  function Consume(table: seq<RelayStateRow>, token: string, accepts: string -> bool): (c: Consumed)
    ensures c.outcome == Returned(Fail(Text(InvalidRelayState))) <==> forall i | 0 <= i < |table| :: !Unused(table[i], token)
    ensures c.outcome == Returned(Fail(Text(InvalidRelayState))) ==> c.table == table
    ensures c.outcome != Returned(Fail(Text(InvalidRelayState))) ==> c.table == MarkUsed(table, token)
    ensures c.outcome.Returned? && c.outcome.value.Ok? ==>
              var row := c.outcome.value.value;
              row in table && Unused(row, token) && accepts(row.boundTo)
    ensures c.outcome.Threw? ==> c.outcome == Threw(ZodError)
  {
    match Selected(table, token)
    case None => Consumed(Returned(Fail(Text(InvalidRelayState))), table)
    case Some(i) =>
      var parsed := match ParseRelayState(table[i], accepts)
                    case Returned(row) => Returned(Ok(row))
                    case Threw(e) => Threw(e);
      Consumed(parsed, MarkUsed(table, token))
  }

  /** Only `used` of the rows with the token changes. */
  lemma MarkUsedChangesOnlyToken(table: seq<RelayStateRow>, token: string)
    ensures |MarkUsed(table, token)| == |table|
    ensures forall i | 0 <= i < |table| && table[i].relayState != token :: MarkUsed(table, token)[i] == table[i]
    ensures forall i | 0 <= i < |table| && table[i].relayState == token ::
              MarkUsed(table, token)[i] == table[i].(used := 1)
  {
  }

  /** After a consume that found the token, no row with it is unused. */
  lemma ConsumeSpendsToken(table: seq<RelayStateRow>, token: string, accepts: string -> bool)
    requires Consume(table, token, accepts).outcome != Returned(Fail(Text(InvalidRelayState)))
    ensures forall i | 0 <= i < |Consume(table, token, accepts).table| ::
              !Unused(Consume(table, token, accepts).table[i], token)
  {
  }

  /** A second consume of the same token fails and changes nothing, whatever the first returned. */
  lemma SecondConsumeFails(table: seq<RelayStateRow>, token: string, accepts: string -> bool)
    ensures var after := Consume(table, token, accepts).table;
            Consume(after, token, accepts) == Consumed(Returned(Fail(Text(InvalidRelayState))), after)
  {
    var first := Consume(table, token, accepts);
    if first.outcome != Returned(Fail(Text(InvalidRelayState))) {
      ConsumeSpendsToken(table, token, accepts);
    }
  }

  /** A token recorded when no unused row with it exists is consumed exactly
      once: the consume returns the recorded row. */
  lemma RecordThenConsume(table: seq<RelayStateRow>, token: string, boundTo: string, now: int, accepts: string -> bool)
    requires forall i | 0 <= i < |table| :: !Unused(table[i], token)
    requires accepts(boundTo)
    ensures Consume(Recorded(table, token, boundTo, now), token, accepts).outcome
         == Returned(Ok(RelayStateRow(token, boundTo, now, 0)))
  {
    var t := Recorded(table, token, boundTo, now);
    assert Selected(t, token) == Some(|table|);
  }

  /** A row rejected by the parser still has its token burnt. */
  lemma RejectedRowIsBurnt(table: seq<RelayStateRow>, token: string, accepts: string -> bool)
    requires Consume(table, token, accepts).outcome.Threw?
    ensures forall i | 0 <= i < |table| && table[i].relayState == token ::
              Consume(table, token, accepts).table[i].used == 1
    ensures exists i | 0 <= i < |table| :: Unused(table[i], token) && !accepts(table[i].boundTo)
  {
    var i := Selected(table, token).value;
    assert Unused(table[i], token) && !accepts(table[i].boundTo);
  }

  /** Every row written by `recordRelayState` and the UPDATE holds 0 or 1 in `used`. */
  ghost predicate UsedIsFlag(table: seq<RelayStateRow>)
  {
    forall i | 0 <= i < |table| :: table[i].used == 0 || table[i].used == 1
  }

  lemma FlagsPreserved(table: seq<RelayStateRow>, token: string, boundTo: string, now: int, accepts: string -> bool)
    requires UsedIsFlag(table)
    ensures UsedIsFlag(Recorded(table, token, boundTo, now))
    ensures UsedIsFlag(Consume(table, token, accepts).table)
  {
  }

  /** When every bound value is acceptable (`z.string()` in the proxy), a consume never throws. */
  lemma ConsumeNeverThrows(table: seq<RelayStateRow>, token: string, accepts: string -> bool)
    requires forall i | 0 <= i < |table| :: accepts(table[i].boundTo)
    ensures Consume(table, token, accepts).outcome.Returned?
  {
  }

  // ----- the replay guard over any sequence of calls -----

  datatype Call = RecordCall(token: string, boundTo: string, now: int) | ConsumeCall(token: string)

  /** How many of the calls are consumes of `token` that returned its row. */
  function Successes(table: seq<RelayStateRow>, calls: seq<Call>, token: string, accepts: string -> bool): nat
    decreases |calls|
  {
    if calls == [] then 0
    else match calls[0]
      case RecordCall(t, b, now) => Successes(Recorded(table, t, b, now), calls[1..], token, accepts)
      case ConsumeCall(t) =>
        var c := Consume(table, t, accepts);
        (if t == token && c.outcome.Returned? && c.outcome.value.Ok? then 1 else 0)
          + Successes(c.table, calls[1..], token, accepts)
  }

  function Records(calls: seq<Call>, token: string): nat
  {
    if calls == [] then 0
    else (if calls[0].RecordCall? && calls[0].token == token then 1 else 0) + Records(calls[1..], token)
  }

  /** The unused rows that carry the token. */
  function UnusedCount(table: seq<RelayStateRow>, token: string): nat
  {
    if table == [] then 0
    else (if Unused(table[0], token) then 1 else 0) + UnusedCount(table[1..], token)
  }

  lemma {:induction false} UnusedCountAppend(table: seq<RelayStateRow>, row: RelayStateRow, token: string)
    ensures UnusedCount(table + [row], token) == UnusedCount(table, token) + (if Unused(row, token) then 1 else 0)
  {
    if table != [] {
      assert (table + [row])[1..] == table[1..] + [row];
      UnusedCountAppend(table[1..], row, token);
    }
  }

  lemma {:induction false} UnusedCountNone(table: seq<RelayStateRow>, token: string)
    requires forall i | 0 <= i < |table| :: !Unused(table[i], token)
    ensures UnusedCount(table, token) == 0
  {
    if table != [] {
      UnusedCountNone(table[1..], token);
    }
  }

  lemma {:induction false} UnusedCountPositive(table: seq<RelayStateRow>, token: string, i: nat)
    requires i < |table| && Unused(table[i], token)
    ensures UnusedCount(table, token) > 0
  {
    if i > 0 {
      UnusedCountPositive(table[1..], token, i - 1);
    }
  }

  /** A consume never adds an unused row, whichever token it spends. */
  lemma {:induction false} MarkUsedNeverAdds(table: seq<RelayStateRow>, spent: string, token: string)
    ensures UnusedCount(MarkUsed(table, spent), token) <= UnusedCount(table, token)
  {
    if table != [] {
      assert MarkUsed(table, spent)[1..] == MarkUsed(table[1..], spent);
      MarkUsedNeverAdds(table[1..], spent, token);
    }
  }

  /** Successful consumes so far plus unused rows never exceed the records. */
  lemma {:induction false} SuccessesBounded(table: seq<RelayStateRow>, calls: seq<Call>, token: string, accepts: string -> bool)
    ensures Successes(table, calls, token, accepts) <= UnusedCount(table, token) + Records(calls, token)
    decreases |calls|
  {
    if calls != [] {
      match calls[0]
      case RecordCall(t, b, now) =>
        var next := Recorded(table, t, b, now);
        UnusedCountAppend(table, RelayStateRow(t, b, now, 0), token);
        SuccessesBounded(next, calls[1..], token, accepts);
      case ConsumeCall(t) =>
        var c := Consume(table, t, accepts);
        SuccessesBounded(c.table, calls[1..], token, accepts);
        if c.outcome == Returned(Fail(Text(InvalidRelayState))) {
        } else {
          MarkUsedNeverAdds(table, t, token);
          if t == token {
            ConsumeSpendsToken(table, token, accepts);
            UnusedCountNone(c.table, token);
            var i := Selected(table, token).value;
            UnusedCountPositive(table, token, i);
          }
        }
    }
  }

  /** The replay guard: from an empty table, a token is consumed successfully at
      most as many times as it was recorded; a token recorded once is accepted once. */
  lemma AtMostOneUsePerRecord(calls: seq<Call>, token: string, accepts: string -> bool)
    ensures Successes([], calls, token, accepts) <= Records(calls, token)
  {
    SuccessesBounded([], calls, token, accepts);
  }
}
