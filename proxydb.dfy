/** The proxy's own tables: the single-use RelayState table and the SP-to-IdP
    link table. */
module ProxyDb {

  import opened Results
  import opened Rows
  import opened Entity
  import opened ColumnNames
  import opened Registry
  import opened ReplayGuard

  /** `sp_entity_id` is checked by `z.string()` only. */
  const AnyString: string -> bool := (s: string) => true

  datatype Link = Link(spEntityId: string, idpEntityId: string)

  const LinkColumns: Columns := [("sp_entity_id", "spEntityId"), ("idp_entity_id", "idpEntityId")]

  /** The row `createLink` writes from its arguments. */
  function LinkRow(l: Link): Record
  {
    InsertedRow(LinkColumns, [("spEntityId", VStr(l.spEntityId)), ("idpEntityId", VStr(l.idpEntityId))])
  }

  /** The shape `linkParser` checks. */
  function ParseLink(o: Record): Option<Link>
  {
    var sp, idp := StrField(o, "spEntityId"), StrField(o, "idpEntityId");
    if sp.Some? && idp.Some? then Some(Link(sp.value, idp.value)) else None
  }

  /** `linkParser.parse(snakeToCamel(result))`. */
  function ReadLinkRow(row: Record): (r: Outcome<Link>)
    ensures r.Threw? ==> r == Threw(ZodError)
    ensures r.Returned? <==> ParseLink(SnakeToCamel(row)).Some?
  {
    match ParseLink(SnakeToCamel(row))
    case Some(l) => Returned(l)
    case None => Threw(ZodError)
  }

  lemma LinkRowReadsBack(l: Link)
    ensures ReadLinkRow(LinkRow(l)) == Returned(l)
  {
    var o: Record := [("spEntityId", VStr(l.spEntityId)), ("idpEntityId", VStr(l.idpEntityId))];
    ColumnSpEntityId();
    ColumnIdpEntityId();
    ReadBackInsertedRow(LinkColumns, o);
    StrFieldAt(o, 0, l.spEntityId);
    StrFieldAt(o, 1, l.idpEntityId);
  }

  lemma LinkRowKeys(l: Link, spEntityId: string, idpEntityId: string)
    ensures (Get(LinkRow(l), "sp_entity_id") == Some(VStr(spEntityId))) == (l.spEntityId == spEntityId)
    ensures (Get(LinkRow(l), "idp_entity_id") == Some(VStr(idpEntityId))) == (l.idpEntityId == idpEntityId)
  {
    var o: Record := [("spEntityId", VStr(l.spEntityId)), ("idpEntityId", VStr(l.idpEntityId))];
    GetAt(o, 0);
    GetAt(o, 1);
    GetAt(LinkRow(l), 0);
    GetAt(LinkRow(l), 1);
  }

  function NoLinkedSp(idpEntityId: string): Message
  {
    Text("No linked SP found for IdP: " + idpEntityId)
  }

  function NoLinkedIdp(spEntityId: string): Message
  {
    Text("No linked IdP found for SP: " + spEntityId)
  }

  /** The first link created for the IdP, in creation order. */
  function LinkForIdp(links: seq<Link>, idpEntityId: string): Result<Link>
  {
    match FirstIndex(links, (l: Link) => l.idpEntityId == idpEntityId)
    case Some(i) => Ok(links[i])
    case None => Fail(NoLinkedSp(idpEntityId))
  }

  function LinkForSp(links: seq<Link>, spEntityId: string): Result<Link>
  {
    match FirstIndex(links, (l: Link) => l.spEntityId == spEntityId)
    case Some(i) => Ok(links[i])
    case None => Fail(NoLinkedIdp(spEntityId))
  }

  /** A new link answers both lookups unless an earlier link already does. */
  lemma LinkAfterCreate(links: seq<Link>, l: Link)
    ensures LinkForIdp(links + [l], l.idpEntityId)
         == if LinkForIdp(links, l.idpEntityId).Ok? then LinkForIdp(links, l.idpEntityId) else Ok(l)
    ensures LinkForSp(links + [l], l.spEntityId)
         == if LinkForSp(links, l.spEntityId).Ok? then LinkForSp(links, l.spEntityId) else Ok(l)
  {
    FirstIndexAppend(links, l, (x: Link) => x.idpEntityId == l.idpEntityId);
    FirstIndexAppend(links, l, (x: Link) => x.spEntityId == l.spEntityId);
  }

  class ProxyDatabase {

    var relayStateTable: seq<RelayStateRow>
    var linkTable: seq<Record>

    /** The links the rows were written from, in creation order. */
    ghost var links: seq<Link>

    ghost predicate Valid()
      reads this
    {
      && UsedIsFlag(relayStateTable)
      && |linkTable| == |links|
      && forall i | 0 <= i < |links| :: linkTable[i] == LinkRow(links[i])
    }

    /** `createDb([proxyTables])`: both tables empty. */
    constructor()
      ensures Valid()
      ensures relayStateTable == [] && linkTable == [] && links == []
    {
      relayStateTable := [];
      linkTable := [];
      links := [];
    }

    /** `recordRelayState`, with `Date.now()` passed in as `now`. */
    method RecordRelayState(relayState: string, spEntityId: string, now: int)
      requires Valid()
      modifies this
      ensures Valid()
      ensures relayStateTable == Recorded(old(relayStateTable), relayState, spEntityId, now)
      ensures linkTable == old(linkTable) && links == old(links)
    {
      relayStateTable := relayStateTable + [RelayStateRow(relayState, spEntityId, now, 0)];
    }

    /** `consumeRelayState`. The rows only ever hold 0 or 1 in `used` and any
        string is accepted for `sp_entity_id`, so the parse at the end never throws. */
    method ConsumeRelayState(relayState: string) returns (result: Result<RelayStateRow>)
      requires Valid()
      modifies this
      ensures Valid()
      ensures Returned(result) == Consume(old(relayStateTable), relayState, AnyString).outcome
      ensures relayStateTable == Consume(old(relayStateTable), relayState, AnyString).table
      ensures linkTable == old(linkTable) && links == old(links)
    {
      var selected := Selected(relayStateTable, relayState);
      if selected.None? {
        return Fail(Text(InvalidRelayState));
      }
      var row := relayStateTable[selected.value];
      relayStateTable := MarkUsed(relayStateTable, relayState);
      assert ParseRelayState(row, AnyString) == Returned(row);
      return Ok(row);
    }

    method CreateLink(spEntityId: string, idpEntityId: string)
      requires Valid()
      modifies this
      ensures Valid()
      ensures linkTable == old(linkTable) + [LinkRow(Link(spEntityId, idpEntityId))]
      ensures links == old(links) + [Link(spEntityId, idpEntityId)]
      ensures relayStateTable == old(relayStateTable)
    {
      linkTable := linkTable + [LinkRow(Link(spEntityId, idpEntityId))];
      links := links + [Link(spEntityId, idpEntityId)];
    }

    function GetLinkedSpEntityId(idpEntityId: string): Outcome<Result<Link>>
      reads this
    {
      match FirstIndex(linkTable, Where("idp_entity_id", idpEntityId))
      case None => Returned(Fail(NoLinkedSp(idpEntityId)))
      case Some(i) =>
        match ReadLinkRow(linkTable[i])
        case Returned(l) => Returned(Ok(l))
        case Threw(e) => Threw(e)
    }

    function GetLinkedIdpEntityId(spEntityId: string): Outcome<Result<Link>>
      reads this
    {
      match FirstIndex(linkTable, Where("sp_entity_id", spEntityId))
      case None => Returned(Fail(NoLinkedIdp(spEntityId)))
      case Some(i) =>
        match ReadLinkRow(linkTable[i])
        case Returned(l) => Returned(Ok(l))
        case Threw(e) => Threw(e)
    }

    /** On a table built by `createLink`, the lookup by IdP returns the first link
        created for it, or the not-found failure; it never throws. */
    lemma GetLinkedSpEntityIdFindsFirst(idpEntityId: string)
      requires Valid()
      ensures GetLinkedSpEntityId(idpEntityId) == Returned(LinkForIdp(links, idpEntityId))
    {
      var where := Where("idp_entity_id", idpEntityId);
      var matches := (l: Link) => l.idpEntityId == idpEntityId;
      forall i | 0 <= i < |links| ensures where(linkTable[i]) == matches(links[i]) {
        LinkRowKeys(links[i], "", idpEntityId);
      }
      FirstIndexAlike(linkTable, where, links, matches);
      match FirstIndex(links, matches)
      case Some(i) => LinkRowReadsBack(links[i]);
      case None =>
    }

    lemma GetLinkedIdpEntityIdFindsFirst(spEntityId: string)
      requires Valid()
      ensures GetLinkedIdpEntityId(spEntityId) == Returned(LinkForSp(links, spEntityId))
    {
      var where := Where("sp_entity_id", spEntityId);
      var matches := (l: Link) => l.spEntityId == spEntityId;
      forall i | 0 <= i < |links| ensures where(linkTable[i]) == matches(links[i]) {
        LinkRowKeys(links[i], spEntityId, "");
      }
      FirstIndexAlike(linkTable, where, links, matches);
      match FirstIndex(links, matches)
      case Some(i) => LinkRowReadsBack(links[i]);
      case None =>
    }
  }

  /** The proxy's RelayState test: a recorded token is consumed once, with the
      recorded values and `used = 0`, and the second consume fails. */
  method RecordThenConsumeTwice(relayState: string, spEntityId: string, now: int)
    returns (first: Result<RelayStateRow>, second: Result<RelayStateRow>)
    ensures first == Ok(RelayStateRow(relayState, spEntityId, now, 0))
    ensures second == Fail(Text(InvalidRelayState))
  {
    var db := new ProxyDatabase();
    db.RecordRelayState(relayState, spEntityId, now);
    RecordThenConsume([], relayState, spEntityId, now, AnyString);
    SecondConsumeFails(db.relayStateTable, relayState, AnyString);
    first := db.ConsumeRelayState(relayState);
    second := db.ConsumeRelayState(relayState);
  }

  /** The proxy's link test: after `createLink` both lookups return the link. */
  method CreateLinkThenLookUp(spEntityId: string, idpEntityId: string)
    returns (bySp: Outcome<Result<Link>>, byIdp: Outcome<Result<Link>>)
    ensures bySp == Returned(Ok(Link(spEntityId, idpEntityId)))
    ensures byIdp == Returned(Ok(Link(spEntityId, idpEntityId)))
  {
    var db := new ProxyDatabase();
    db.CreateLink(spEntityId, idpEntityId);
    LinkAfterCreate([], Link(spEntityId, idpEntityId));
    assert db.links == [] + [Link(spEntityId, idpEntityId)];
    db.GetLinkedIdpEntityIdFindsFirst(spEntityId);
    db.GetLinkedSpEntityIdFindsFirst(idpEntityId);
    bySp := db.GetLinkedIdpEntityId(spEntityId);
    byIdp := db.GetLinkedSpEntityId(idpEntityId);
  }
}
