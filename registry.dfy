/** The connection registry: the `idp_connection` and `sp_connection` tables,
    how a connection is written to a row and how a row is read back. */
module Registry {

  import opened Results
  import opened Rows
  import opened Entity
  import opened ColumnNames

  /** Column names, each with the named parameter (`$spEntityId`) bound to it
      by an INSERT statement. */
  type Columns = seq<(string, string)>

  predicate DistinctColumns(columns: Columns)
  {
    forall i, j | 0 <= i < j < |columns| :: columns[i].0 != columns[j].0
  }

  /** The value bound to `$name`: the parameter object's key, NULL when it has none. */
  function Param(params: Record, name: string): Value
  {
    match Get(params, name)
    case Some(v) => v
    case None => VNull
  }

  /** The row that `INSERT INTO t (columns) VALUES ($names)` writes. */
  function InsertedRow(columns: Columns, params: Record): Record
    requires DistinctColumns(columns)
  {
    seq(|columns|, i requires 0 <= i < |columns| => (columns[i].0, Param(params, columns[i].1)))
  }

  /** Every column is the snake_case form of the parameter bound to it. */
  predicate CamelColumns(columns: Columns)
  {
    columns == [] || (ToCamel(columns[0].0) == columns[0].1 && CamelColumns(columns[1..]))
  }

  lemma {:induction false} CamelColumnsAt(columns: Columns, i: nat)
    requires CamelColumns(columns) && i < |columns|
    ensures ToCamel(columns[i].0) == columns[i].1
  {
    if i > 0 {
      CamelColumnsAt(columns[1..], i - 1);
    }
  }

  /** The parameter object has exactly the columns' parameters as keys, in that order. */
  predicate Aligned(columns: Columns, o: Record)
  {
    && CamelColumns(columns)
    && |columns| == |o|
    && forall i | 0 <= i < |o| :: columns[i].1 == o[i].0
  }

  /** `snakeToCamel` of the inserted row is the object that was inserted. */
  lemma ReadBackInsertedRow(columns: Columns, o: Record)
    requires DistinctColumns(columns) && Aligned(columns, o)
    ensures SnakeToCamel(InsertedRow(columns, o)) == o
  {
    var row := InsertedRow(columns, o);
    forall i | 0 <= i < |o| ensures row[i] == (columns[i].0, o[i].1) && ToCamel(row[i].0) == o[i].0 {
      GetAt(o, i);
      CamelColumnsAt(columns, i);
    }
    SnakeToCamelRenames(row);
  }

  /** Writing through `boolsToInts` and reading through `intsToBools` on the
      boolean columns gives the row of the original object. */
  lemma ReadBackConvertedRow(columns: Columns, o: Record, booleanColumns: seq<string>)
    requires DistinctColumns(columns) && Aligned(columns, o)
    requires forall i | 0 <= i < |o| :: o[i].1.VBool? <==> columns[i].0 in booleanColumns
    ensures IntsToBools(InsertedRow(columns, BoolsToInts(o)), booleanColumns) == InsertedRow(columns, o)
  {
    var ints := BoolsToInts(o);
    var written, read := InsertedRow(columns, ints), InsertedRow(columns, o);
    var back := IntsToBools(written, booleanColumns);
    forall i | 0 <= i < |o| ensures back[i] == read[i] {
      GetAt(o, i);
      GetAt(ints, i);
      assert written[i] == (columns[i].0, BoolToInt(o[i].1));
    }
  }

  function StrField(o: Record, key: string): Option<string>
  {
    match Get(o, key)
    case Some(VStr(s)) => Some(s)
    case _ => None
  }

  function BoolField(o: Record, key: string): Option<bool>
  {
    match Get(o, key)
    case Some(VBool(b)) => Some(b)
    case _ => None
  }

  lemma StrFieldAt(o: Record, i: nat, s: string)
    requires i < |o| && o[i].1 == VStr(s)
    ensures StrField(o, o[i].0) == Some(s)
  {
    GetAt(o, i);
  }

  lemma BoolFieldAt(o: Record, i: nat, b: bool)
    requires i < |o| && o[i].1 == VBool(b)
    ensures BoolField(o, o[i].0) == Some(b)
  {
    GetAt(o, i);
  }

  // ----- idp_connection -----

  const IdpColumns: Columns := [
    ("id", "id"),
    ("name", "name"),
    ("sp_entity_id", "spEntityId"),
    ("sp_acs_url", "spAcsUrl"),
    ("sp_allow_idp_initiated", "spAllowIdpInitiated"),
    ("idp_entity_id", "idpEntityId"),
    ("idp_sso_url", "idpSsoUrl"),
    ("signing_certificate", "signingCertificate")]

  const IdpBooleanColumns: seq<string> := ["sp_allow_idp_initiated"]

  /** The connection as the object handed to the query. */
  function IdpObject(c: IdpConnection): Record
  {
    [("id", VStr(c.id)),
     ("name", VStr(c.name)),
     ("spEntityId", VStr(c.spEntityId)),
     ("spAcsUrl", VStr(c.spAcsUrl)),
     ("spAllowIdpInitiated", VBool(c.spAllowIdpInitiated)),
     ("idpEntityId", VStr(c.idpEntityId)),
     ("idpSsoUrl", VStr(c.idpSsoUrl)),
     ("signingCertificate", VStr(c.signingCertificate))]
  }

  /** The row `insertIdpConnection` writes: the flag is stored as 1 or 0. */
  function IdpRow(c: IdpConnection): Record
  {
    InsertedRow(IdpColumns, BoolsToInts(IdpObject(c)))
  }

  /** The shape check of `idpConnectionParser` (its refinements are a predicate of the registry). */
  function ParseIdpConnection(o: Record): Option<IdpConnection>
  {
    var id, name := StrField(o, "id"), StrField(o, "name");
    var spEntityId, spAcsUrl := StrField(o, "spEntityId"), StrField(o, "spAcsUrl");
    var allow := BoolField(o, "spAllowIdpInitiated");
    var idpEntityId, idpSsoUrl := StrField(o, "idpEntityId"), StrField(o, "idpSsoUrl");
    var cert := StrField(o, "signingCertificate");
    if id.Some? && name.Some? && spEntityId.Some? && spAcsUrl.Some? && allow.Some?
       && idpEntityId.Some? && idpSsoUrl.Some? && cert.Some?
    then Some(IdpConnection(id.value, name.value, spEntityId.value, spAcsUrl.value, allow.value,
                            idpEntityId.value, idpSsoUrl.value, cert.value))
    else None
  }

  /** `snakeToCamel(intsToBools(row, ["sp_allow_idp_initiated"]))`, then the shape check. */
  function ReadIdpRow(row: Record): Option<IdpConnection>
  {
    ParseIdpConnection(SnakeToCamel(IntsToBools(row, IdpBooleanColumns)))
  }

  lemma IdpColumnsDistinct()
    ensures DistinctColumns(IdpColumns)
  {
  }

  lemma IdpColumnNames()
    ensures CamelColumns(IdpColumns)
  {
    ColumnId();
    ColumnName();
    ColumnSpEntityId();
    ColumnSpAcsUrl();
    ColumnSpAllowIdpInitiated();
    ColumnIdpEntityId();
    ColumnIdpSsoUrl();
    ColumnSigningCertificate();
  }

  /** Only the flag column holds a boolean. */
  lemma IdpBooleanColumnsExact(c: IdpConnection)
    ensures forall i | 0 <= i < |IdpObject(c)| :: IdpObject(c)[i].1.VBool? <==> IdpColumns[i].0 in IdpBooleanColumns
  {
  }

  lemma ParseIdpObject(c: IdpConnection)
    ensures ParseIdpConnection(IdpObject(c)) == Some(c)
  {
    var o := IdpObject(c);
    StrFieldAt(o, 0, c.id);
    StrFieldAt(o, 1, c.name);
    StrFieldAt(o, 2, c.spEntityId);
    StrFieldAt(o, 3, c.spAcsUrl);
    BoolFieldAt(o, 4, c.spAllowIdpInitiated);
    StrFieldAt(o, 5, c.idpEntityId);
    StrFieldAt(o, 6, c.idpSsoUrl);
    StrFieldAt(o, 7, c.signingCertificate);
  }

  /** The row written for a connection reads back as that connection. */
  lemma IdpRowReadsBack(c: IdpConnection)
    ensures ReadIdpRow(IdpRow(c)) == Some(c)
  {
    var o := IdpObject(c);
    IdpColumnsDistinct();
    IdpColumnNames();
    IdpBooleanColumnsExact(c);
    ReadBackConvertedRow(IdpColumns, o, IdpBooleanColumns);
    ReadBackInsertedRow(IdpColumns, o);
    ParseIdpObject(c);
  }

  /** `WHERE idp_entity_id = $idpEntityId` holds of a connection's row exactly when the connection has that entity id. */
  lemma IdpRowKey(c: IdpConnection, idpEntityId: string)
    ensures (Get(IdpRow(c), "idp_entity_id") == Some(VStr(idpEntityId))) == (c.idpEntityId == idpEntityId)
  {
    var ints := BoolsToInts(IdpObject(c));
    GetAt(ints, 5);
    GetAt(IdpRow(c), 5);
  }

  // ----- sp_connection -----

  const SpColumns: Columns := [
    ("id", "id"),
    ("name", "name"),
    ("idp_entity_id", "idpEntityId"),
    ("idp_sso_url", "idpSsoUrl"),
    ("private_key", "privateKey"),
    ("private_key_password", "privateKeyPassword"),
    ("signing_certificate", "signingCertificate"),
    ("sp_entity_id", "spEntityId"),
    ("sp_acs_url", "spAcsUrl")]

  function SpObject(c: SpConnection): Record
  {
    [("id", VStr(c.id)),
     ("name", VStr(c.name)),
     ("idpEntityId", VStr(c.idpEntityId)),
     ("idpSsoUrl", VStr(c.idpSsoUrl)),
     ("privateKey", VStr(c.privateKey)),
     ("privateKeyPassword", VStr(c.privateKeyPassword)),
     ("signingCertificate", VStr(c.signingCertificate)),
     ("spEntityId", VStr(c.spEntityId)),
     ("spAcsUrl", VStr(c.spAcsUrl))]
  }

  /** The row `insertSpConnection` writes: the object is bound as it is. */
  function SpRow(c: SpConnection): Record
  {
    InsertedRow(SpColumns, SpObject(c))
  }

  function ParseSpConnection(o: Record): Option<SpConnection>
  {
    var id, name := StrField(o, "id"), StrField(o, "name");
    var idpEntityId, idpSsoUrl := StrField(o, "idpEntityId"), StrField(o, "idpSsoUrl");
    var key, password := StrField(o, "privateKey"), StrField(o, "privateKeyPassword");
    var cert := StrField(o, "signingCertificate");
    var spEntityId, spAcsUrl := StrField(o, "spEntityId"), StrField(o, "spAcsUrl");
    if id.Some? && name.Some? && idpEntityId.Some? && idpSsoUrl.Some? && key.Some?
       && password.Some? && cert.Some? && spEntityId.Some? && spAcsUrl.Some?
    then Some(SpConnection(id.value, name.value, idpEntityId.value, idpSsoUrl.value, key.value,
                          password.value, cert.value, spEntityId.value, spAcsUrl.value))
    else None
  }

  /** `snakeToCamel(row)`, then the shape check. */
  function ReadSpRow(row: Record): Option<SpConnection>
  {
    ParseSpConnection(SnakeToCamel(row))
  }

  lemma SpColumnsDistinct()
    ensures DistinctColumns(SpColumns)
  {
  }

  lemma SpColumnNames()
    ensures CamelColumns(SpColumns)
  {
    ColumnId();
    ColumnName();
    ColumnIdpEntityId();
    ColumnIdpSsoUrl();
    ColumnPrivateKey();
    ColumnPrivateKeyPassword();
    ColumnSigningCertificate();
    ColumnSpEntityId();
    ColumnSpAcsUrl();
  }

  lemma ParseSpObject(c: SpConnection)
    ensures ParseSpConnection(SpObject(c)) == Some(c)
  {
    var o := SpObject(c);
    StrFieldAt(o, 0, c.id);
    StrFieldAt(o, 1, c.name);
    StrFieldAt(o, 2, c.idpEntityId);
    StrFieldAt(o, 3, c.idpSsoUrl);
    StrFieldAt(o, 4, c.privateKey);
    StrFieldAt(o, 5, c.privateKeyPassword);
    StrFieldAt(o, 6, c.signingCertificate);
    StrFieldAt(o, 7, c.spEntityId);
    StrFieldAt(o, 8, c.spAcsUrl);
  }

  lemma SpRowReadsBack(c: SpConnection)
    ensures ReadSpRow(SpRow(c)) == Some(c)
  {
    SpColumnsDistinct();
    SpColumnNames();
    ReadBackInsertedRow(SpColumns, SpObject(c));
    ParseSpObject(c);
  }

  lemma SpRowKeys(c: SpConnection, spEntityId: string, id: string)
    ensures (Get(SpRow(c), "sp_entity_id") == Some(VStr(spEntityId))) == (c.spEntityId == spEntityId)
    ensures (Get(SpRow(c), "id") == Some(VStr(id))) == (c.id == id)
  {
    var o := SpObject(c);
    GetAt(o, 0);
    GetAt(o, 7);
    GetAt(SpRow(c), 0);
    GetAt(SpRow(c), 7);
  }

  // ----- lookups on the connections themselves -----

  /** The first row `WHERE column = $value`. */
  function Where(column: string, value: string): Record -> bool
  {
    (row: Record) => Get(row, column) == Some(VStr(value))
  }

  function NoIdpConnection(idpEntityId: string): Message
  {
    Text("Invalid IdP entity ID: " + idpEntityId + ". No connection found")
  }

  const NoSpConnection: Message := Text("Invalid SP entity ID. No connection found")

  /** The first registered IdP connection with the entity id, in insertion order. */
  function IdpConnectionFor(connections: seq<IdpConnection>, idpEntityId: string): Result<IdpConnection>
  {
    match FirstIndex(connections, (c: IdpConnection) => c.idpEntityId == idpEntityId)
    case Some(i) => Ok(connections[i])
    case None => Fail(NoIdpConnection(idpEntityId))
  }

  function SpConnectionFor(connections: seq<SpConnection>, spEntityId: string): Result<SpConnection>
  {
    match FirstIndex(connections, (c: SpConnection) => c.spEntityId == spEntityId)
    case Some(i) => Ok(connections[i])
    case None => Fail(NoSpConnection)
  }

  function SpConnectionWithId(connections: seq<SpConnection>, id: string): Result<SpConnection>
  {
    match FirstIndex(connections, (c: SpConnection) => c.id == id)
    case Some(i) => Ok(connections[i])
    case None => Fail(NoSpConnection)
  }

  /** Registering a connection makes it the answer for its entity id unless
      one registered earlier already has that id; it never hides an earlier one. */
  lemma IdpConnectionAfterInsert(connections: seq<IdpConnection>, c: IdpConnection, idpEntityId: string)
    ensures IdpConnectionFor(connections + [c], idpEntityId)
         == if IdpConnectionFor(connections, idpEntityId).Ok? then IdpConnectionFor(connections, idpEntityId)
            else if c.idpEntityId == idpEntityId then Ok(c)
            else Fail(NoIdpConnection(idpEntityId))
  {
    FirstIndexAppend(connections, c, (c: IdpConnection) => c.idpEntityId == idpEntityId);
  }

  lemma SpConnectionAfterInsert(connections: seq<SpConnection>, c: SpConnection, spEntityId: string, id: string)
    ensures SpConnectionFor(connections + [c], spEntityId)
         == if SpConnectionFor(connections, spEntityId).Ok? then SpConnectionFor(connections, spEntityId)
            else if c.spEntityId == spEntityId then Ok(c)
            else Fail(NoSpConnection)
    ensures SpConnectionWithId(connections + [c], id)
         == if SpConnectionWithId(connections, id).Ok? then SpConnectionWithId(connections, id)
            else if c.id == id then Ok(c)
            else Fail(NoSpConnection)
  {
    FirstIndexAppend(connections, c, (c: SpConnection) => c.spEntityId == spEntityId);
    FirstIndexAppend(connections, c, (c: SpConnection) => c.id == id);
  }

  /** The registry database: the two connection tables, row by row. */
  class ConnectionDb {

    /** The checks of `idpConnectionParser` and `spConnectionParser` beyond
        the shape of the object. */
    const idpConnectionParser: IdpConnection -> bool
    const spConnectionParser: SpConnection -> bool

    var idpConnectionTable: seq<Record>
    var spConnectionTable: seq<Record>

    /** The connections the rows were written from, in insertion order. */
    ghost var idpConnections: seq<IdpConnection>
    ghost var spConnections: seq<SpConnection>

    ghost predicate Valid()
      reads this
    {
      && |idpConnectionTable| == |idpConnections|
      && (forall i | 0 <= i < |idpConnections| ::
            idpConnectionTable[i] == IdpRow(idpConnections[i]) && idpConnectionParser(idpConnections[i]))
      && |spConnectionTable| == |spConnections|
      && (forall i | 0 <= i < |spConnections| ::
            spConnectionTable[i] == SpRow(spConnections[i]) && spConnectionParser(spConnections[i]))
    }

    /** `createDb([createIdpConnectionTable, createSpConnectionTable])`. */
    constructor(idpCheck: IdpConnection -> bool, spCheck: SpConnection -> bool)
      ensures Valid()
      ensures idpConnectionParser == idpCheck && spConnectionParser == spCheck
      ensures idpConnections == [] && spConnections == []
    {
      idpConnectionParser := idpCheck;
      spConnectionParser := spCheck;
      idpConnectionTable := [];
      spConnectionTable := [];
      idpConnections := [];
      spConnections := [];
    }

    /** The parse throws before the INSERT runs when the connection is rejected. */
    method InsertIdpConnection(connection: IdpConnection) returns (outcome: Outcome<Empty>)
      requires Valid()
      modifies this
      ensures Valid()
      ensures idpConnectionParser(connection) ==> outcome == Returned(Empty) && idpConnections == old(idpConnections) + [connection]
      ensures !idpConnectionParser(connection) ==> outcome == Threw(ZodError) && idpConnections == old(idpConnections)
      ensures idpConnectionTable == old(idpConnectionTable) + (if idpConnectionParser(connection) then [IdpRow(connection)] else [])
      ensures spConnectionTable == old(spConnectionTable) && spConnections == old(spConnections)
    {
      if !idpConnectionParser(connection) {
        return Threw(ZodError);
      }
      idpConnectionTable := idpConnectionTable + [IdpRow(connection)];
      idpConnections := idpConnections + [connection];
      return Returned(Empty);
    }

    method InsertSpConnection(connection: SpConnection) returns (outcome: Outcome<Empty>)
      requires Valid()
      modifies this
      ensures Valid()
      ensures spConnectionParser(connection) ==> outcome == Returned(Empty) && spConnections == old(spConnections) + [connection]
      ensures !spConnectionParser(connection) ==> outcome == Threw(ZodError) && spConnections == old(spConnections)
      ensures spConnectionTable == old(spConnectionTable) + (if spConnectionParser(connection) then [SpRow(connection)] else [])
      ensures idpConnectionTable == old(idpConnectionTable) && idpConnections == old(idpConnections)
    {
      if !spConnectionParser(connection) {
        return Threw(ZodError);
      }
      spConnectionTable := spConnectionTable + [SpRow(connection)];
      spConnections := spConnections + [connection];
      return Returned(Empty);
    }

    /** `idpConnectionParser.parse(...)` of a row read back: it throws on a row it rejects. */
    function ParseIdpRow(row: Record): (r: Outcome<IdpConnection>)
      reads this
      ensures r.Returned? <==> ReadIdpRow(row).Some? && idpConnectionParser(ReadIdpRow(row).value)
      ensures r.Returned? ==> r.value == ReadIdpRow(row).value
      ensures r.Threw? ==> r == Threw(ZodError)
    {
      match ReadIdpRow(row)
      case Some(c) => if idpConnectionParser(c) then Returned(c) else Threw(ZodError)
      case None => Threw(ZodError)
    }

    function ParseSpRow(row: Record): (r: Outcome<SpConnection>)
      reads this
      ensures r.Returned? <==> ReadSpRow(row).Some? && spConnectionParser(ReadSpRow(row).value)
      ensures r.Returned? ==> r.value == ReadSpRow(row).value
      ensures r.Threw? ==> r == Threw(ZodError)
    {
      match ReadSpRow(row)
      case Some(c) => if spConnectionParser(c) then Returned(c) else Threw(ZodError)
      case None => Threw(ZodError)
    }

    function GetIdpConnection(idpEntityId: string): Outcome<Result<IdpConnection>>
      reads this
    {
      match FirstIndex(idpConnectionTable, Where("idp_entity_id", idpEntityId))
      case None => Returned(Fail(NoIdpConnection(idpEntityId)))
      case Some(i) =>
        match ParseIdpRow(idpConnectionTable[i])
        case Returned(c) => Returned(Ok(c))
        case Threw(e) => Threw(e)
    }

    function GetSpConnection(spEntityId: string): Outcome<Result<SpConnection>>
      reads this
    {
      match FirstIndex(spConnectionTable, Where("sp_entity_id", spEntityId))
      case None => Returned(Fail(NoSpConnection))
      case Some(i) =>
        match ParseSpRow(spConnectionTable[i])
        case Returned(c) => Returned(Ok(c))
        case Threw(e) => Threw(e)
    }

    function GetSpConnectionById(id: string): Outcome<Result<SpConnection>>
      reads this
    {
      match FirstIndex(spConnectionTable, Where("id", id))
      case None => Returned(Fail(NoSpConnection))
      case Some(i) =>
        match ParseSpRow(spConnectionTable[i])
        case Returned(c) => Returned(Ok(c))
        case Threw(e) => Threw(e)
    }

    /** Every row is an object, so the filter keeps them all; the first row the
        parser rejects makes the whole call throw. */
    function GetAllSpConnections(): Outcome<seq<SpConnection>>
      reads this
    {
      ParseAllSpRows(spConnectionTable)
    }

    function ParseAllSpRows(rows: seq<Record>): (r: Outcome<seq<SpConnection>>)
      reads this
      ensures r.Returned? <==> forall i | 0 <= i < |rows| :: ParseSpRow(rows[i]).Returned?
      ensures r.Returned? ==> |r.value| == |rows| && forall i | 0 <= i < |rows| :: r.value[i] == ParseSpRow(rows[i]).value
      ensures r.Threw? ==> r == Threw(ZodError)
    {
      if rows == [] then Returned([])
      else
        match ParseSpRow(rows[0])
        case Threw(e) => Threw(e)
        case Returned(c) =>
          match ParseAllSpRows(rows[1..])
          case Threw(e) => Threw(e)
          case Returned(cs) => Returned([c] + cs)
    }

    // ----- what the lookups return -----

    /** A registry built by the insert methods answers `getIdpConnection` with the
        first connection registered for the entity id, or the not-found failure; it never throws. */
    lemma GetIdpConnectionFindsFirst(idpEntityId: string)
      requires Valid()
      ensures GetIdpConnection(idpEntityId) == Returned(IdpConnectionFor(idpConnections, idpEntityId))
    {
      var where := Where("idp_entity_id", idpEntityId);
      var matches := (c: IdpConnection) => c.idpEntityId == idpEntityId;
      forall i | 0 <= i < |idpConnections| ensures where(idpConnectionTable[i]) == matches(idpConnections[i]) {
        IdpRowKey(idpConnections[i], idpEntityId);
      }
      FirstIndexAlike(idpConnectionTable, where, idpConnections, matches);
      match FirstIndex(idpConnections, matches)
      case Some(i) => IdpRowReadsBack(idpConnections[i]);
      case None =>
    }

    lemma GetSpConnectionFindsFirst(spEntityId: string)
      requires Valid()
      ensures GetSpConnection(spEntityId) == Returned(SpConnectionFor(spConnections, spEntityId))
    {
      var where := Where("sp_entity_id", spEntityId);
      var matches := (c: SpConnection) => c.spEntityId == spEntityId;
      forall i | 0 <= i < |spConnections| ensures where(spConnectionTable[i]) == matches(spConnections[i]) {
        SpRowKeys(spConnections[i], spEntityId, "");
      }
      FirstIndexAlike(spConnectionTable, where, spConnections, matches);
      match FirstIndex(spConnections, matches)
      case Some(i) => SpRowReadsBack(spConnections[i]);
      case None =>
    }

    lemma GetSpConnectionByIdFindsFirst(id: string)
      requires Valid()
      ensures GetSpConnectionById(id) == Returned(SpConnectionWithId(spConnections, id))
    {
      var where := Where("id", id);
      var matches := (c: SpConnection) => c.id == id;
      forall i | 0 <= i < |spConnections| ensures where(spConnectionTable[i]) == matches(spConnections[i]) {
        SpRowKeys(spConnections[i], "", id);
      }
      FirstIndexAlike(spConnectionTable, where, spConnections, matches);
      match FirstIndex(spConnections, matches)
      case Some(i) => SpRowReadsBack(spConnections[i]);
      case None =>
    }

    /** `getAllSpConnections` gives back every registered SP connection, in insertion order. */
    lemma GetAllSpConnectionsGivesAll()
      requires Valid()
      ensures GetAllSpConnections() == Returned(spConnections)
    {
      forall i | 0 <= i < |spConnections| ensures ParseSpRow(spConnectionTable[i]) == Returned(spConnections[i]) {
        SpRowReadsBack(spConnections[i]);
      }
      var all := ParseAllSpRows(spConnectionTable);
      assert all.Returned? && |all.value| == |spConnections|;
      assert forall i | 0 <= i < |spConnections| :: all.value[i] == spConnections[i];
      assert all.value == spConnections;
      assert GetAllSpConnections() == all;
    }
  }

  /** The registry tests: a connection inserted into an empty registry is what
      each lookup returns. */
  method InsertAndSelectSpConnection(idpCheck: IdpConnection -> bool, spCheck: SpConnection -> bool, c: SpConnection)
    returns (bySpEntityId: Outcome<Result<SpConnection>>, byId: Outcome<Result<SpConnection>>, all: Outcome<seq<SpConnection>>)
    requires spCheck(c)
    ensures bySpEntityId == Returned(Ok(c)) && byId == Returned(Ok(c)) && all == Returned([c])
  {
    var db := new ConnectionDb(idpCheck, spCheck);
    var inserted := db.InsertSpConnection(c);
    assert db.spConnections == [c];
    SpConnectionAfterInsert([], c, c.spEntityId, c.id);
    db.GetSpConnectionFindsFirst(c.spEntityId);
    db.GetSpConnectionByIdFindsFirst(c.id);
    db.GetAllSpConnectionsGivesAll();
    bySpEntityId := db.GetSpConnection(c.spEntityId);
    byId := db.GetSpConnectionById(c.id);
    all := db.GetAllSpConnections();
  }

  method InsertAndSelectIdpConnection(idpCheck: IdpConnection -> bool, spCheck: SpConnection -> bool, c: IdpConnection)
    returns (byIdpEntityId: Outcome<Result<IdpConnection>>)
    requires idpCheck(c)
    ensures byIdpEntityId == Returned(Ok(c))
  {
    var db := new ConnectionDb(idpCheck, spCheck);
    var inserted := db.InsertIdpConnection(c);
    assert db.idpConnections == [c];
    IdpConnectionAfterInsert([], c, c.idpEntityId);
    db.GetIdpConnectionFindsFirst(c.idpEntityId);
    byIdpEntityId := db.GetIdpConnection(c.idpEntityId);
  }
}
