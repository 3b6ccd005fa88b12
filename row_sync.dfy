/**
 * Tables and rows: the requests that fetch change sets and row updates
 * (chosen by whether the table has ever been synced), the batch of wire rows
 * that `alterRows` submits, and the in-process cache of table resources that
 * `createTable` fills and `deleteTable` empties.
 */
module RowSync {
  import opened SyncCommon

  datatype Column = Column(elementKey: string, elementName: string, elementType: string,
                           listChildElementKeys: string)

  datatype TableDefinition = TableDefinition(tableId: string, schemaETag: string, columns: seq<Column>)

  /** A table as the server describes it: its URIs and its current data ETag (null before the first sync). */
  datatype TableResource = TableResource(tableId: string, schemaETag: string, definitionUri: string,
                                         dataUri: string, diffUri: string, instanceFilesUri: string,
                                         dataETag: Option<string>)

  datatype DataKeyValue = DataKeyValue(column: string, value: string)

  datatype RowFilterScope = RowFilterScope(access: string, rowOwner: string, groupReadOnly: string,
                                           groupModify: string, groupPrivileged: string)

  /** A local row to push. */
  datatype SyncRow = SyncRow(rowId: string, rowETag: Option<string>, formId: string, locale: string,
                             savepointType: string, savepointTimestamp: string, savepointCreator: string,
                             filterScope: RowFilterScope, values: seq<DataKeyValue>, deleted: bool)

  /** A row as it goes on the wire. */
  datatype Row = Row(rowId: string, rowETag: Option<string>, formId: string, locale: string,
                     savepointType: string, savepointTimestamp: string, savepointCreator: string,
                     filterScope: RowFilterScope, values: seq<DataKeyValue>, deleted: bool)

  /** The body of an alter-rows request: the rows and the data ETag they were based on. */
  datatype RowList = RowList(rows: seq<Row>, dataETag: Option<string>)

  datatype RowOutcome = RowOutcome(row: Row, outcome: string)
  datatype RowOutcomeList = RowOutcomeList(rows: seq<RowOutcome>, dataETag: string)
  datatype ChangeSetList = ChangeSetList(changeSets: seq<string>, dataETag: string, sequenceValue: string)
  datatype RowResourceList = RowResourceList(rows: seq<Row>, dataETag: string,
                                             resumeCursor: Option<string>, hasMoreResults: bool)

  /** A request sent and the operation's result. */
  datatype Call<Q, T> = Call(sent: Q, result: Result<T, SyncError>)

  /** The body of an accepted 200 reply, or the error executing the request gave. */
  function ReadOkReply<B>(reply: Reply<B>): (r: Result<B, SyncError>)
    ensures r.Success? <==> reply.Responded? && reply.response.status == SC_OK
    ensures r.Success? ==> r.value == reply.response.body
    ensures r.Failure? ==> Execute(reply, SC_OK_ONLY) == Failure(r.error)
  {
    match Execute(reply, SC_OK_ONLY)
    case Success(response) => Success(response.body)
    case Failure(e) => Failure(e)
  }

  // ---------------------------------------------------------------- change sets and updates

  /** The change-set list request: from the given data ETag, or (null) from the beginning. */
  datatype ChangeSetsRequest = ChangeSetsRequest(diffUri: string, sinceDataETag: Option<string>)

  /**
   * `getChangeSets`: a table that has never been synced asks for the full
   * change-set history; otherwise the caller's data ETag is sent.
   */
  function GetChangeSets(table: TableResource, dataETag: Option<string>, reply: Reply<ChangeSetList>)
    : (c: Call<ChangeSetsRequest, ChangeSetList>)
    ensures c.sent.diffUri == table.diffUri
    ensures table.dataETag.None? ==> c.sent.sinceDataETag.None?
    ensures table.dataETag.Some? ==> c.sent.sinceDataETag == dataETag
    ensures c.result.Success? <==> reply.Responded? && reply.response.status == SC_OK
  {
    var effectiveDataETag := if table.dataETag.Some? then dataETag else None;
    Call(ChangeSetsRequest(table.diffUri, effectiveDataETag), ReadOkReply(reply))
  }

  /** The rows of one change set. */
  datatype ChangeSetRequest = ChangeSetRequest(diffUri: string, dataETag: string, activeOnly: bool,
                                               resumeCursor: Option<string>)

  /**
   * `getChangeSet`: both the table's data ETag and the requested one must be
   * non-null; otherwise the call fails with an illegal argument before any
   * request is sent.
   */
  function GetChangeSet(table: TableResource, dataETag: Option<string>, activeOnly: bool,
                        resumeCursor: Option<string>, reply: Reply<RowResourceList>)
    : (c: Call<Option<ChangeSetRequest>, RowResourceList>)
    ensures c.sent.None? <==> table.dataETag.None? || dataETag.None?
    ensures c.sent.None? ==> c.result == Failure(IllegalArgument)
    ensures c.sent.Some? ==>
              && c.sent.value == ChangeSetRequest(table.diffUri, dataETag.value, activeOnly, resumeCursor)
              && (c.result.Success? <==> reply.Responded? && reply.response.status == SC_OK)
  {
    if table.dataETag.None? || dataETag.None? then
      Call(None, Failure(IllegalArgument))
    else
      Call(Some(ChangeSetRequest(table.diffUri, dataETag.value, activeOnly, resumeCursor)), ReadOkReply(reply))
  }

  /** A page of rows: the full current data, or the changes since a data ETag. */
  datatype UpdatesRequest =
    | FullData(dataUri: string, resumeCursor: Option<string>, fetchLimit: int)
    | DataDiff(diffUri: string, sinceDataETag: string, resumeCursor: Option<string>, fetchLimit: int)

  /**
   * `getUpdates`: the full-data URI when either the table's or the caller's
   * data ETag is null, the diff against the caller's data ETag otherwise.
   */
  function GetUpdates(table: TableResource, dataETag: Option<string>, resumeCursor: Option<string>,
                      fetchLimit: int, reply: Reply<RowResourceList>)
    : (c: Call<UpdatesRequest, RowResourceList>)
    ensures c.sent.FullData? <==> table.dataETag.None? || dataETag.None?
    ensures c.sent.FullData? ==> c.sent.dataUri == table.dataUri
    ensures c.sent.DataDiff? ==> c.sent.diffUri == table.diffUri && c.sent.sinceDataETag == dataETag.value
    ensures c.sent.resumeCursor == resumeCursor && c.sent.fetchLimit == fetchLimit
    ensures c.result.Success? <==> reply.Responded? && reply.response.status == SC_OK
  {
    var request := if table.dataETag.None? || dataETag.None? then FullData(table.dataUri, resumeCursor, fetchLimit)
                   else DataDiff(table.diffUri, dataETag.value, resumeCursor, fetchLimit);
    Call(request, ReadOkReply(reply))
  }

  /**
   * A single change set can be requested exactly when `getUpdates` would ask
   * for a diff, and both then name the same diff URI and data ETag.
   */
  lemma ChangeSetAgreesWithUpdates(table: TableResource, dataETag: Option<string>, activeOnly: bool,
                                   resumeCursor: Option<string>, fetchLimit: int,
                                   rowsReply: Reply<RowResourceList>)
    ensures var one := GetChangeSet(table, dataETag, activeOnly, resumeCursor, rowsReply).sent;
            var page := GetUpdates(table, dataETag, resumeCursor, fetchLimit, rowsReply).sent;
            && (one.Some? <==> page.DataDiff?)
            && (one.Some? ==> one.value.diffUri == page.diffUri && one.value.dataETag == page.sinceDataETag)
  {
  }

  // ---------------------------------------------------------------- alterRows

  /** `Row.forUpdate(...)` followed by `setDeleted`: the wire form of a local row. */
  function RowForUpdate(r: SyncRow): Row
  {
    Row(r.rowId, r.rowETag, r.formId, r.locale, r.savepointType, r.savepointTimestamp,
        r.savepointCreator, r.filterScope, r.values, r.deleted)
  }

  /** The alter-rows PUT: the table's data URI and the row list. */
  datatype AlterRowsRequest = AlterRowsRequest(dataUri: string, body: RowList)

  /**
   * `alterRows`: one wire row per local row, in the same order, submitted
   * with the table resource's data ETag as the batch precondition; only a
   * 200 is accepted.
   */
  method AlterRows(resource: TableResource, rowsToAlter: seq<SyncRow>, reply: Reply<RowOutcomeList>)
    returns (sent: AlterRowsRequest, result: Result<RowOutcomeList, SyncError>)
    ensures sent.dataUri == resource.dataUri
    ensures sent.body.dataETag == resource.dataETag
    ensures |sent.body.rows| == |rowsToAlter|
    ensures forall i :: 0 <= i < |rowsToAlter| ==> sent.body.rows[i] == RowForUpdate(rowsToAlter[i])
    ensures result.Success? <==> reply.Responded? && reply.response.status == SC_OK
    ensures result.Success? ==> result.value == reply.response.body
    ensures result.Failure? ==> Execute(reply, SC_OK_ONLY) == Failure(result.error)
  {
    var rows: seq<Row> := [];
    var i := 0;
    while i < |rowsToAlter|
      invariant 0 <= i <= |rowsToAlter|
      invariant |rows| == i
      invariant forall k :: 0 <= k < i ==> rows[k] == RowForUpdate(rowsToAlter[k])
    {
      var s := rowsToAlter[i];
      var row := Row(s.rowId, s.rowETag, s.formId, s.locale, s.savepointType, s.savepointTimestamp,
                     s.savepointCreator, s.filterScope, s.values, false);
      row := row.(deleted := s.deleted);
      rows := rows + [row];
      i := i + 1;
    }
    sent := AlterRowsRequest(resource.dataUri, RowList(rows, resource.dataETag));
    result := ReadOkReply(reply);
  }

  // ---------------------------------------------------------------- the table resource cache

  /** The create-table PUT: the table URI and the definition in its body. */
  datatype CreateTableRequest = CreateTableRequest(tableUri: string, definition: TableDefinition)

  /** The synchronizer's state that outlives a call: table resources cached by table id. */
  class AggregateSynchronizer {
    var resources: map<string, TableResource>

    constructor ()
      ensures resources == map[]
    {
      resources := map[];
    }

    /**
     * `createTable`: sends the definition; on a 200 the returned resource is
     * cached under its own table id, and on any failure the cache is unchanged.
     */
    method CreateTable(tableUri: string, tableId: string, schemaETag: string, columns: seq<Column>,
                       reply: Reply<TableResource>)
      returns (sent: CreateTableRequest, result: Result<TableResource, SyncError>)
      modifies this
      ensures sent == CreateTableRequest(tableUri, TableDefinition(tableId, schemaETag, columns))
      ensures result.Success? <==> reply.Responded? && reply.response.status == SC_OK
      ensures result.Success? ==> result.value == reply.response.body
      ensures result.Failure? ==> Execute(reply, SC_OK_ONLY) == Failure(result.error)
      ensures result.Success? ==> resources == old(resources)[result.value.tableId := result.value]
      ensures result.Failure? ==> resources == old(resources)
    {
      sent := CreateTableRequest(tableUri, TableDefinition(tableId, schemaETag, columns));
      result := ReadOkReply(reply);
      if result.Success? {
        var resource := result.value;
        resources := resources[resource.tableId := resource];
      }
    }

    /**
     * `deleteTable`: sends the DELETE to the definition URI; the cache entry
     * is evicted only once the server has answered 200.
     */
    method DeleteTable(table: TableResource, reply: Reply<()>)
      returns (sentUri: string, result: Outcome<SyncError>)
      modifies this
      ensures sentUri == table.definitionUri
      ensures result.Pass? <==> reply.Responded? && reply.response.status == SC_OK
      ensures result.Fail? ==> Execute(reply, SC_OK_ONLY) == Failure(result.error)
      ensures result.Pass? ==> resources == old(resources) - {table.tableId}
      ensures result.Fail? ==> resources == old(resources)
    {
      sentUri := table.definitionUri;
      var executed := ReadOkReply(reply);
      if executed.Failure? {
        return sentUri, Fail(executed.error);
      }
      resources := resources - {table.tableId};
      result := Pass;
    }
  }

  /**
   * Creating a table and then deleting the resource the server returned
   * leaves no cache entry for it. This method is a proof about the cache,
   * not part of the synchronizer: both replies are fixed to 200.
   */
  method CreateThenDelete(sync: AggregateSynchronizer, tableUri: string, tableId: string, schemaETag: string,
                          columns: seq<Column>, created: TableResource)
    modifies sync
    ensures created.tableId !in sync.resources
    ensures forall id :: id != created.tableId && id in old(sync.resources) ==>
              id in sync.resources && sync.resources[id] == old(sync.resources)[id]
  {
    var _, r := sync.CreateTable(tableUri, tableId, schemaETag, columns,
                                 Responded(Response(SC_OK, None, created)));
    assert r == Success(created);
    var _, d := sync.DeleteTable(created, Responded(Response(SC_OK, None, ())));
  }
}
