/**
 * Fetching the file manifests at app, table and row scope: whether a
 * conditional `If-None-Match` header is sent, when the fetch is skipped
 * altogether, and how the reply becomes "unchanged" (null), a manifest
 * document, or an error.
 */
module ManifestSync {
  import opened SyncCommon
  import opened ETagCache

  datatype FileManifestEntry = FileManifestEntry(filename: string, contentLength: int,
                                                 md5hash: string, downloadUrl: string)

  /** A parsed manifest body: `None` when the manifest or its file list is null. */
  type ManifestBody = Option<seq<FileManifestEntry>>

  /** The manifest ETag and the never-null list of entries. */
  datatype FileManifestDocument = FileManifestDocument(eTag: string, entries: seq<FileManifestEntry>)

  /** A manifest GET: its URI and its `If-None-Match` header, if any. */
  datatype ManifestRequest = ManifestRequest(uri: string, ifNoneMatch: Option<string>)

  /** The local database as the fetch sees it: readable, or failing with an availability error. */
  datatype Database = Available(store: ETagStore) | Unavailable

  /**
   * What a fetch did: the request it sent (`None` when it skipped the server)
   * and what it returned, where `Success(None)` is the null "unchanged" document.
   */
  datatype ManifestFetch = ManifestFetch(sent: Option<ManifestRequest>,
                                         result: Result<Option<FileManifestDocument>, SyncError>)

  /** A 200 response always carries an ETag header (its absence is a null dereference in the source). */
  predicate ETagPresent(reply: Reply<ManifestBody>)
  {
    reply.Responded? && reply.response.status == SC_OK ==> reply.response.etag.Some?
  }

  /** The manifest's file list with a null list read as empty. */
  function NormalizedEntries(body: ManifestBody): (entries: seq<FileManifestEntry>)
    ensures body.None? ==> entries == []
    ensures body.Some? ==> entries == body.value
  {
    if body.Some? then body.value else []
  }

  /** The cached tag for `key`; a database error counts as "no cached tag". */
  function CachedManifestETag(db: Database, key: ManifestKey): (tag: Option<string>)
    ensures db.Unavailable? ==> tag == None
    ensures db.Available? ==> tag == GetManifestSyncETag(db.store, key)
  {
    match db
    case Unavailable => None
    case Available(store) => GetManifestSyncETag(store, key)
  }

  /**
   * Interprets the reply to a manifest GET (accepted statuses 200 and 304).
   * A 304 is the null "unchanged" result, a 200 a document carrying the
   * response ETag and the normalized list, and, when `rejectEmpty`, an empty
   * list is the missing-configuration error.
   */
  function ReadManifestReply(reply: Reply<ManifestBody>, rejectEmpty: bool)
    : (r: Result<Option<FileManifestDocument>, SyncError>)
    requires ETagPresent(reply)
    ensures r == Success(None) <==> reply.Responded? && reply.response.status == SC_NOT_MODIFIED
    ensures r.Success? && r.value.Some? ==>
              && reply.Responded? && reply.response.status == SC_OK
              && r.value.value.eTag == reply.response.etag.value
              && r.value.value.entries == NormalizedEntries(reply.response.body)
    ensures r.Success? && r.value.Some? && rejectEmpty ==> r.value.value.entries != []
    ensures reply.Raised? ==> r == Failure(reply.error)
    ensures reply.Responded? && reply.response.status !in SC_OK_SC_NOT_MODIFIED ==>
              r == Failure(UnexpectedStatus(reply.response.status))
    ensures reply.Responded? && reply.response.status == SC_OK ==>
              (r.Failure? <==> rejectEmpty && NormalizedEntries(reply.response.body) == [])
    ensures reply.Responded? && reply.response.status == SC_OK && r.Failure? ==>
              r.error == ClientDetectedMissingConfigForClientVersion
  {
    match Execute(reply, SC_OK_SC_NOT_MODIFIED)
    case Failure(e) => Failure(e)
    case Success(response) =>
      if response.status == SC_NOT_MODIFIED then
        Success(None)
      else
        var files := NormalizedEntries(response.body);
        if rejectEmpty && |files| == 0 then
          Failure(ClientDetectedMissingConfigForClientVersion)
        else
          Success(Some(FileManifestDocument(response.etag.value, files)))
  }

  /**
   * The app- and table-level procedure. Unless local files are being pushed,
   * a cached tag is sent as `If-None-Match`, and when the server has already
   * reported that same tag no request is made and the result is "unchanged".
   * When pushing, no conditional header is sent and an empty list is returned.
   */
  function ConditionalManifestFetch(uri: string, pushLocalFiles: bool, serverReportedETag: Option<string>,
                                    cached: Option<string>, reply: Reply<ManifestBody>): (r: ManifestFetch)
    requires ETagPresent(reply)
    ensures r.sent.None? <==> !pushLocalFiles && cached.Some? && serverReportedETag == cached
    ensures r.sent.None? ==> r.result == Success(None)
    ensures r.sent.Some? ==>
              && r.sent.value == ManifestRequest(uri, if pushLocalFiles then None else cached)
              && r.result == ReadManifestReply(reply, !pushLocalFiles)
  {
    var ifNoneMatch := if !pushLocalFiles && cached.Some? then cached else None;
    if !pushLocalFiles && cached.Some? && serverReportedETag.Some? && serverReportedETag == cached then
      ManifestFetch(None, Success(None))
    else
      ManifestFetch(Some(ManifestRequest(uri, ifNoneMatch)), ReadManifestReply(reply, !pushLocalFiles))
  }

  /** `getAppLevelFileManifest`: the record is keyed by the app-level manifest URI and no table. */
  function AppLevelFileManifest(appManifestUri: string, pushLocalFiles: bool,
                                serverReportedAppLevelETag: Option<string>,
                                db: Database, reply: Reply<ManifestBody>): (r: ManifestFetch)
    requires ETagPresent(reply)
    ensures pushLocalFiles ==>
              r == ManifestFetch(Some(ManifestRequest(appManifestUri, None)), ReadManifestReply(reply, false))
    ensures db.Unavailable? && !pushLocalFiles ==>
              r == ManifestFetch(Some(ManifestRequest(appManifestUri, None)), ReadManifestReply(reply, true))
    ensures !pushLocalFiles && db.Available? ==>
              var cached := GetManifestSyncETag(db.store, ManifestKey(appManifestUri, None));
              && (cached.Some? && serverReportedAppLevelETag == cached ==> r == ManifestFetch(None, Success(None)))
              && (serverReportedAppLevelETag != cached || cached.None? ==>
                    r == ManifestFetch(Some(ManifestRequest(appManifestUri, cached)), ReadManifestReply(reply, true)))
  {
    ConditionalManifestFetch(appManifestUri, pushLocalFiles, serverReportedAppLevelETag,
                             CachedManifestETag(db, ManifestKey(appManifestUri, None)), reply)
  }

  /** `getTableLevelFileManifest`: the record is keyed by the table manifest URI and the table id. */
  function TableLevelFileManifest(tableManifestUri: string, tableId: string,
                                  serverReportedTableLevelETag: Option<string>, pushLocalFiles: bool,
                                  db: Database, reply: Reply<ManifestBody>): (r: ManifestFetch)
    requires ETagPresent(reply)
    ensures pushLocalFiles ==>
              r == ManifestFetch(Some(ManifestRequest(tableManifestUri, None)), ReadManifestReply(reply, false))
    ensures db.Unavailable? && !pushLocalFiles ==>
              r == ManifestFetch(Some(ManifestRequest(tableManifestUri, None)), ReadManifestReply(reply, true))
    ensures !pushLocalFiles && db.Available? ==>
              var cached := GetManifestSyncETag(db.store, ManifestKey(tableManifestUri, Some(tableId)));
              && (cached.Some? && serverReportedTableLevelETag == cached ==> r == ManifestFetch(None, Success(None)))
              && (serverReportedTableLevelETag != cached || cached.None? ==>
                    r == ManifestFetch(Some(ManifestRequest(tableManifestUri, cached)), ReadManifestReply(reply, true)))
  {
    ConditionalManifestFetch(tableManifestUri, pushLocalFiles, serverReportedTableLevelETag,
                             CachedManifestETag(db, ManifestKey(tableManifestUri, Some(tableId))), reply)
  }

  /**
   * `getRowLevelFileManifest`: always sends a request, conditional on the
   * row-level tag that is valid for this attachment state and hash, and never
   * treats an empty list as an error.
   */
  function RowLevelFileManifest(instanceManifestUri: string, tableId: string,
                                stateName: string, uriFragmentHash: string,
                                db: Database, reply: Reply<ManifestBody>): (r: ManifestFetch)
    requires ETagPresent(reply)
    ensures db.Unavailable? ==> r.sent == Some(ManifestRequest(instanceManifestUri, None))
    ensures db.Available? ==>
              r.sent == Some(ManifestRequest(instanceManifestUri,
                GetRowLevelManifestSyncETag(db.store, instanceManifestUri, tableId, stateName, uriFragmentHash)))
    ensures r.result == ReadManifestReply(reply, false)
    ensures r.result.Failure? ==> reply.Raised? || reply.response.status !in SC_OK_SC_NOT_MODIFIED
  {
    var eTag := match db
      case Unavailable => None
      case Available(store) => GetRowLevelManifestSyncETag(store, instanceManifestUri, tableId,
                                                           stateName, uriFragmentHash);
    ManifestFetch(Some(ManifestRequest(instanceManifestUri, eTag)), ReadManifestReply(reply, false))
  }

  /**
   * After the row-level tag `t` was recorded under one attachment state and
   * hash, a later fetch of the same manifest sends `If-None-Match: t` exactly
   * when the state and hash are unchanged, and otherwise fetches unconditionally.
   */
  lemma RowLevelSelectionChangeForcesFullFetch(store: ETagStore, instanceManifestUri: string, tableId: string,
                                               s1: string, h1: string, t: string,
                                               s2: string, h2: string, reply: Reply<ManifestBody>)
    requires IsEnumName(s1) && IsEnumName(s2) && IsFragmentHash(h1) && IsFragmentHash(h2)
    requires ETagPresent(reply)
    ensures RowLevelFileManifest(instanceManifestUri, tableId, s2, h2,
              Available(UpdateRowLevelManifestSyncETag(store, instanceManifestUri, tableId, s1, h1, Some(t))),
              reply).sent
            == Some(ManifestRequest(instanceManifestUri, if s1 == s2 && h1 == h2 then Some(t) else None))
  {
    RowLevelIsolation(store, instanceManifestUri, tableId, s1, h1, s2, h2, t);
  }

  /**
   * Recording the tag of an app- or table-level document and fetching again
   * while the server reports that same tag skips the server and reports
   * "unchanged", unless local files are being pushed.
   */
  lemma RecordedTagShortCircuits(store: ETagStore, uri: string, tableId: Option<string>, doc: FileManifestDocument,
                                 pushLocalFiles: bool, reply: Reply<ManifestBody>)
    requires ETagPresent(reply)
    ensures var cached := CachedManifestETag(Available(UpdateManifestSyncETag(store, ManifestKey(uri, tableId),
                                                                                 Some(doc.eTag))),
                                             ManifestKey(uri, tableId));
            var r := ConditionalManifestFetch(uri, pushLocalFiles, Some(doc.eTag), cached, reply);
            (r.sent.None? <==> !pushLocalFiles) && (r.sent.None? ==> r.result == Success(None))
  {
  }
}
