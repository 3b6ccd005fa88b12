# AggregateSynchronizer decision procedures in Dafny

This project models the decision logic inside the ODK Services
`AggregateSynchronizer`. That class is the client side of the ODK 2.0 REST
sync protocol. The model covers:

- **Row-level manifest ETag scoping**: the document ETag is stored behind the
  restrictive prefix `state.name() + "." + hash + "|"` and read back only under
  the same prefix (`ETagCache`).
- **Manifest fetches** at app, table and row level (`ManifestSync`):
  - whether `If-None-Match` is sent;
  - when the server is skipped because it reported the cached tag;
  - how a 304 becomes the null "unchanged" result;
  - how a missing list becomes empty;
  - when an empty list is the missing-configuration error.
- **Row sync** (`RowSync`):
  - which change-set or row-update request is chosen, depending on whether the table has a data ETag;
  - the wire rows `alterRows` builds;
  - the in-process `resources` cache that `createTable` fills and `deleteTable` empties. This is a class with a mutable map field.
- **The `downloadFile` retry loop** (`FileDownload`):
  - up to three attempts;
  - an exception is swallowed on the first attempt only;
  - the body is written to a `.tmp` sibling and renamed onto the destination;
  - the temp file is removed whenever the body was read; an attempt that ends before reading (transport error, unexpected status, 304) leaves any stale `.tmp` file as it was.
- **Batch transfer framing** (`BatchTransfer`):
  - the multipart upload, with quote-doubled file names;
  - the download request manifest;
  - the nested boundary search, where the last header element that carries a boundary wins;
  - the multipart read loop, which stops at a part without a relative path.
- **Status classification** of the server probes (`ServerInfo`).

What the environment does is given to the model as values:

- An HTTP exchange is a `Reply`: either a response (status, optional ETag, parsed body) or a raised exception.
- The database's ETag records are a map.
- The file system is a map from path to bytes.
- Hashing, path resolution, content-type guessing and UUID generation are function or value parameters.

The transport wrapper's execute step is `SyncCommon.Execute`:

- a transport exception propagates;
- a status outside the accepted set that the wrapper does not map to a typed exception becomes `UnexpectedStatus`.

The wrapper turns some statuses into typed exceptions that the synchronizer catches by type (an access-denied status, for instance). Such a status is given to the model as `Raised(AccessDenied)`, never as a `Responded` reply.

The code under `services_app/src/main/java/org/opendatakit/services/sync/service/logic/AggregateSynchronizer.java` is followed as written:

- At app and table level, an empty manifest list throws when files are not being pushed. It does not return an empty list, as the older instrumentation tests expect.
- In the boundary search, `break` leaves only the inner loop, so a later header element's boundary overrides an earlier one. This holds even when the later parameter is bare (`boundary` with no value): the boundary is then null and the download fails.

## Model

| member | source | states |
|---|---|---|
| ETagCache.GetManifestSyncETag | services_app/src/main/java/org/opendatakit/services/sync/service/logic/AggregateSynchronizer.java:1136-1154 | The cached manifest tag for (manifest URI, table id); a missing record reads as null |
| ETagCache.UpdateManifestSyncETag | services_app/src/main/java/org/opendatakit/services/sync/service/logic/AggregateSynchronizer.java:1157-1176 | Recording a tag (possibly null) makes the getter return it; the key set grows by that key only; every other record is kept |
| ETagCache.GetRowLevelManifestSyncETag | services_app/src/main/java/org/opendatakit/services/sync/service/logic/AggregateSynchronizer.java:1179-1214 | A tag is returned iff a stored value exists and starts with `state + "." + hash + "|"`; the stored value is then exactly that prefix followed by the returned tag |
| ETagCache.UpdateRowLevelManifestSyncETag | services_app/src/main/java/org/opendatakit/services/sync/service/logic/AggregateSynchronizer.java:1217-1251 | Stores prefix + tag (null stays null); reading back with the same state and hash yields exactly the tag given; every other record is unchanged |
| ETagCache.PrefixDeterminesScope | services_app/src/main/java/org/opendatakit/services/sync/service/logic/AggregateSynchronizer.java:1204-1209 | If state names contain no '.' and hashes no '|', a value written behind one restrictive prefix starts with another only when the states and hashes are equal |
| ETagCache.RowLevelIsolation | services_app/src/main/java/org/opendatakit/services/sync/service/logic/AggregateSynchronizer.java:1204-1209 | After storing tag t under (s1, h1), the getter under (s2, h2) returns t when the pairs are equal and null otherwise |
| ManifestSync.CachedManifestETag | services_app/src/main/java/org/opendatakit/services/sync/service/logic/AggregateSynchronizer.java:491-497 | A database availability error while reading the cached tag counts as "no cached tag" |
| ManifestSync.ReadManifestReply | services_app/src/main/java/org/opendatakit/services/sync/service/logic/AggregateSynchronizer.java:516-552 | The result is null ("unchanged") iff the status is 304. A 200 gives a document with the response ETag and the entries, a null list read as empty. With `rejectEmpty`, a 200 fails iff the list is empty, with the missing-configuration error. Other statuses and transport errors fail |
| ManifestSync.ConditionalManifestFetch | services_app/src/main/java/org/opendatakit/services/sync/service/logic/AggregateSynchronizer.java:501-512 | No request is sent iff not pushing, a tag is cached and the server reported that same tag; the result is then null. Otherwise the request carries `If-None-Match` with the cached tag only when not pushing, and an empty list is rejected only when not pushing |
| ManifestSync.AppLevelFileManifest | services_app/src/main/java/org/opendatakit/services/sync/service/logic/AggregateSynchronizer.java:487-559 | The app-level fetch, keyed by the app manifest URI without table id: no header and no short-circuit when pushing; when the database is unavailable and not pushing, an unconditional request whose empty list is still rejected; otherwise the cached-tag short-circuit or a conditional request |
| ManifestSync.TableLevelFileManifest | services_app/src/main/java/org/opendatakit/services/sync/service/logic/AggregateSynchronizer.java:561-633 | The same decision for a table manifest, keyed by the table manifest URI and the table id, including the unconditional request that still rejects an empty list when the database is unavailable |
| ManifestSync.RowLevelFileManifest | services_app/src/main/java/org/opendatakit/services/sync/service/logic/AggregateSynchronizer.java:636-696 | A request is always sent, with `If-None-Match` set to the row-level tag valid under the current state and hash; an empty list is never an error, so a failure comes only from the transport or an unexpected status |
| ManifestSync.RowLevelSelectionChangeForcesFullFetch | services_app/src/main/java/org/opendatakit/services/sync/service/logic/AggregateSynchronizer.java:648-664 | After recording tag t under (s1, h1), the next row-level fetch under (s2, h2) is conditional on t iff the pairs are equal, and unconditional otherwise |
| ManifestSync.RecordedTagShortCircuits | services_app/src/main/java/org/opendatakit/services/sync/service/logic/AggregateSynchronizer.java:505-511 | Once a document's tag is recorded, a fetch whose server-reported tag equals it skips the server and yields null, unless pushing |
| RowSync.ReadOkReply | services_app/src/main/java/org/opendatakit/services/sync/service/logic/AggregateSynchronizer.java:360-366 | A reply succeeds iff it is a 200 response, and then yields its body; otherwise it fails with the execute step's error unchanged |
| RowSync.GetChangeSets | services_app/src/main/java/org/opendatakit/services/sync/service/logic/AggregateSynchronizer.java:348-374 | A table without a data ETag asks for the full history (null tag); otherwise the caller's tag is sent; success iff 200 |
| RowSync.GetChangeSet | services_app/src/main/java/org/opendatakit/services/sync/service/logic/AggregateSynchronizer.java:378-407 | No request and an illegal-argument failure iff either data ETag is null; otherwise the diff URI, tag, active-only flag and cursor are sent |
| RowSync.GetUpdates | services_app/src/main/java/org/opendatakit/services/sync/service/logic/AggregateSynchronizer.java:410-442 | The full-data URI iff either data ETag is null, otherwise a diff against the caller's tag; the cursor and fetch limit are passed on |
| RowSync.ChangeSetAgreesWithUpdates | services_app/src/main/java/org/opendatakit/services/sync/service/logic/AggregateSynchronizer.java:383-385 | A single change set can be requested exactly when `getUpdates` asks for a diff, and both then name the same URI and tag |
| RowSync.AggregateSynchronizer.constructor | services_app/src/main/java/org/opendatakit/services/sync/service/logic/AggregateSynchronizer.java:94-101 | A new synchronizer starts with an empty table resource cache |
| RowSync.AlterRows | services_app/src/main/java/org/opendatakit/services/sync/service/logic/AggregateSynchronizer.java:445-485 | One wire row per input row, in order, copying id, row ETag, metadata, values and deleted flag; the batch carries the resource's data ETag; success iff 200; a failure is the execute step's error unchanged |
| RowSync.AggregateSynchronizer.CreateTable | services_app/src/main/java/org/opendatakit/services/sync/service/logic/AggregateSynchronizer.java:288-322 | On success the returned resource is cached under its own table id and nothing else changes; on failure the cache is unchanged; a failure is the execute step's error unchanged |
| RowSync.AggregateSynchronizer.DeleteTable | services_app/src/main/java/org/opendatakit/services/sync/service/logic/AggregateSynchronizer.java:325-345 | Succeeds iff the server answers 200, and only then removes the table's cache entry; every other entry is kept; a failure is the execute step's error unchanged |
| RowSync.CreateThenDelete | services_app/src/main/java/org/opendatakit/services/sync/service/logic/AggregateSynchronizer.java:314-344 | Creating a table and deleting the returned resource leaves no entry for it and keeps every other entry |
| FileDownload.AfterAttempt | services_app/src/main/java/org/opendatakit/services/sync/service/logic/AggregateSynchronizer.java:729-801 | One attempt changes the destination only by committing a completely read body. A 304 or a transport error changes nothing. The temp file survives only when nothing changed. Other paths are untouched |
| FileDownload.RetryFrom | services_app/src/main/java/org/opendatakit/services/sync/service/logic/AggregateSynchronizer.java:717-817 | By induction over the attempts left: attempt bounds, retriable earlier attempts, and when the result fails with the last attempt's error. Also the destination after a commit, and the frame on all other paths |
| FileDownload.DownloadGuarantees | services_app/src/main/java/org/opendatakit/services/sync/service/logic/AggregateSynchronizer.java:717-817 | One to three attempts. Every attempt but the last was a refused rename or a first-attempt exception. Failure iff an exception on attempt two or three. A third attempt only after a refused second rename. The destination is untouched or holds the last attempt's complete body. No temp file written by this call is left behind; a temp file present at the end is a pre-existing one, untouched |
| FileDownload.NotModifiedIsNoOp | services_app/src/main/java/org/opendatakit/services/sync/service/logic/AggregateSynchronizer.java:732-735 | A 304 on the first attempt ends with success after one request and an unchanged file system |
| FileDownload.RefusedRenamesEndNormally | services_app/src/main/java/org/opendatakit/services/sync/service/logic/AggregateSynchronizer.java:717-763 | When every rename is refused, three attempts are made; the download then returns normally with the destination untouched and no temp file |
| FileDownload.DownloadFile | services_app/src/main/java/org/opendatakit/services/sync/service/logic/AggregateSynchronizer.java:707-819 | The loop ends exactly as the retry policy `Retry` says (file system, result, number of attempts); each attempt's `If-None-Match` is the hash of the destination as it was, or absent |
| BatchTransfer.UnescapeEscape | services_app/src/main/java/org/opendatakit/services/sync/service/logic/AggregateSynchronizer.java:938 | Doubling the quotes in a file name loses nothing: undoubling gives the original name back |
| BatchTransfer.EscapeLength | services_app/src/main/java/org/opendatakit/services/sync/service/logic/AggregateSynchronizer.java:938 | The escaped name is longer than the original by exactly the number of quote characters |
| BatchTransfer.UploadInstanceFileBatch | services_app/src/main/java/org/opendatakit/services/sync/service/logic/AggregateSynchronizer.java:915-980 | No request iff some local file is missing, and then a local I/O failure. Otherwise: boundary `"ref"+uuid`; one part per attachment in batch order, named by its quote-doubled row path, with the file's bytes; each part name unescapes to the row path; success iff 201, otherwise the execute step's error unchanged |
| BatchTransfer.RequestedFiles | services_app/src/main/java/org/opendatakit/services/sync/service/logic/AggregateSynchronizer.java:988-994 | The request manifest lists exactly the attachments' row paths, in order |
| BatchTransfer.FirstBoundaryAt | services_app/src/main/java/org/opendatakit/services/sync/service/logic/AggregateSynchronizer.java:1025-1033 | The inner loop stops at the first parameter named `boundary`, and finds none when no parameter has that name |
| BatchTransfer.NoCarrierNoBoundary | services_app/src/main/java/org/opendatakit/services/sync/service/logic/AggregateSynchronizer.java:1023-1041 | When no header element carries a boundary parameter, the boundary stays null |
| BatchTransfer.LastCarrierDecides | services_app/src/main/java/org/opendatakit/services/sync/service/logic/AggregateSynchronizer.java:1023-1034 | When element i carries a boundary parameter and no later element does, that parameter's value is used, whatever earlier elements carry; a bare parameter there yields a null boundary |
| BatchTransfer.ExtractBoundary | services_app/src/main/java/org/opendatakit/services/sync/service/logic/AggregateSynchronizer.java:1020-1034 | The nested loop computes `LastElementBoundary`: the value (possibly null) of the first boundary parameter of the last element that has one |
| BatchTransfer.FirstUnnamed | services_app/src/main/java/org/opendatakit/services/sync/service/logic/AggregateSynchronizer.java:1053-1059 | The index of the first part without a relative path: every earlier part has one, and that part has none |
| BatchTransfer.WrittenKeepsUntargeted | services_app/src/main/java/org/opendatakit/services/sync/service/logic/AggregateSynchronizer.java:1049-1072 | Writing the parts leaves every file that no part targets as it was |
| BatchTransfer.WrittenHoldsLastWriter | services_app/src/main/java/org/opendatakit/services/sync/service/logic/AggregateSynchronizer.java:1049-1072 | A file targeted by several parts ends up holding the body of the last of them |
| BatchTransfer.WriteParts | services_app/src/main/java/org/opendatakit/services/sync/service/logic/AggregateSynchronizer.java:1047-1072 | The parts before the first unnamed part are written in stream order. The loop passes iff every part is named, and otherwise fails with a version mismatch |
| BatchTransfer.DownloadInstanceFileBatch | services_app/src/main/java/org/opendatakit/services/sync/service/logic/AggregateSynchronizer.java:983-1087 | Posts exactly the row paths; a non-200 reply writes nothing and fails with the error the execute step gave; no boundary gives a version mismatch and writes nothing; otherwise the parts are written up to the first unnamed one, with success iff all are named and otherwise the version-mismatch error |
| ServerInfo.ClassifyTransmission | services_app/src/main/java/org/opendatakit/services/sync/service/logic/AggregateSynchronizer.java:129-136 | A transmission failure caused by a connect timeout becomes a configuration error; any other error is rethrown unchanged |
| ServerInfo.VerifyServerSupportsAppName | services_app/src/main/java/org/opendatakit/services/sync/service/logic/AggregateSynchronizer.java:104-143 | Passes iff 200 with a list holding the app name. A 404 is a configuration error, as is a connect timeout. A list without the name is the app-name error. Other statuses and errors propagate |
| ServerInfo.ListOrEmpty | services_app/src/main/java/org/opendatakit/services/sync/service/logic/AggregateSynchronizer.java:146-229 | Shared by `getUserRoles` and `getUsers`. A 404 and access denial read as the empty list; a 200 yields the listed entries. A connect timeout is a configuration error; everything else fails as raised |
| ServerInfo.ProbesDisagreeOnMissingEndpoint | services_app/src/main/java/org/opendatakit/services/sync/service/logic/AggregateSynchronizer.java:117-179 | On a 404 or an access denial the app-name check fails while the role list is empty |

## Left out

- `HttpRestProtocolWrapper` is not part of this model.
  - URI construction and request building are not modelled. URIs are plain string parameters.
  - `httpClientExecute` is modelled by `SyncCommon.Execute`: transport errors pass through, and a status outside the accepted set becomes `UnexpectedStatus`. Statuses the wrapper reports as typed exceptions (such as access denied) are given as `Raised` replies. The contents of the named status sets are taken from their names.
  - `HttpRestProtocolWrapper.BOUNDARY` is taken to be `"boundary"`.
- JSON (de)serialisation, gzip, `MultipartEntityBuilder` and `MultipartStream` are foreign libraries.
  - Replies carry already-parsed bodies.
  - A multipart response is a sequence of (headers, body) parts.
  - The relative path of a part is a function parameter standing for `extractInstanceFileRelativeFilename`.
- The database service is a map of ETag records.
  - `getFileSyncETag`, `updateFileSyncETag` and `deleteAllSyncETagsExceptForCurrentServer` are pure pass-throughs to it and are not modelled.
- `updateTableSchemaETagAndPurgePotentiallyChangedDocumentETags` is outside the scope of this model. It asks the database to purge document ETags, passing a null instance-files URI when the old schema ETag is null and otherwise one built with `constructRealizedTableIdUri`.
- Other operations are left out because they are plain request/response pass-throughs with no decision logic of their own: `getTables`, `getTableDefinition`, `deleteConfigFile`, `uploadConfigFile`, `uploadInstanceFile` and `createCommonFileAttachmentTerms`.
- The MD5 hash, `asRowpathUri`, `getRowpathFile`, `determineContentType` and `UUID.randomUUID()` are function or value parameters.
- A missing ETag header on a 200 manifest response is a null dereference in the source. It is a precondition here (`ETagPresent`).
  - Likewise, the Content-Type header of a batch download is assumed present.
- `SyncAttachmentState` is not part of this model. Its `name()` is a string.
  - The isolation lemmas assume state names contain no '.' and hashes contain no '|'.
- Stream draining, `close()` calls in `finally` blocks, and logging are not modelled.
- An I/O failure while writing a downloaded part to disk is not modelled. Each part is written whole.
- `MAX_BATCH_SIZE` is declared but never used, so no size check is modelled.
- `BatchTransfer.UploadInstanceFileBatch`: a local file that cannot be opened is reported as a local I/O failure. In the source, the `finally` block's `is.close()` on the null stream raises a NullPointerException that replaces the file-not-found error. Either way no request is sent.
- `FileDownload.DownloadFile`: a failure while writing the temp file or while reading the body is one `BrokenAfter` outcome, and the bytes written so far are what the temp file holds until it is deleted.
- `ServerInfo.ListOrEmpty`: a user record's values are strings here, where the source has `Object`.
- `ServerInfo.ProbesDisagreeOnMissingEndpoint`, `ManifestSync.RecordedTagShortCircuits` and `FileDownload.NotModifiedIsNoOp` follow directly from the contracts of the members they relate; they document those cases rather than add proof.
- The AdminPasswordSettingsFragment preference screen has no sync logic and is not part of this model.
