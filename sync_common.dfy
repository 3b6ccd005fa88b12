/**
 * Shared vocabulary of the synchronizer: optional values and results, the
 * local file system as a map from path to content, the
 * exceptions the synchronizer raises or lets through, the HTTP status codes
 * and the accepted-status sets it hands to the transport wrapper, and the
 * wrapper's one behaviour the synchronizer relies on: a response whose status
 * is outside the accepted set is turned into an error.
 */
module SyncCommon {

  datatype Option<+T> = None | Some(value: T)

  datatype Result<+T, +E> = Success(value: T) | Failure(error: E)

  /** Pass/Fail for operations that return nothing (Java `void`). */
  datatype Outcome<+E> = Pass | Fail(error: E)

  type Bytes = seq<bv8>
  type Path = string
  type FileSystem = map<Path, Bytes>

  /** The exceptions of the synchronizer, one constructor per kind it tells apart. */
  datatype SyncError =
    | BadClientConfig
    | ServerDoesNotRecognizeAppName
    | ClientDetectedMissingConfigForClientVersion
    | ClientDetectedVersionMismatchedServerResponse
    | IllegalArgument
      /** A transmission failure; `connectTimeout` says whether its cause is a connect timeout. */
    | NetworkTransmission(connectTimeout: bool)
    | AccessDenied
      /** A response whose status is not in the operation's accepted set. */
    | UnexpectedStatus(status: int)
      /** A local I/O failure (a file that cannot be read or written, a broken stream). */
    | LocalIO

  const SC_OK: int := 200
  const SC_CREATED: int := 201
  const SC_ACCEPTED: int := 202
  const SC_NOT_MODIFIED: int := 304
  const SC_NOT_FOUND: int := 404

  const SC_OK_ONLY: set<int> := {SC_OK}
  const SC_OK_SC_NOT_FOUND: set<int> := {SC_OK, SC_NOT_FOUND}
  const SC_OK_SC_NOT_MODIFIED: set<int> := {SC_OK, SC_NOT_MODIFIED}
  const SC_CREATED_ONLY: set<int> := {SC_CREATED}
  const SC_CREATED_SC_ACCEPTED: set<int> := {SC_CREATED, SC_ACCEPTED}

  /** A response as the synchronizer reads it: status, ETag header, parsed body. */
  datatype Response<B> = Response(status: int, etag: Option<string>, body: B)

  /** What executing one request yields: a response, or an exception from the transport. */
  datatype Reply<B> = Responded(response: Response<B>) | Raised(error: SyncError)

  /**
   * The transport wrapper's execute step: transport exceptions propagate, and a
   * response is accepted exactly when its status is in `accepted`. Statuses the
   * wrapper reports as typed exceptions (access denied) arrive as `Raised`.
   */
  function Execute<B>(reply: Reply<B>, accepted: set<int>): (r: Result<Response<B>, SyncError>)
    ensures r.Success? <==> reply.Responded? && reply.response.status in accepted
    ensures r.Success? ==> r.value == reply.response
    ensures reply.Raised? ==> r == Failure(reply.error)
    ensures reply.Responded? && reply.response.status !in accepted ==>
              r == Failure(UnexpectedStatus(reply.response.status))
  {
    match reply
    case Raised(e) => Failure(e)
    case Responded(resp) =>
      if resp.status in accepted then Success(resp) else Failure(UnexpectedStatus(resp.status))
  }
}
