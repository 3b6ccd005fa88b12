/**
 * The server probes run before a sync: whether the server serves this app,
 * and the lists of user roles and users. What matters is how each status and
 * exception is classified: a missing endpoint, an anonymous user and a
 * connection that times out are each turned into a definite answer.
 */
module ServerInfo {
  import opened SyncCommon

  /** A user record as the server lists it: attribute name to value. */
  type UserRecord = map<string, string>

  /** A transmission failure caused by a connect timeout is reported as a configuration error. */
  function ClassifyTransmission(e: SyncError): (r: SyncError)
    ensures e == NetworkTransmission(true) ==> r == BadClientConfig
    ensures e != NetworkTransmission(true) ==> r == e
  {
    if e.NetworkTransmission? && e.connectTimeout then BadClientConfig else e
  }

  /**
   * `verifyServerSupportsAppName`: accepted statuses 200 and 404. It passes
   * exactly when the server answers 200 with a list holding `appName`; a 404
   * (no REST API) and a connect timeout are configuration errors, a list
   * without the app name is its own error, and anything else propagates.
   */
  function VerifyServerSupportsAppName(appName: string, reply: Reply<seq<string>>): (r: Outcome<SyncError>)
    ensures r.Pass? <==> reply.Responded? && reply.response.status == SC_OK && appName in reply.response.body
    ensures reply.Responded? && reply.response.status == SC_NOT_FOUND ==> r == Fail(BadClientConfig)
    ensures reply.Responded? && reply.response.status == SC_OK && appName !in reply.response.body ==>
              r == Fail(ServerDoesNotRecognizeAppName)
    ensures reply.Responded? && reply.response.status !in SC_OK_SC_NOT_FOUND ==>
              r == Fail(UnexpectedStatus(reply.response.status))
    ensures reply == Raised(NetworkTransmission(true)) ==> r == Fail(BadClientConfig)
    ensures reply.Raised? && reply.error != NetworkTransmission(true) ==> r == Fail(reply.error)
  {
    match Execute(reply, SC_OK_SC_NOT_FOUND)
    case Failure(e) => Fail(ClassifyTransmission(e))
    case Success(response) =>
      if response.status == SC_NOT_FOUND then Fail(BadClientConfig)
      else if appName !in response.body then Fail(ServerDoesNotRecognizeAppName)
      else Pass
  }

  /**
   * The shared procedure of `getUserRoles` and `getUsers`: accepted statuses
   * 200 and 404. A 404 (an older server) and an access-denied error (an
   * anonymous user) both read as the empty list; a 200 yields the listed
   * entries; a connect timeout is a configuration error and anything else
   * propagates.
   */
  function ListOrEmpty<T>(reply: Reply<seq<T>>): (r: Result<seq<T>, SyncError>)
    ensures reply.Responded? && reply.response.status == SC_OK ==> r == Success(reply.response.body)
    ensures reply.Responded? && reply.response.status == SC_NOT_FOUND ==> r == Success([])
    ensures reply == Raised(AccessDenied) ==> r == Success([])
    ensures r.Failure? <==>
              (reply.Raised? && reply.error != AccessDenied) ||
              (reply.Responded? && reply.response.status !in SC_OK_SC_NOT_FOUND)
    ensures reply == Raised(NetworkTransmission(true)) ==> r == Failure(BadClientConfig)
    ensures reply.Raised? && reply.error != AccessDenied && reply.error != NetworkTransmission(true) ==>
              r == Failure(reply.error)
    ensures reply.Responded? && reply.response.status !in SC_OK_SC_NOT_FOUND ==>
              r == Failure(UnexpectedStatus(reply.response.status))
  {
    match Execute(reply, SC_OK_SC_NOT_FOUND)
    case Failure(e) => if e == AccessDenied then Success([]) else Failure(ClassifyTransmission(e))
    case Success(response) => if response.status == SC_NOT_FOUND then Success([]) else Success(response.body)
  }

  /** `getUserRoles`: the role names granted to the current user. */
  function GetUserRoles(reply: Reply<seq<string>>): Result<seq<string>, SyncError>
  {
    ListOrEmpty(reply)
  }

  /** `getUsers`: the users the server lists. */
  function GetUsers(reply: Reply<seq<UserRecord>>): Result<seq<UserRecord>, SyncError>
  {
    ListOrEmpty(reply)
  }

  /**
   * The probes differ on a missing endpoint and on access denial: a 404 fails
   * the app-name check but reads as no roles and no users; an access-denied
   * error fails the app-name check but reads as an anonymous user with no
   * roles.
   */
  lemma ProbesDisagreeOnMissingEndpoint(appName: string, names: seq<string>, etag: Option<string>)
    ensures VerifyServerSupportsAppName(appName, Responded(Response(SC_NOT_FOUND, etag, names))).Fail?
    ensures GetUserRoles(Responded(Response(SC_NOT_FOUND, etag, names))) == Success([])
    ensures VerifyServerSupportsAppName(appName, Raised(AccessDenied)) == Fail(AccessDenied)
    ensures GetUserRoles(Raised(AccessDenied)) == Success([])
  {
  }
}
