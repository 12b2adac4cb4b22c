/** A request for the latest model that runs alone: model info by conditional request,
    then the file unless the server says that the local model is current. */
module ModelFreshness {
  import opened Wrappers
  import opened ModelInfo
  import opened ModelStore

  /** `getModelInfoFetchURLRequest`: the `if-none-match` header carries the local hash. */
  function IfNoneMatch(local: Option<LocalModelInfo>): Option<string> {
    if local.Some? then Some(local.value.hash) else None
  }

  /** The reply to a model info request; `body` is the size and the URL expiry, if they parse. */
  datatype InfoResponse =
    | NoConnection
    | NotHttp
    | Http(status: int, etag: Option<string>, body: Option<(int, int)>)

  datatype InfoResult = NewInfo(info: RemoteModelInfo) | NotModified | InfoFailed(error: DownloadError)

  const NO_INFO := InternalError("Failed to retrieve model info")
  const MISSING_HASH := InternalError("Model hash missing in model info server response")
  const INVALID_INFO := InternalError("Unable to parse model info")
  const INFO_DELETED := InternalError("Model info was deleted unexpectedly")
  const HASH_MISMATCH := InternalError("Unexpected model hash value")

  /** The reply handling of `downloadModelInfo`. */
  function HandleInfo(model: string, local: Option<LocalModelInfo>, r: InfoResponse): InfoResult {
    match r
    case NoConnection => InfoFailed(NO_INFO)
    case NotHttp => InfoFailed(NO_INFO)
    case Http(status, etag, body) =>
      if status == 200 then
        if etag == None then InfoFailed(MISSING_HASH)
        else if body == None then InfoFailed(INVALID_INFO)
        else NewInfo(RemoteModelInfo(model, etag.value, body.value.0, body.value.1))
      else if status == 304 then
        if local == None then InfoFailed(INFO_DELETED)
        else if etag == None then InfoFailed(MISSING_HASH)
        else if etag.value != local.value.hash then InfoFailed(HASH_MISMATCH)
        else NotModified
      else if status == 400 then InfoFailed(InvalidArgument)
      else if status == 401 || status == 403 then InfoFailed(PermissionDenied)
      else if status == 404 then InfoFailed(NotFound)
      else if status == 429 then InfoFailed(ResourceExhausted)
      else InfoFailed(NO_INFO)
  }

  /** The reply to a file download. */
  datatype FileReply = Downloaded(bytes: seq<int>, response: Response) | NetworkError | UnexpectedResponse

  /** One round: the info reply, and the file reply if a file is asked for. */
  datatype Round = Round(info: InfoResponse, file: FileReply)

  datatype Trace = Trace(outcome: Option<Outcome>, store: Store, downloads: nat)

  const UNEXPECTED_RESPONSE := InternalError("Could not get valid HTTP response for model downloading.")

  function Download(s: Store, bundle: string, app: string, info: RemoteModelInfo, reply: FileReply): (Store, Outcome) {
    match reply
    case Downloaded(bytes, response) => HandleResponse(s, bundle, app, ModelFile(info, bytes), response)
    case NetworkError => (s, Failure(FailedPrecondition))
    case UnexpectedResponse => (s, Failure(UNEXPECTED_RESPONSE))
  }

  /** `downloadInfoAndModel` with nothing else going on.  The retriever keeps the local
      info it was made with through all retries.  No outcome means that the
      rounds ended before the request did. */
  function GetRemote(
      s: Store, bundle: string, k: Key, local: Option<LocalModelInfo>, rounds: seq<Round>, retries: int): Trace
    decreases |rounds|
  {
    if rounds == [] then Trace(None, s, 0)
    else
      match HandleInfo(k.model, local, rounds[0].info)
      case InfoFailed(error) => Trace(Some(Failure(error)), s, 0)
      case NotModified =>
        var m := GetLocalModel(s, bundle, k);
        Trace(Some(if m.Some? then Success(m.value) else Failure(DELETED_LOCAL_MODEL)), s, 0)
      case NewInfo(info) =>
        var (s', o) := Download(s, bundle, k.app, info, rounds[0].file);
        if o != Failure(EXPIRED_DOWNLOAD_URL) then Trace(Some(o), s', 1)
        else if retries <= 0 then Trace(Some(Failure(EXPIRED_MODEL_INFO)), s', 1)
        else
          var t := GetRemote(s', bundle, k, local, rounds[1..], retries - 1);
          t.(downloads := t.downloads + 1)
  }

  /** `getRemoteModel`: the local info is read from the store at the start. */
  function LatestModel(s: Store, bundle: string, k: Key, rounds: seq<Round>, retries: int): Trace {
    GetRemote(s, bundle, k, GetLocalModelInfo(s, bundle, k), rounds, retries)
  }

  /** A request that ignores what is on the device and always downloads. */
  function AlwaysDownload(s: Store, bundle: string, k: Key, rounds: seq<Round>, retries: int): Trace {
    GetRemote(s, bundle, k, None, rounds, retries)
  }

  /** What sections 13.1.2 and 15.4.5 of RFC 9110 ask of a server whose model has the
      given entity tag: a 200 or 304 reply carries that tag, and a request that
      already has the tag is not answered with 200. */
  predicate Conforms(current: string, ifNoneMatch: Option<string>, r: InfoResponse) {
    r.Http? ==>
      && (r.status == 200 || r.status == 304 ==> r.etag == Some(current))
      && (ifNoneMatch == Some(current) ==> r.status != 200)
  }

  ghost predicate ServerConforms(current: string, local: Option<LocalModelInfo>, rounds: seq<Round>) {
    forall r <- rounds :: Conforms(current, IfNoneMatch(local), r.info)
  }

  lemma ExpiredKeepsStore(s: Store, bundle: string, app: string, info: RemoteModelInfo, reply: FileReply)
    requires Download(s, bundle, app, info, reply).1 == Failure(EXPIRED_DOWNLOAD_URL)
    ensures Download(s, bundle, app, info, reply).0 == s
  {
    ErrorsDiffer();
  }

  lemma DownloadDelivers(s: Store, bundle: string, app: string, info: RemoteModelInfo, reply: FileReply)
    requires Download(s, bundle, app, info, reply).1.Success?
    ensures var (s', o) := Download(s, bundle, app, info, reply);
      o.model.hash == info.hash && GetLocalModel(s', bundle, Key(app, info.name)) == Some(o.model)
  {
    DefaultsKeysDiffer(bundle, Key(app, info.name), Key(app, info.name));
  }

  /** Whatever succeeds delivers the server's hash and leaves that model on the device.
      Nothing is downloaded when the local hash is the server's, and something is
      when it is not. */
  lemma {:induction false} RemoteIsCurrent(
      s: Store, bundle: string, k: Key, local: Option<LocalModelInfo>, rounds: seq<Round>, retries: int,
      current: string)
    requires local == None || local == GetLocalModelInfo(s, bundle, k)
    requires ServerConforms(current, local, rounds)
    ensures var t := GetRemote(s, bundle, k, local, rounds, retries);
      && (t.outcome.Some? && t.outcome.value.Success? ==>
            && t.outcome.value.model.hash == current
            && GetLocalModel(t.store, bundle, k) == Some(t.outcome.value.model)
            && (t.downloads == 0 <==> IfNoneMatch(local) == Some(current)))
      && (IfNoneMatch(local) == Some(current) ==> t.downloads == 0 && t.store == s)
    decreases |rounds|
  {
    if rounds != [] {
      assert rounds[0] in rounds;
      assert Conforms(current, IfNoneMatch(local), rounds[0].info);
      var result := HandleInfo(k.model, local, rounds[0].info);
      if result.NewInfo? {
        var (s', o) := Download(s, bundle, k.app, result.info, rounds[0].file);
        if o == Failure(EXPIRED_DOWNLOAD_URL) {
          ExpiredKeepsStore(s, bundle, k.app, result.info, rounds[0].file);
          RemoteIsCurrent(s, bundle, k, local, rounds[1..], retries - 1, current);
        } else if o.Success? {
          DownloadDelivers(s, bundle, k.app, result.info, rounds[0].file);
        }
      }
    }
  }

  /** A latest-model request that runs alone and succeeds delivers the same hash as one
      that always downloads, and starts no download when the local hash is current. */
  lemma LatestAgreesWithAlwaysDownload(s: Store, bundle: string, k: Key, rounds: seq<Round>, rounds': seq<Round>,
                                       retries: int, retries': int, current: string)
    requires ServerConforms(current, GetLocalModelInfo(s, bundle, k), rounds)
    requires ServerConforms(current, None, rounds')
    ensures
      var t, t' := LatestModel(s, bundle, k, rounds, retries), AlwaysDownload(s, bundle, k, rounds', retries');
      && (t.outcome.Some? && t.outcome.value.Success? && t'.outcome.Some? && t'.outcome.value.Success? ==>
            t.outcome.value.model.hash == t'.outcome.value.model.hash && t'.downloads > 0)
      && (IfNoneMatch(GetLocalModelInfo(s, bundle, k)) == Some(current) ==> t.downloads == 0 && t.store == s)
  {
    RemoteIsCurrent(s, bundle, k, GetLocalModelInfo(s, bundle, k), rounds, retries, current);
    RemoteIsCurrent(s, bundle, k, None, rounds', retries', current);
  }
}
