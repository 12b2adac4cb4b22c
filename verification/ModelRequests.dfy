/** When a latest-model request that runs alone succeeds and with what, when it fails, and
    how, said in terms of the replies it gets. */
module ModelRequests {
  import opened Wrappers
  import opened ModelInfo
  import opened ModelStore
  import opened ModelFreshness

  // ----- replies

  /** A 200 reply with an entity tag and a body that parses. */
  predicate Describes(r: InfoResponse, hash: string, size: int, expiry: int) {
    r == Http(200, Some(hash), Some((size, expiry)))
  }

  /** A 304 reply that carries the tag of the local model. */
  predicate Confirms(r: InfoResponse, local: Option<LocalModelInfo>) {
    r.Http? && r.status == 304 && local.Some? && r.etag == Some(local.value.hash)
  }

  /** A file reply that can be saved. */
  predicate Saves(s: Store, k: Key, reply: FileReply) {
    && reply.Downloaded? && 200 <= reply.response.status < 299 && reply.response.hasDirectory
    && (reply.response.fault == NoFault || (reply.response.fault == RemoveFails && Path(k) !in s.files))
  }

  /** New model info whose URL has expired when the file is asked for. */
  predicate Expires(round: Round) {
    && round.info.Http? && round.info.etag.Some? && round.info.body.Some?
    && Describes(round.info, round.info.etag.value, round.info.body.value.0, round.info.body.value.1)
    && round.file.Downloaded? && round.file.response.status == 400
    && round.info.body.value.1 < round.file.response.now
  }

  /** What each info reply leads to. */
  lemma InfoMeans(model: string, local: Option<LocalModelInfo>, r: InfoResponse)
    ensures var result := HandleInfo(model, local, r);
      && (forall h, z, e :: result == NewInfo(RemoteModelInfo(model, h, z, e)) <==> Describes(r, h, z, e))
      && (result.NewInfo? ==> result.info.name == model)
      && (result == NotModified <==> Confirms(r, local))
      && (result == InfoFailed(InvalidArgument) <==> r.Http? && r.status == 400)
      && (result == InfoFailed(PermissionDenied) <==> r.Http? && (r.status == 401 || r.status == 403))
      && (result == InfoFailed(NotFound) <==> r.Http? && r.status == 404)
      && (result == InfoFailed(ResourceExhausted) <==> r.Http? && r.status == 429)
  {
  }

  /** The last two characters of an error's description. */
  predicate EndsWith(error: DownloadError, a: char, b: char) {
    && error.InternalError? && |error.description| >= 2
    && error.description[|error.description| - 2] == a && error.description[|error.description| - 1] == b
  }

  lemma InfoErrorsDiffer()
    ensures EndsWith(MISSING_HASH, 's', 'e') && EndsWith(INFO_DELETED, 'l', 'y')
    ensures EndsWith(INVALID_INFO, 'f', 'o') && EndsWith(HASH_MISMATCH, 'u', 'e')
    ensures EndsWith(NO_INFO, 'f', 'o') && NO_INFO != INVALID_INFO
  {
    assert NO_INFO.description[0] == 'F' && INVALID_INFO.description[0] == 'U';
  }

  /** A reply whose hash is missing, whose body does not parse, or that confirms a model
      that is not there or is another one, gives its own error. */
  lemma InfoErrorsMean(model: string, local: Option<LocalModelInfo>, r: InfoResponse)
    ensures var result := HandleInfo(model, local, r);
      && (result == InfoFailed(MISSING_HASH)
          <==> r.Http? && r.etag == None && (r.status == 200 || (r.status == 304 && local.Some?)))
      && (result == InfoFailed(INVALID_INFO) <==> r.Http? && r.status == 200 && r.etag.Some? && r.body == None)
      && (result == InfoFailed(INFO_DELETED) <==> r.Http? && r.status == 304 && local == None)
      && (result == InfoFailed(HASH_MISMATCH)
          <==> r.Http? && r.status == 304 && local.Some? && r.etag.Some? && r.etag.value != local.value.hash)
  {
    InfoErrorsDiffer();
  }

  // ----- success

  /** The reply describes a model with this hash and size, which is then saved. */
  predicate SavesNew(s: Store, k: Key, round: Round, hash: string, size: int) {
    && round.info.Http? && round.info.body.Some? && Describes(round.info, hash, size, round.info.body.value.1)
    && Saves(s, k, round.file)
  }

  /** The round delivers the model: the reply confirms it, or describes it and it is saved. */
  predicate Delivers(s: Store, bundle: string, k: Key, local: Option<LocalModelInfo>, round: Round, m: CustomModel) {
    || (Confirms(round.info, local) && GetLocalModel(s, bundle, k) == Some(m))
    || (SavesNew(s, k, round, m.hash, m.size) && m.name == k.model && m.path == Path(k))
  }

  lemma DownloadErrorsDiffer()
    ensures EXPIRED_DOWNLOAD_URL != DOWNLOAD_FAILED && EXPIRED_DOWNLOAD_URL != UNEXPECTED_RESPONSE
  {
    assert EndsWith(EXPIRED_DOWNLOAD_URL, 'L', '.') && EndsWith(DOWNLOAD_FAILED, 'd', 'e');
    assert EndsWith(UNEXPECTED_RESPONSE, 'g', '.');
  }

  /** A download expires, or delivers what its info says, by its reply alone. */
  lemma DownloadMeans(s: Store, bundle: string, k: Key, info: RemoteModelInfo, reply: FileReply)
    requires info.name == k.model
    ensures var o := Download(s, bundle, k.app, info, reply).1;
      && (o == Failure(EXPIRED_DOWNLOAD_URL)
          <==> reply.Downloaded? && reply.response.status == 400 && info.urlExpiry < reply.response.now)
      && (o.Success? <==> Saves(s, k, reply))
      && (o.Success? ==> o.model == CustomModel(k.model, info.size, Path(k), info.hash))
  {
    ErrorsDiffer();
    DownloadErrorsDiffer();
  }

  /** The rounds before the one at `n` all expire, and the retries cover them. */
  predicate Retried(rounds: seq<Round>, retries: int, n: nat)
    requires n <= |rounds|
  {
    (n > 0 ==> n <= retries) && forall i :: 0 <= i < n ==> Expires(rounds[i])
  }

  ghost predicate SucceedsAt(
      s: Store, bundle: string, k: Key, local: Option<LocalModelInfo>, rounds: seq<Round>, retries: int,
      m: CustomModel, n: nat)
  {
    n < |rounds| && Retried(rounds, retries, n) && Delivers(s, bundle, k, local, rounds[n], m)
  }

  ghost predicate Succeeds(
      s: Store, bundle: string, k: Key, local: Option<LocalModelInfo>, rounds: seq<Round>, retries: int,
      m: CustomModel)
  {
    exists n: nat :: SucceedsAt(s, bundle, k, local, rounds, retries, m, n)
  }

  lemma RetriedRest(rounds: seq<Round>, retries: int, n: nat)
    requires 0 < n <= |rounds|
    ensures Retried(rounds, retries, n)
            <==> Expires(rounds[0]) && retries > 0 && Retried(rounds[1..], retries - 1, n - 1)
  {
    assert forall i :: 0 < i < n ==> rounds[i] == rounds[1..][i - 1];
    if Expires(rounds[0]) && retries > 0 && Retried(rounds[1..], retries - 1, n - 1) {
      assert forall i :: 0 <= i < n - 1 ==> Expires(rounds[1..][i]);
    }
  }

  /** The first round decides: it delivers, or it expires and the others decide. */
  lemma SucceedsFirst(
      s: Store, bundle: string, k: Key, local: Option<LocalModelInfo>, rounds: seq<Round>, retries: int,
      m: CustomModel)
    requires rounds != []
    ensures Succeeds(s, bundle, k, local, rounds, retries, m)
            <==> || Delivers(s, bundle, k, local, rounds[0], m)
                 || (Expires(rounds[0]) && retries > 0 && Succeeds(s, bundle, k, local, rounds[1..], retries - 1, m))
  {
    if n: nat :| SucceedsAt(s, bundle, k, local, rounds, retries, m, n) {
      if n > 0 {
        RetriedRest(rounds, retries, n);
        assert SucceedsAt(s, bundle, k, local, rounds[1..], retries - 1, m, n - 1);
      }
    }
    if Delivers(s, bundle, k, local, rounds[0], m) {
      assert SucceedsAt(s, bundle, k, local, rounds, retries, m, 0);
    }
    if Expires(rounds[0]) && retries > 0 && Succeeds(s, bundle, k, local, rounds[1..], retries - 1, m) {
      var n: nat :| SucceedsAt(s, bundle, k, local, rounds[1..], retries - 1, m, n);
      RetriedRest(rounds, retries, n + 1);
      assert SucceedsAt(s, bundle, k, local, rounds, retries, m, n + 1);
    }
  }

  /** A request succeeds with a model exactly when, after expired URLs that the retries cover,
      a round delivers that model. */
  lemma {:induction false} SucceedsIff(
      s: Store, bundle: string, k: Key, local: Option<LocalModelInfo>, rounds: seq<Round>, retries: int,
      m: CustomModel)
    ensures GetRemote(s, bundle, k, local, rounds, retries).outcome == Some(Success(m))
            <==> Succeeds(s, bundle, k, local, rounds, retries, m)
    decreases |rounds|
  {
    if rounds != [] {
      SucceedsFirst(s, bundle, k, local, rounds, retries, m);
      InfoMeans(k.model, local, rounds[0].info);
      var result := HandleInfo(k.model, local, rounds[0].info);
      if result.NewInfo? {
        assert Describes(rounds[0].info, result.info.hash, result.info.size, result.info.urlExpiry);
        DownloadMeans(s, bundle, k, result.info, rounds[0].file);
        if Expires(rounds[0]) {
          ExpiredKeepsStore(s, bundle, k.app, result.info, rounds[0].file);
          SucceedsIff(s, bundle, k, local, rounds[1..], retries - 1, m);
        }
      }
    }
  }

  /** What such a request leaves on the device and how often it downloads.  After a
      confirmation nothing has changed.  After a save the file carries the hash, the
      size and the expiry of the reply, and no other file has changed. */
  lemma {:induction false} SuccessLeaves(
      s: Store, bundle: string, k: Key, local: Option<LocalModelInfo>, rounds: seq<Round>, retries: int,
      m: CustomModel, n: nat)
    requires SucceedsAt(s, bundle, k, local, rounds, retries, m, n)
    ensures var t, round := GetRemote(s, bundle, k, local, rounds, retries), rounds[n];
      && GetLocalModel(t.store, bundle, k) == Some(m)
      && if Confirms(round.info, local) then t.store == s && t.downloads == n
         else
           && t.downloads == n + 1
           && t.store.files == s.files[Path(k) := ModelFile(
                RemoteModelInfo(k.model, m.hash, m.size, round.info.body.value.1), round.file.bytes)]
    decreases n
  {
    InfoMeans(k.model, local, rounds[0].info);
    var result := HandleInfo(k.model, local, rounds[0].info);
    if n == 0 {
      if result.NewInfo? {
        DownloadMeans(s, bundle, k, result.info, rounds[0].file);
        SaveLeaves(s, bundle, k, result.info, rounds[0].file);
      }
    } else {
      RetriedRest(rounds, retries, n);
      DownloadMeans(s, bundle, k, result.info, rounds[0].file);
      ExpiredKeepsStore(s, bundle, k.app, result.info, rounds[0].file);
      SuccessLeaves(s, bundle, k, local, rounds[1..], retries - 1, m, n - 1);
    }
  }

  lemma SaveLeaves(s: Store, bundle: string, k: Key, info: RemoteModelInfo, reply: FileReply)
    requires info.name == k.model && Saves(s, k, reply)
    ensures var s' := Download(s, bundle, k.app, info, reply).0;
      && s'.files == s.files[Path(k) := ModelFile(info, reply.bytes)]
      && GetLocalModel(s', bundle, k) == Some(CustomModel(k.model, info.size, Path(k), info.hash))
  {
    DefaultsKeysDiffer(bundle, k, k);
    var file := ModelFile(info, reply.bytes);
    assert (s.files - {Path(k)})[Path(k) := file] == s.files[Path(k) := file];
  }

  // ----- failure

  /** How a request ends at a round that does not lead to a retry. */
  ghost predicate EndsWithRound(
      s: Store, bundle: string, k: Key, local: Option<LocalModelInfo>, round: Round, o: Outcome)
  {
    var result := HandleInfo(k.model, local, round.info);
    && (Expires(round) ==> o == Failure(EXPIRED_MODEL_INFO))
    && (Confirms(round.info, local) && GetLocalModel(s, bundle, k) == None ==> o == Failure(DELETED_LOCAL_MODEL))
    && (result.InfoFailed? ==> o == Failure(result.error))
    && (result.NewInfo? && !Expires(round) ==> o == Download(s, bundle, k.app, result.info, round.file).1)
  }

  /** The first round that does not expire ends the request with its own error or its model;
      one that expires when the retries are gone ends it too. */
  lemma {:induction false} EndsAt(
      s: Store, bundle: string, k: Key, local: Option<LocalModelInfo>, rounds: seq<Round>, retries: int, n: nat)
    requires n < |rounds| && Retried(rounds, retries, n) && (Expires(rounds[n]) ==> retries <= n)
    ensures var t := GetRemote(s, bundle, k, local, rounds, retries);
      t.outcome.Some? && EndsWithRound(s, bundle, k, local, rounds[n], t.outcome.value)
    decreases n
  {
    InfoMeans(k.model, local, rounds[0].info);
    var result := HandleInfo(k.model, local, rounds[0].info);
    if n == 0 {
      if result.NewInfo? {
        assert Describes(rounds[0].info, result.info.hash, result.info.size, result.info.urlExpiry);
        DownloadMeans(s, bundle, k, result.info, rounds[0].file);
      }
    } else {
      RetriedRest(rounds, retries, n);
      DownloadMeans(s, bundle, k, result.info, rounds[0].file);
      ExpiredKeepsStore(s, bundle, k.app, result.info, rounds[0].file);
      EndsAt(s, bundle, k, local, rounds[1..], retries - 1, n - 1);
    }
  }

  /** A request is still open exactly when all rounds so far expired and the retries cover them. */
  lemma {:induction false} OpenIff(
      s: Store, bundle: string, k: Key, local: Option<LocalModelInfo>, rounds: seq<Round>, retries: int)
    ensures GetRemote(s, bundle, k, local, rounds, retries).outcome == None <==> Retried(rounds, retries, |rounds|)
    decreases |rounds|
  {
    if rounds != [] {
      RetriedRest(rounds, retries, |rounds|);
      InfoMeans(k.model, local, rounds[0].info);
      var result := HandleInfo(k.model, local, rounds[0].info);
      if result.NewInfo? {
        assert Describes(rounds[0].info, result.info.hash, result.info.size, result.info.urlExpiry);
        DownloadMeans(s, bundle, k, result.info, rounds[0].file);
        if Expires(rounds[0]) {
          ExpiredKeepsStore(s, bundle, k.app, result.info, rounds[0].file);
          OpenIff(s, bundle, k, local, rounds[1..], retries - 1);
        }
      }
    }
  }
}
