/** The two-step store as a plain map: what `getLocalModel` finds for a model is what the
    events about it leave, and what each save and delete returns. */
module StoreLaws {
  import opened Wrappers
  import opened ModelInfo
  import opened ModelStore

  /** The response lets the file be saved, as far as the server and the directory go. */
  predicate Accepted(r: Response) {
    200 <= r.status < 299 && r.hasDirectory
  }

  /** One event on the file of a model, which is there or not.  A save that is accepted puts
      the file, unless an old one cannot be removed; one that fails later has already
      removed it. */
  function Put(found: Option<ModelFile>, e: Event, k: Key): Option<ModelFile> {
    match e
    case Save(app, file, r) =>
      if Path(Key(app, file.info.name)) != Path(k) || !Accepted(r) then found
      else if r.fault == OutOfSpace || r.fault == MoveFails then None
      else if r.fault == RemoveFails && found.Some? then found
      else Some(file)
    case Delete(key, removeFails) => if Path(key) == Path(k) && !removeFails then None else found
    case LoseFile(path) => if path == Path(k) then None else found
  }

  function PutAll(found: Option<ModelFile>, es: seq<Event>, k: Key): Option<ModelFile>
    decreases |es|
  {
    if es == [] then found else PutAll(Put(found, es[0], k), es[1..], k)
  }

  /** The store holds for the model this file and its info, or no file. */
  predicate Holds(s: Store, bundle: string, k: Key, found: Option<ModelFile>) {
    match found
    case None => Path(k) !in s.files
    case Some(file) =>
      && Path(k) in s.files && s.files[Path(k)] == file
      && HashKey(bundle, k) in s.defaults && s.defaults[HashKey(bundle, k)] == Text(file.info.hash)
      && SizeKey(bundle, k) in s.defaults && s.defaults[SizeKey(bundle, k)] == Number(file.info.size)
  }

  lemma SaveHolds(s: Store, bundle: string, keys: set<Key>, k: Key, found: Option<ModelFile>, app: string,
                  file: ModelFile, r: Response)
    requires EncodingsAgree(bundle, keys) && k in keys && Key(app, file.info.name) in keys && Holds(s, bundle, k, found)
    ensures Holds(Apply(s, bundle, Save(app, file, r)), bundle, k, Put(found, Save(app, file, r), k))
  {
    var k' := Key(app, file.info.name);
    DefaultsKeysDiffer(bundle, k, k');
    DefaultsKeysDiffer(bundle, k', k);
    DefaultsKeysDiffer(bundle, k, k);
  }

  lemma DeleteHolds(s: Store, bundle: string, keys: set<Key>, k: Key, found: Option<ModelFile>, k': Key, fails: bool)
    requires EncodingsAgree(bundle, keys) && k in keys && k' in keys && Holds(s, bundle, k, found)
    ensures Holds(Apply(s, bundle, Delete(k', fails)), bundle, k, Put(found, Delete(k', fails), k))
  {
    DefaultsKeysDiffer(bundle, k, k');
    DefaultsKeysDiffer(bundle, k', k);
  }

  lemma EventHolds(s: Store, bundle: string, keys: set<Key>, k: Key, found: Option<ModelFile>, e: Event)
    requires EncodingsAgree(bundle, keys) && k in keys && About(e, keys) && Holds(s, bundle, k, found)
    ensures Holds(Apply(s, bundle, e), bundle, k, Put(found, e, k))
  {
    match e
    case Save(app, file, r) =>
      SaveHolds(s, bundle, keys, k, found, app, file, r);
    case Delete(k', fails) =>
      DeleteHolds(s, bundle, keys, k, found, k', fails);
    case LoseFile(_) =>
  }

  lemma {:induction false} EventsHold(
      s: Store, bundle: string, keys: set<Key>, k: Key, found: Option<ModelFile>, es: seq<Event>)
    requires EncodingsAgree(bundle, keys) && k in keys && (forall e <- es :: About(e, keys))
    requires Holds(s, bundle, k, found)
    ensures Holds(ApplyAll(s, bundle, es), bundle, k, PutAll(found, es, k))
    decreases |es|
  {
    if es != [] {
      EventHolds(s, bundle, keys, k, found, es[0]);
      EventsHold(Apply(s, bundle, es[0]), bundle, keys, k, Put(found, es[0], k), es[1..]);
    }
  }

  /** The model that the events leave for the key. */
  function FoundModel(es: seq<Event>, k: Key): Option<CustomModel> {
    match PutAll(None, es, k)
    case None => None
    case Some(file) => Some(CustomModel(k.model, file.info.size, Path(k), file.info.hash))
  }

  /** From the empty store on, where the encodings agree: the model that is found is the one
      whose file the events leave, with its size and hash, and none is found when they
      leave none. */
  lemma FoundAsPut(bundle: string, keys: set<Key>, k: Key, es: seq<Event>)
    requires EncodingsAgree(bundle, keys) && k in keys && forall e <- es :: About(e, keys)
    ensures GetLocalModel(ApplyAll(EMPTY, bundle, es), bundle, k) == FoundModel(es, k)
  {
    EventsHold(EMPTY, bundle, keys, k, None, es);
  }

  // ----- what a save returns

  /** A save fails by its status, or for want of the directory, or by what the file system does. */
  lemma SaveReturns(s: Store, bundle: string, app: string, file: ModelFile, r: Response)
    ensures var k, o := Key(app, file.info.name), HandleResponse(s, bundle, app, file, r).1;
      && (o.Success? <==> Accepted(r) && (r.fault == NoFault || (r.fault == RemoveFails && Path(k) !in s.files)))
      && (o.Success? ==> o.model == CustomModel(file.info.name, file.info.size, Path(k), file.info.hash))
      && (o == Failure(PermissionDenied) <==> r.status == 401 || r.status == 403)
      && (o == Failure(NotFound) <==> r.status == 404)
      && (o == Failure(InvalidArgument) <==> r.status == 400 && r.now <= file.info.urlExpiry)
      && (o == Failure(NotEnoughSpace) <==> Accepted(r) && r.fault == OutOfSpace)
  {
  }

  lemma SaveErrorsDiffer()
    ensures EXPIRED_DOWNLOAD_URL != DOWNLOAD_FAILED && DOWNLOAD_FAILED != NO_MODELS_DIRECTORY
    ensures DOWNLOAD_FAILED != REPLACE_FILE && DOWNLOAD_FAILED != SAVE_FILE
    ensures REPLACE_FILE != SAVE_FILE && REPLACE_FILE != NO_MODELS_DIRECTORY && SAVE_FILE != NO_MODELS_DIRECTORY
  {
  }

  /** The errors with a text each have their own cause, and a failed save writes no defaults. */
  lemma SaveErrorsMean(s: Store, bundle: string, app: string, file: ModelFile, r: Response)
    ensures var (s', o) := HandleResponse(s, bundle, app, file, r);
      var present := Path(Key(app, file.info.name)) in s.files;
      && (o == Failure(EXPIRED_DOWNLOAD_URL) <==> r.status == 400 && file.info.urlExpiry < r.now)
      && (o == Failure(DOWNLOAD_FAILED)
          <==> !(200 <= r.status < 299) && r.status != 400 && r.status != 401 && r.status != 403 && r.status != 404)
      && (o == Failure(NO_MODELS_DIRECTORY) <==> 200 <= r.status < 299 && !r.hasDirectory)
      && (o == Failure(REPLACE_FILE) <==> Accepted(r) && r.fault == RemoveFails && present)
      && (o == Failure(SAVE_FILE) <==> Accepted(r) && r.fault == MoveFails)
      && (o.Failure? ==> s'.defaults == s.defaults)
  {
    ErrorsDiffer();
    SaveErrorsDiffer();
  }

  // ----- what a delete returns

  /** A delete removes the file and its info, iff the model is on the device and the file can be
      removed; otherwise nothing changes. */
  lemma DeleteReturns(s: Store, bundle: string, k: Key, removeFails: bool)
    ensures var (s', result) := DeleteModel(s, bundle, k, removeFails);
      && (result == NotOnDevice <==> GetLocalModel(s, bundle, k) == None)
      && (result == Deleted <==> GetLocalModel(s, bundle, k).Some? && !removeFails)
      && (if result == Deleted then s'.files == s.files - {Path(k)} && LoadInfo(s', bundle, k) == None else s' == s)
  {
  }
}
