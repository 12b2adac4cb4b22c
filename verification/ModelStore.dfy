/** The on-device store of downloaded models: a file and a defaults entry per app and
    model, written one after the other by saves and deletes that may fail midway. */
module ModelStore {
  import opened Wrappers
  import opened ModelInfo
  import opened ModelFileNames

  /** A downloaded file, with the model info under which it was downloaded. */
  datatype ModelFile = ModelFile(info: RemoteModelInfo, bytes: seq<int>)

  datatype Setting = Text(text: string) | Number(number: int)

  datatype Store = Store(files: map<string, ModelFile>, defaults: map<string, Setting>)

  const EMPTY := Store(map[], map[])

  /** An app name with a model name. */
  datatype Key = Key(app: string, model: string)

  function Path(k: Key): string {
    DownloadedModelFile(k.app, k.model)
  }

  /** `getUserDefaultsKeyPrefix` */
  function KeyPrefix(bundle: string, k: Key): string {
    bundle + "." + k.app + "." + k.model
  }

  function HashKey(bundle: string, k: Key): string {
    KeyPrefix(bundle, k) + ".model-hash"
  }

  function SizeKey(bundle: string, k: Key): string {
    KeyPrefix(bundle, k) + ".model-size"
  }

  /** `LocalModelInfo(fromDefaults:)`; a size that is missing or no number reads as 0. */
  function LoadInfo(s: Store, bundle: string, k: Key): Option<LocalModelInfo> {
    var h, z := HashKey(bundle, k), SizeKey(bundle, k);
    if h in s.defaults && s.defaults[h].Text? then
      Some(LocalModelInfo(k.model, s.defaults[h].text,
        if z in s.defaults && s.defaults[z].Number? then s.defaults[z].number else 0))
    else None
  }

  /** `getLocalModelInfo` */
  function GetLocalModelInfo(s: Store, bundle: string, k: Key): Option<LocalModelInfo> {
    if Path(k) in s.files then LoadInfo(s, bundle, k) else None
  }

  /** `getLocalModel` */
  function GetLocalModel(s: Store, bundle: string, k: Key): Option<CustomModel> {
    match GetLocalModelInfo(s, bundle, k)
    case None => None
    case Some(info) => Some(CustomModel(info.name, info.size, Path(k), info.hash))
  }

  function WriteToDefaults(s: Store, bundle: string, k: Key, info: RemoteModelInfo): Store {
    s.(defaults := s.defaults[HashKey(bundle, k) := Text(info.hash)][SizeKey(bundle, k) := Number(info.size)])
  }

  function RemoveFromDefaults(s: Store, bundle: string, k: Key): Store {
    s.(defaults := s.defaults - {HashKey(bundle, k), SizeKey(bundle, k)})
  }

  /** What the file system does to a save. */
  datatype Fault = NoFault | RemoveFails | OutOfSpace | MoveFails

  const REPLACE_FILE := InternalError("Could not replace existing model file")
  const SAVE_FILE := InternalError("Unable to save model file")
  const NO_MODELS_DIRECTORY := InternalError("Could not create directory for model storage.")
  const DOWNLOAD_FAILED := InternalError("Model download failed with HTTP error code")

  lemma ErrorsDiffer()
    ensures REPLACE_FILE != EXPIRED_DOWNLOAD_URL && SAVE_FILE != EXPIRED_DOWNLOAD_URL
    ensures NO_MODELS_DIRECTORY != EXPIRED_DOWNLOAD_URL
  {
    assert REPLACE_FILE.description[0] == 'C' && SAVE_FILE.description[0] == 'U';
    assert NO_MODELS_DIRECTORY.description[0] == 'C';
    assert EXPIRED_DOWNLOAD_URL.description[0] == 'E';
  }

  /** `moveFile`: an existing file is removed before the new one is moved there. */
  function MoveFile(s: Store, file: ModelFile, path: string, fault: Fault): (Store, Option<DownloadError>) {
    if path in s.files && fault == RemoveFails then (s, Some(REPLACE_FILE))
    else
      var cleared := s.(files := s.files - {path});
      if fault == OutOfSpace then (cleared, Some(NotEnoughSpace))
      else if fault == MoveFails then (cleared, Some(SAVE_FILE))
      else (cleared.(files := cleared.files[path := file]), None)
  }

  datatype Response = Response(status: int, now: int, hasDirectory: bool, fault: Fault)

  /** `handleResponse`, with the store it leaves and the result for the completion. */
  function HandleResponse(s: Store, bundle: string, app: string, file: ModelFile, r: Response): (Store, Outcome) {
    var info := file.info;
    if !(200 <= r.status < 299) then
      (s, Failure(
         if r.status == 400 then if info.urlExpiry < r.now then EXPIRED_DOWNLOAD_URL else InvalidArgument
         else if r.status == 401 || r.status == 403 then PermissionDenied
         else if r.status == 404 then NotFound
         else DOWNLOAD_FAILED))
    else if !r.hasDirectory then (s, Failure(NO_MODELS_DIRECTORY))
    else
      var k := Key(app, info.name);
      var (moved, error) := MoveFile(s, file, Path(k), r.fault);
      if error.Some? then (moved, Failure(error.value))
      else (WriteToDefaults(moved, bundle, k, info), Success(CustomModel(info.name, info.size, Path(k), info.hash)))
  }

  datatype Deletion = Deleted | NotOnDevice | RemovalFailed

  /** `deleteDownloadedModel` */
  function DeleteModel(s: Store, bundle: string, k: Key, removeFails: bool): (Store, Deletion) {
    if GetLocalModelInfo(s, bundle, k) == None then (s, NotOnDevice)
    else if removeFails then (s, RemovalFailed)
    else (RemoveFromDefaults(s.(files := s.files - {Path(k)}), bundle, k), Deleted)
  }

  datatype Event =
    | Save(app: string, file: ModelFile, response: Response)
    | Delete(key: Key, removeFails: bool)
    | LoseFile(path: string)               // the file is wiped from outside

  function Apply(s: Store, bundle: string, e: Event): Store {
    match e
    case Save(app, file, response) => HandleResponse(s, bundle, app, file, response).0
    case Delete(key, removeFails) => DeleteModel(s, bundle, key, removeFails).0
    case LoseFile(path) => s.(files := s.files - {path})
  }

  function ApplyAll(s: Store, bundle: string, es: seq<Event>): Store
    decreases |es|
  {
    if es == [] then s else ApplyAll(Apply(s, bundle, es[0]), bundle, es[1..])
  }

  /** The event is about an app and model of `keys`. */
  predicate About(e: Event, keys: set<Key>) {
    match e
    case Save(app, file, _) => Key(app, file.info.name) in keys
    case Delete(key, _) => key in keys
    case LoseFile(_) => true
  }

  // ----- what the store promises

  /** A model that `getLocalModel` finds is on disk as downloaded under its hash and size. */
  ghost predicate Honest(s: Store, bundle: string, keys: set<Key>) {
    forall k <- keys :: GetLocalModel(s, bundle, k).Some? ==>
      var m := GetLocalModel(s, bundle, k).value;
      m.path in s.files && s.files[m.path].info.hash == m.hash && s.files[m.path].info.size == m.size
  }

  ghost predicate AlwaysHonest(bundle: string, keys: set<Key>) {
    forall es: seq<Event> :: (forall e <- es :: About(e, keys)) ==> Honest(ApplyAll(EMPTY, bundle, es), bundle, keys)
  }

  /** File names and defaults keys confuse the same apps and models. */
  ghost predicate EncodingsAgree(bundle: string, keys: set<Key>) {
    forall k, k' :: k in keys && k' in keys ==> (KeyPrefix(bundle, k) == KeyPrefix(bundle, k') <==> Path(k) == Path(k'))
  }

  /** Where a file is present its defaults entry is absent or describes it. */
  ghost predicate Described(s: Store, bundle: string, keys: set<Key>) {
    forall k <- keys :: DescribedAt(s, bundle, k)
  }

  predicate DescribedAt(s: Store, bundle: string, k: Key) {
    var h, z, p := HashKey(bundle, k), SizeKey(bundle, k), Path(k);
    p in s.files && h in s.defaults ==>
      s.defaults[h] == Text(s.files[p].info.hash) && z in s.defaults && s.defaults[z] == Number(s.files[p].info.size)
  }

  lemma DefaultsKeysDiffer(bundle: string, k: Key, k': Key)
    ensures HashKey(bundle, k) != SizeKey(bundle, k')
    ensures HashKey(bundle, k) == HashKey(bundle, k') <==> KeyPrefix(bundle, k) == KeyPrefix(bundle, k')
    ensures SizeKey(bundle, k) == SizeKey(bundle, k') <==> KeyPrefix(bundle, k) == KeyPrefix(bundle, k')
  {
    SuffixesDiffer(KeyPrefix(bundle, k), KeyPrefix(bundle, k'));
  }

  lemma SuffixesDiffer(p: string, q: string)
    ensures p + ".model-hash" != q + ".model-size"
    ensures p + ".model-hash" == q + ".model-hash" <==> p == q
    ensures p + ".model-size" == q + ".model-size" <==> p == q
  {
    var ph, qh, ps, qs := p + ".model-hash", q + ".model-hash", p + ".model-size", q + ".model-size";
    assert ph[|ph| - 1] == 'h' && qs[|qs| - 1] == 'e';
    assert ph[..|p|] == p && qh[..|q|] == q && ps[..|p|] == p && qs[..|q|] == q;
  }

  lemma SaveDescribed(s: Store, bundle: string, keys: set<Key>, k: Key, file: ModelFile)
    requires Described(s, bundle, keys) && EncodingsAgree(bundle, keys) && k in keys
    ensures var saved := s.(files := (s.files - {Path(k)})[Path(k) := file]);
      Described(WriteToDefaults(saved, bundle, k, file.info), bundle, keys)
  {
    var s' := WriteToDefaults(s.(files := (s.files - {Path(k)})[Path(k) := file]), bundle, k, file.info);
    forall k' | k' in keys ensures DescribedAt(s', bundle, k') {
      assert DescribedAt(s, bundle, k');
      DefaultsKeysDiffer(bundle, k, k');
      DefaultsKeysDiffer(bundle, k', k);
    }
  }

  lemma DeleteDescribed(s: Store, bundle: string, keys: set<Key>, k: Key)
    requires Described(s, bundle, keys) && EncodingsAgree(bundle, keys) && k in keys
    ensures Described(RemoveFromDefaults(s.(files := s.files - {Path(k)}), bundle, k), bundle, keys)
  {
    var s' := RemoveFromDefaults(s.(files := s.files - {Path(k)}), bundle, k);
    forall k' | k' in keys ensures DescribedAt(s', bundle, k') {
      assert DescribedAt(s, bundle, k');
      DefaultsKeysDiffer(bundle, k, k');
      DefaultsKeysDiffer(bundle, k', k);
    }
  }

  lemma LossDescribed(s: Store, bundle: string, keys: set<Key>, path: string)
    requires Described(s, bundle, keys)
    ensures Described(s.(files := s.files - {path}), bundle, keys)
  {
    forall k | k in keys ensures DescribedAt(s.(files := s.files - {path}), bundle, k) {
      assert DescribedAt(s, bundle, k);
    }
  }

  /** Saves that fail at the remove or the move step, failed deletes and lost files included. */
  lemma EventDescribed(s: Store, bundle: string, keys: set<Key>, e: Event)
    requires Described(s, bundle, keys) && EncodingsAgree(bundle, keys) && About(e, keys)
    ensures Described(Apply(s, bundle, e), bundle, keys)
  {
    match e
    case Save(app, file, r) =>
      var k := Key(app, file.info.name);
      SaveDescribed(s, bundle, keys, k, file);
      LossDescribed(s, bundle, keys, Path(k));
    case Delete(k, _) =>
      DeleteDescribed(s, bundle, keys, k);
    case LoseFile(path) =>
      LossDescribed(s, bundle, keys, path);
  }

  lemma {:induction false} EventsDescribed(s: Store, bundle: string, keys: set<Key>, es: seq<Event>)
    requires Described(s, bundle, keys) && EncodingsAgree(bundle, keys) && forall e <- es :: About(e, keys)
    ensures Described(ApplyAll(s, bundle, es), bundle, keys)
    decreases |es|
  {
    if es != [] {
      EventDescribed(s, bundle, keys, es[0]);
      EventsDescribed(Apply(s, bundle, es[0]), bundle, keys, es[1..]);
    }
  }

  lemma DescribedIsHonest(s: Store, bundle: string, keys: set<Key>)
    requires Described(s, bundle, keys)
    ensures Honest(s, bundle, keys)
  {
    forall k | k in keys && GetLocalModel(s, bundle, k).Some?
      ensures var m := GetLocalModel(s, bundle, k).value;
        m.path in s.files && s.files[m.path].info.hash == m.hash && s.files[m.path].info.size == m.size
    {
      assert DescribedAt(s, bundle, k);
    }
  }

  function Saved(k: Key, hash: string): Event {
    Save(k.app, ModelFile(RemoteModelInfo(k.model, hash, 1, 0), []), Response(200, 0, true, NoFault))
  }

  lemma SavedStore(s: Store, bundle: string, k: Key, hash: string)
    ensures var s' := Apply(s, bundle, Saved(k, hash));
      && s'.files == s.files[Path(k) := Saved(k, hash).file]
      && s'.defaults == s.defaults[HashKey(bundle, k) := Text(hash)][SizeKey(bundle, k) := Number(1)]
  {
    assert (s.files - {Path(k)})[Path(k) := Saved(k, hash).file] == s.files[Path(k) := Saved(k, hash).file];
  }

  /** Two saves that one encoding confuses and the other does not leave a store that lies. */
  lemma ConfusionLies(bundle: string, keys: set<Key>, k: Key, k': Key)
    requires k in keys && k' in keys && !(KeyPrefix(bundle, k) == KeyPrefix(bundle, k') <==> Path(k) == Path(k'))
    ensures !AlwaysHonest(bundle, keys)
  {
    var es := [Saved(k, "1"), Saved(k', "2")];
    var s1 := Apply(EMPTY, bundle, es[0]);
    var s2 := Apply(s1, bundle, es[1]);
    assert ApplyAll(EMPTY, bundle, es) == s2 by {
      assert es[1..] == [es[1]] && es[1..][1..] == [];
      assert ApplyAll(s2, bundle, []) == s2;
    }
    SavedStore(EMPTY, bundle, k, "1");
    SavedStore(s1, bundle, k', "2");
    DefaultsKeysDiffer(bundle, k, k');
    DefaultsKeysDiffer(bundle, k', k);
    DefaultsKeysDiffer(bundle, k, k);
    assert "1" != "2";
    var m := GetLocalModel(s2, bundle, k);
    assert m.Some? && s2.files[Path(k)].info.hash != m.value.hash;
    assert !Honest(s2, bundle, keys);
  }

  /** The store is honest in every reachable state exactly when file names and
      defaults keys confuse the same apps and models, in particular when neither
      confuses any. */
  lemma HonestIffEncodingsAgree(bundle: string, keys: set<Key>)
    ensures AlwaysHonest(bundle, keys) <==> EncodingsAgree(bundle, keys)
  {
    if EncodingsAgree(bundle, keys) {
      forall es: seq<Event> | forall e <- es :: About(e, keys)
        ensures Honest(ApplyAll(EMPTY, bundle, es), bundle, keys)
      {
        EventsDescribed(EMPTY, bundle, keys, es);
        DescribedIsHonest(ApplyAll(EMPTY, bundle, es), bundle, keys);
      }
    } else {
      var k, k' :| k in keys && k' in keys && !(KeyPrefix(bundle, k) == KeyPrefix(bundle, k') <==> Path(k) == Path(k'));
      ConfusionLies(bundle, keys, k, k');
    }
  }

  /** Within one app the encodings never differ. */
  lemma OneAppAgrees(bundle: string, app: string, keys: set<Key>)
    requires forall k <- keys :: k.app == app
    ensures EncodingsAgree(bundle, keys)
  {
    forall k, k' | k in keys && k' in keys
      ensures KeyPrefix(bundle, k) == KeyPrefix(bundle, k') <==> Path(k) == Path(k')
    {
      var a := bundle + "." + app + ".";
      assert KeyPrefix(bundle, k) == a + k.model && KeyPrefix(bundle, k') == a + k'.model;
      assert (a + k.model)[|a|..] == k.model && (a + k'.model)[|a|..] == k'.model;
      var b, e := PREFIX + SEPARATOR + app + SEPARATOR, "." + EXTENSION;
      assert Path(k) == b + k.model + e && Path(k') == b + k'.model + e;
      assert (b + k.model + e)[|b|..|b| + |k.model|] == k.model;
      assert (b + k'.model + e)[|b|..|b| + |k'.model|] == k'.model;
    }
  }

  /** Across apps dots confuse the defaults keys but not the file names. */
  lemma DotsConfuse(bundle: string)
    ensures !EncodingsAgree(bundle, {Key("a", "b.c"), Key("a.b", "c")})
  {
    var k, k' := Key("a", "b.c"), Key("a.b", "c");
    assert KeyPrefix(bundle, k) == bundle + ".a.b.c" == KeyPrefix(bundle, k');
    var n := |PREFIX + SEPARATOR| + 1;
    assert Path(k)[n] == '@' && Path(k')[n] == '.';
  }
}
