/** The store as the code changes it: the file manager and the user defaults, updated
    step by step by a save or a delete. */
module DeviceStore {
  import opened Wrappers
  import opened ModelInfo
  import S = ModelStore
  import L = StoreLaws

  class DeviceStore {
    const bundle: string
    var files: map<string, S.ModelFile>
    var defaults: map<string, S.Setting>

    function View(): S.Store
      reads this
    {
      S.Store(files, defaults)
    }

    constructor (bundle: string)
      ensures this.bundle == bundle && View() == S.EMPTY
    {
      this.bundle, files, defaults := bundle, map[], map[];
    }

    method MoveFile(file: S.ModelFile, path: string, fault: S.Fault) returns (error: Option<DownloadError>)
      modifies `files
      ensures (View(), error) == S.MoveFile(old(View()), file, path, fault)
      ensures error.Some? ==> files == old(files) || files == old(files) - {path}
    {
      if path in files {
        if fault == S.RemoveFails {
          return Some(S.REPLACE_FILE);
        }
        files := files - {path};
      }
      assert old(files) - {path} == files;
      if fault == S.OutOfSpace {
        return Some(NotEnoughSpace);
      }
      if fault == S.MoveFails {
        return Some(S.SAVE_FILE);
      }
      files := files[path := file];
      return None;
    }

    method WriteToDefaults(k: S.Key, info: RemoteModelInfo)
      modifies `defaults
      ensures View() == S.WriteToDefaults(old(View()), bundle, k, info)
    {
      defaults := defaults[S.HashKey(bundle, k) := S.Text(info.hash)];
      defaults := defaults[S.SizeKey(bundle, k) := S.Number(info.size)];
    }

    method RemoveFromDefaults(k: S.Key)
      modifies `defaults
      ensures View() == S.RemoveFromDefaults(old(View()), bundle, k)
    {
      defaults := defaults - {S.HashKey(bundle, k)};
      defaults := defaults - {S.SizeKey(bundle, k)};
      assert defaults == old(defaults) - {S.HashKey(bundle, k), S.SizeKey(bundle, k)};
    }

    /** A save.  It succeeds exactly when the model can then be found on the device
        with the file and the info of this download. */
    method HandleResponse(app: string, file: S.ModelFile, r: S.Response) returns (outcome: Outcome)
      modifies this
      ensures (View(), outcome) == S.HandleResponse(old(View()), bundle, app, file, r)
      ensures outcome.Success? ==>
        var k := S.Key(app, file.info.name);
        S.GetLocalModel(View(), bundle, k) == Some(outcome.model) && files[S.Path(k)] == file
    {
      var info := file.info;
      if !(200 <= r.status < 299) {
        if r.status == 400 {
          if info.urlExpiry < r.now {
            return Failure(EXPIRED_DOWNLOAD_URL);
          }
          return Failure(InvalidArgument);
        } else if r.status == 401 || r.status == 403 {
          return Failure(PermissionDenied);
        } else if r.status == 404 {
          return Failure(NotFound);
        }
        return Failure(S.DOWNLOAD_FAILED);
      }
      if !r.hasDirectory {
        return Failure(S.NO_MODELS_DIRECTORY);
      }
      var k := S.Key(app, info.name);
      var error := MoveFile(file, S.Path(k), r.fault);
      if error.Some? {
        return Failure(error.value);
      }
      WriteToDefaults(k, info);
      S.DefaultsKeysDiffer(bundle, k, k);
      return Success(CustomModel(info.name, info.size, S.Path(k), info.hash));
    }

    method DeleteDownloadedModel(k: S.Key, removeFails: bool) returns (result: S.Deletion)
      modifies this
      ensures (View(), result) == S.DeleteModel(old(View()), bundle, k, removeFails)
      ensures result == S.Deleted ==>
        S.GetLocalModel(View(), bundle, k) == None && S.LoadInfo(View(), bundle, k) == None
      ensures result == S.NotOnDevice <==> old(S.GetLocalModel(View(), bundle, k)) == None
      ensures result != S.Deleted ==> View() == old(View())
    {
      if S.GetLocalModelInfo(View(), bundle, k) == None {
        return S.NotOnDevice;
      }
      if removeFails {
        return S.RemovalFailed;
      }
      files := files - {S.Path(k)};
      RemoveFromDefaults(k);
      return S.Deleted;
    }

    method LoseFile(path: string)
      modifies `files
      ensures View() == S.Apply(old(View()), bundle, S.LoseFile(path))
    {
      files := files - {path};
    }

    method HandleOne(e: S.Event)
      modifies this
      ensures View() == S.Apply(old(View()), bundle, e)
    {
      match e
      case Save(app, file, response) =>
        var _ := HandleResponse(app, file, response);
      case Delete(key, removeFails) =>
        var _ := DeleteDownloadedModel(key, removeFails);
      case LoseFile(path) =>
        LoseFile(path);
    }

    /** Saves, deletes and losses in any order, failed ones included.  For apps and models on
        which the two encodings agree, a model that is found afterwards is the file
        that was downloaded under its hash and size, and on a new device it is the
        one that the events leave. */
    method Handle(es: seq<S.Event>, ghost keys: set<S.Key>)
      requires S.EncodingsAgree(bundle, keys) && S.Described(View(), bundle, keys)
      requires forall e <- es :: S.About(e, keys)
      modifies this
      ensures View() == S.ApplyAll(old(View()), bundle, es)
      ensures S.Described(View(), bundle, keys) && S.Honest(View(), bundle, keys)
      ensures old(View()) == S.EMPTY ==>
        forall k <- keys :: S.GetLocalModel(View(), bundle, k) == L.FoundModel(es, k)
    {
      ghost var start := View();
      var left := es;
      while left != []
        invariant S.ApplyAll(View(), bundle, left) == S.ApplyAll(start, bundle, es)
        invariant forall e <- left :: S.About(e, keys)
        invariant S.Described(View(), bundle, keys)
        decreases |left|
      {
        S.EventDescribed(View(), bundle, keys, left[0]);
        HandleOne(left[0]);
        left := left[1..];
      }
      S.DescribedIsHonest(View(), bundle, keys);
      if start == S.EMPTY {
        forall k | k in keys ensures S.GetLocalModel(View(), bundle, k) == L.FoundModel(es, k) {
          L.FoundAsPut(bundle, keys, k, es);
        }
      }
    }
  }
}
