/** Names of model files on the device and the model names parsed back from them.
    App and model names contain no `/`, so a file name is one path component. */
module ModelFileNames {
  import opened Wrappers

  const SEPARATOR := "@@"
  const PREFIX := "fbml_model"
  const EXTENSION := "tflite"

  /** `getDownloadedModelFileName` */
  function DownloadedModelFileName(app: string, model: string): string {
    PREFIX + SEPARATOR + app + SEPARATOR + model
  }

  /** The last path component of `getDownloadedModelFileURL`. */
  function DownloadedModelFile(app: string, model: string): string {
    DownloadedModelFileName(app, model) + "." + EXTENSION
  }

  /** `deletingPathExtension` */
  function DeletePathExtension(file: string): string {
    if file == [] then [] else if file[|file| - 1] == '.' then file[..|file| - 1]
    else if '.' in file then DeletePathExtension(file[..|file| - 1]) else file
  }

  /** The leftmost place at or after `from` where the separator stands. */
  function FindSeparator(s: string, from: nat): (r: Option<nat>)
    requires from <= |s|
    ensures r == None <==> forall k :: from <= k < |s| - 1 ==> !(s[k] == '@' && s[k + 1] == '@')
    ensures r.Some? ==>
      && from <= r.value < |s| - 1 && s[r.value] == '@' && s[r.value + 1] == '@'
      && forall k :: from <= k < r.value ==> !(s[k] == '@' && s[k + 1] == '@')
    decreases |s| - from
  {
    if from + 1 >= |s| then None
    else if s[from] == '@' && s[from + 1] == '@' then Some(from)
    else FindSeparator(s, from + 1)
  }

  predicate HasSeparator(s: string) {
    FindSeparator(s, 0).Some?
  }

  /** `components(separatedBy:)`: leftmost separators that do not overlap. */
  function Components(s: string): (cs: seq<string>)
    ensures |cs| >= 1
    ensures |cs| == 1 <==> !HasSeparator(s)
    ensures !HasSeparator(s) ==> cs == [s]
  {
    match FindSeparator(s, 0)
    case None => [s]
    case Some(k) => [s[..k]] + Components(s[k + 2..])
  }

  /** `getModelNameFromFilePath` */
  function ModelNameFromFile(file: string): Option<string> {
    var cs := Components(DeletePathExtension(file));
    if |cs| == 3 then Some(cs[2]) else None
  }

  lemma {:induction false} ExtensionDeleted(name: string, ext: string)
    requires '.' !in ext
    ensures DeletePathExtension(name + "." + ext) == name
    decreases |ext|
  {
    var file := name + "." + ext;
    if ext == [] {
      assert file[..|file| - 1] == name;
    } else {
      assert file[|name|] == '.' && file[|file| - 1] == ext[|ext| - 1];
      assert file[..|file| - 1] == name + "." + ext[..|ext| - 1];
      ExtensionDeleted(name, ext[..|ext| - 1]);
    }
  }

  /** A piece without the separator that does not end in `@` is split off whole. */
  lemma SplitOff(piece: string, rest: string)
    requires !HasSeparator(piece) && (piece == [] || piece[|piece| - 1] != '@')
    ensures Components(piece + SEPARATOR + rest) == [piece] + Components(rest)
  {
    var s := piece + SEPARATOR + rest;
    assert s[|piece|] == '@' && s[|piece| + 1] == '@';
    var k := FindSeparator(s, 0).value;
    assert k == |piece| by {
      assert forall j :: 0 <= j < |piece| ==> s[j] == piece[j];
      assert piece != [] ==> s[|piece| - 1] != '@';
    }
    assert s[..k] == piece && s[k + 2..] == rest;
  }

  /** An app name with the separator inside it gives too many components. */
  lemma AppWithSeparator(app: string, model: string)
    requires HasSeparator(app)
    ensures |Components(app + SEPARATOR + model)| >= 3
  {
    var s := app + SEPARATOR + model;
    var j := FindSeparator(app, 0).value;
    assert s[j] == app[j] && s[j + 1] == app[j + 1];
    var k := FindSeparator(s, 0).value;
    assert k <= j;
    var rest := s[k + 2..];
    var m := |app| - k - 2;
    assert rest[m] == '@' && rest[m + 1] == '@';
    assert HasSeparator(rest);
  }

  lemma SeparatorAtEnd(app: string, model: string)
    requires !HasSeparator(app) && app != [] && app[|app| - 1] == '@'
    ensures FindSeparator(app + SEPARATOR + model, 0) == Some(|app| - 1)
  {
    var s := app + SEPARATOR + model;
    assert s[|app| - 1] == '@' && s[|app|] == '@';
    assert forall j :: 0 <= j < |app| ==> s[j] == app[j];
  }

  /** An app name that ends in `@` moves its last character to the model name. */
  lemma AppEndingInAt(app: string, model: string)
    requires !HasSeparator(app) && app != [] && app[|app| - 1] == '@'
    ensures Components(app + SEPARATOR + model) == [app[..|app| - 1]] + Components(['@'] + model)
  {
    var s := app + SEPARATOR + model;
    var n := |app| - 1;
    SeparatorAtEnd(app, model);
    assert s[..n] == app[..n];
    assert s[n + 2..] == ['@'] + model;
  }

  lemma PrefixIsPlain()
    ensures !HasSeparator(PREFIX) && PREFIX[|PREFIX| - 1] != '@'
  {
    assert forall k :: 0 <= k < |PREFIX| ==> PREFIX[k] != '@';
  }

  lemma SplitThree(prefix: string, app: string, model: string)
    requires !HasSeparator(prefix) && (prefix == [] || prefix[|prefix| - 1] != '@')
    ensures Components(prefix + SEPARATOR + app + SEPARATOR + model) == [prefix] + Components(app + SEPARATOR + model)
  {
    assert prefix + SEPARATOR + app + SEPARATOR + model == prefix + SEPARATOR + (app + SEPARATOR + model);
    SplitOff(prefix, app + SEPARATOR + model);
  }

  lemma PrefixSplitOff(app: string, model: string)
    ensures Components(DeletePathExtension(DownloadedModelFile(app, model))) ==
      [PREFIX] + Components(app + SEPARATOR + model)
  {
    ExtensionDeleted(DownloadedModelFileName(app, model), EXTENSION);
    PrefixIsPlain();
    SplitThree(PREFIX, app, model);
  }

  /** The model name comes back exactly when the app name has no separator and does not
      end in `@`, and the model name has no separator. */
  lemma NameComesBack(app: string, model: string)
    ensures ModelNameFromFile(DownloadedModelFile(app, model)) == Some(model) <==>
      !HasSeparator(app) && (app == [] || app[|app| - 1] != '@') && !HasSeparator(model)
  {
    PrefixSplitOff(app, model);
    if HasSeparator(app) {
      AppWithSeparator(app, model);
    } else if app != [] && app[|app| - 1] == '@' {
      AppEndingInAt(app, model);
    } else {
      SplitOff(app, model);
    }
  }
}
