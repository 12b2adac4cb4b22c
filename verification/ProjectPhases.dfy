/** What a run makes of one reference and of one file, said without the diffs: a file
    goes where its extension sends it. */
module ProjectPhases {
  import opened ProjectValues
  import opened ProjectLaws
  import opened Wrappers

  // ----- extensions

  /** The last dot of the last component, with more than dots before it there. */
  ghost predicate ExtensionAt(p: Path, d: nat) {
    && d < |p| && p[d] == '.' && NamedBefore(p, d)
    && forall i :: d < i < |p| ==> p[i] != '.' && p[i] != '/'
  }

  /** The last component of p[..n] has a character other than a dot. */
  ghost predicate NamedBefore(p: Path, n: nat)
    requires n <= |p|
  {
    exists i: nat :: i < n && NamedFrom(p, i, n)
  }

  ghost predicate NamedFrom(p: Path, i: nat, n: nat)
    requires i < n <= |p|
  {
    p[i] != '.' && forall j :: i <= j < n ==> p[j] != '/'
  }

  /** `File.extname` */
  ghost function Extension(p: Path): string {
    if exists d: nat :: ExtensionAt(p, d) then
      var d: nat :| ExtensionAt(p, d);
      p[d..]
    else []
  }

  predicate IsSourceExtension(ext: string) {
    ext == ".c" || ext == ".cc" || ext == ".m" || ext == ".mm" || ext == ".swift"
  }

  /** A dot, and then no dot and no slash. */
  predicate Simple(ext: string) {
    |ext| > 0 && ext[0] == '.' && forall i :: 0 < i < |ext| ==> ext[i] != '.' && ext[i] != '/'
  }

  lemma OneLastDot(p: Path, d: nat, d': nat)
    requires ExtensionAt(p, d) && ExtensionAt(p, d')
    ensures d == d'
  {
    assert p[d] == '.' && p[d'] == '.';
  }

  lemma ExtensionFrom(p: Path, d: nat)
    requires ExtensionAt(p, d)
    ensures Extension(p) == p[d..]
  {
    forall d': nat | ExtensionAt(p, d') ensures d' == d {
      OneLastDot(p, d, d');
    }
  }

  lemma {:induction false} NamedIff(p: Path, n: nat)
    requires n <= |p|
    ensures Named(p, n) <==> NamedBefore(p, n)
  {
    if n > 0 && p[n - 1] == '.' {
      NamedIff(p, n - 1);
      if NamedBefore(p, n - 1) {
        var i: nat :| i < n - 1 && NamedFrom(p, i, n - 1);
        assert NamedFrom(p, i, n);
      }
      if NamedBefore(p, n) {
        var i: nat :| i < n && NamedFrom(p, i, n);
        assert NamedFrom(p, i, n - 1);
      }
    } else if n > 0 && p[n - 1] != '/' {
      assert NamedFrom(p, n - 1, n);
    }
  }

  /** The suffix test of the phases is a test on the extension. */
  lemma HasExtensionIff(p: Path, ext: string)
    requires Simple(ext)
    ensures HasExtension(p, ext) <==> Extension(p) == ext
  {
    if HasExtension(p, ext) {
      var n := |p| - |ext|;
      NamedIff(p, n);
      assert forall i :: n <= i < |p| ==> p[i] == ext[i - n];
      ExtensionFrom(p, n);
    } else if Extension(p) == ext {
      var d: nat :| ExtensionAt(p, d) && Extension(p) == p[d..];
      NamedIff(p, d);
    }
  }

  lemma SourcesByExtension(p: Path)
    ensures IsSourceExtension(Extension(p)) <==>
      || HasExtension(p, ".c") || HasExtension(p, ".cc") || HasExtension(p, ".m") || HasExtension(p, ".mm")
      || HasExtension(p, ".swift")
  {
    HasExtensionIff(p, ".c");
    HasExtensionIff(p, ".cc");
    HasExtensionIff(p, ".m");
    HasExtensionIff(p, ".mm");
    HasExtensionIff(p, ".swift");
  }

  lemma PhaseByExtension(p: Path)
    ensures PhaseOf(p) == Sources <==> IsSourceExtension(Extension(p))
    ensures PhaseOf(p) == NoPhase <==> Extension(p) == ".h"
  {
    SourcesByExtension(p);
    HasExtensionIff(p, ".h");
    HeaderIsNoSource();
  }

  lemma HeaderIsNoSource()
    ensures !IsSourceExtension(".h")
  {
    assert ".h"[1] == 'h' && ".c"[1] == 'c' && ".m"[1] == 'm';
  }

  /** A target with one file added that is wanted and not held, or taken away that is held
      and not wanted, in the phase of its extension. */
  ghost function Entered(t: Target, path: Path, wanted: bool, held: bool): Target {
    if wanted == held || Extension(path) == ".h" then t
    else if IsSourceExtension(Extension(path)) then
      t.(sources := if wanted then t.sources + {path} else t.sources - {path})
    else t.(resources := if wanted then t.resources + {path} else t.resources - {path})
  }

  // ----- a run, reference by reference and file by file

  /** A run keeps a reference unless it is in the groups and its file is neither found nor
      on disk, and adds one for each found file that no reference in the groups has. */
  lemma ReferencesLeft(p: Project, rules: Rules, disk: Disk, r: Reference)
    ensures var run := SyncRun(p, rules, disk);
      run.Some? ==>
        (r in run.value.0.references <==>
          || (r in p.references && (r.inGroups ==> r.path in disk.found || r.path in disk.files))
          || (r == Reference(r.path, true, true) && r.path in disk.found
              && forall r' <- p.references :: r'.inGroups ==> r'.path != r.path))
  {
    assert r.path in GroupPaths(p) <==> exists r' <- p.references :: r'.inGroups && r'.path == r.path;
  }

  /** The definition takes the file, no rule ignores it, and the project has a reference
      to it that is relative to its group. */
  predicate Belongs(p: Project, rules: Rules, def: TargetDef, x: Path) {
    && def.includes(x) && !def.excludes(x) && !rules.ignores(x)
    && exists r <- p.references :: r.path == x && r.groupRelative
  }

  lemma BelongsIff(p: Project, rules: Rules, disk: Disk, def: TargetDef, x: Path)
    requires OneReference(p)
    ensures x in Wanted(RemainingFiles(p, rules, disk), def) <==> Belongs(SyncedProject(p, rules, disk), rules, def, x)
  {
    var p' := SyncedProject(p, rules, disk);
    SurvivingFiles(p, rules, disk);
    assert x in ProjectFiles(p'.references, rules, {})
      <==> !rules.ignores(x) && exists r <- p'.references :: r.path == x && r.groupRelative;
  }

  /** The file is in the phase of its extension if it belongs to the target, and in no
      phase that the syncer manages otherwise; headers are in none. */
  ghost predicate ByExtension(p: Project, rules: Rules, def: TargetDef, k: nat, x: Path)
    requires k < |p.targets|
  {
    var belongs, ext, t := Belongs(p, rules, def, x), Extension(x), p.targets[k];
    && (x in t.sources <==> belongs && IsSourceExtension(ext))
    && (x in t.resources <==> belongs && !IsSourceExtension(ext) && ext != ".h")
  }

  /** A run adds a file to a synced target exactly when it belongs there, and then to the
      phase of its extension, whatever else the target holds. */
  lemma NewFileByExtension(p: Project, rules: Rules, disk: Disk, k: nat, x: Path)
    requires OneReference(p) && k < |p.targets| && Synced(rules, p.targets[k]) && x !in Members(p.targets[k])
    ensures var run := SyncRun(p, rules, disk);
      run.Some? ==>
        var p' := run.value.0;
        ByExtension(p', rules, rules.defs[p.targets[k].name], k, x) && x !in p'.targets[k].headers
  {
    var t, files := p.targets[k], RemainingFiles(p, rules, disk);
    PhaseByExtension(x);
    BelongsIff(p, rules, disk, rules.defs[t.name], x);
    LeftTargetAt(t, Wanted(files, rules.defs[t.name]), ToRemove(p, disk), x);
  }

  lemma NewFilesByExtension(p: Project, rules: Rules, disk: Disk)
    requires OneReference(p)
    ensures var run := SyncRun(p, rules, disk);
      run.Some? ==> NewByExtension(p, rules, run.value.0)
  {
    if Completes(p, rules, disk) {
      forall k: nat, x | k < |p.targets| && Synced(rules, p.targets[k]) && x !in Members(p.targets[k])
        ensures ByExtension(SyncedProject(p, rules, disk), rules, rules.defs[p.targets[k].name], k, x)
      {
        NewFileByExtension(p, rules, disk, k, x);
      }
    }
  }

  /** What the synced targets gained or did not gain between the two projects. */
  ghost predicate NewByExtension(p: Project, rules: Rules, p': Project) {
    && |p.targets| == |p'.targets|
    && forall k: nat, x :: k < |p.targets| && Synced(rules, p.targets[k]) && x !in Members(p.targets[k]) ==>
         ByExtension(p', rules, rules.defs[p.targets[k].name], k, x)
  }

  lemma LeftTargetAt(t: Target, wanted: set<Path>, removed: set<Path>, x: Path)
    requires wanted !! removed && x !in Members(t)
    ensures var t' := LeftTarget(t, wanted, removed);
      && (x in t'.sources <==> x in wanted && PhaseOf(x) == Sources)
      && (x in t'.resources <==> x in wanted && PhaseOf(x) == Resources)
      && x !in t'.headers
  {
    if x in wanted {
      assert x in wanted + Members(t);
    }
  }

  /** When the files of the targets are in their phases, a run decides for every file by
      its extension alone whether it is a source, a resource or in no managed phase. */
  lemma FilesByExtension(p: Project, rules: Rules, disk: Disk, k: nat, x: Path)
    requires Proper(p) && k < |p.targets| && Synced(rules, p.targets[k])
    ensures var run := SyncRun(p, rules, disk);
      run.Some? ==> ByExtension(run.value.0, rules, rules.defs[p.targets[k].name], k, x)
  {
    var t, files := p.targets[k], RemainingFiles(p, rules, disk);
    PhaseByExtension(x);
    BelongsIff(p, rules, disk, rules.defs[t.name], x);
    PlacedAt(t, Wanted(files, rules.defs[t.name]), ToRemove(p, disk), x);
  }

  lemma PlacedAt(t: Target, wanted: set<Path>, removed: set<Path>, x: Path)
    requires wanted !! removed && InPhase(t)
    ensures var t' := LeftTarget(t, wanted, removed);
      && (x in t'.sources <==> x in wanted && PhaseOf(x) == Sources)
      && (x in t'.resources <==> x in wanted && PhaseOf(x) == Resources)
  {
    var s := SyncedTarget(t, wanted, wanted + Members(t));
    SyncedTargetMembers(t, wanted);
    assert x in Managed(s) <==> x in wanted && PhaseOf(x) != NoPhase;
  }

  /** A root group does not contain a file of its directory whose name starts with two dots. */
  lemma TwoDotsAreOutside(dir: Path, name: string)
    requires ".." <= name && dir != []
    ensures !Contains(dir, Slashed(dir) + name)
  {
    var p := Slashed(dir) + name;
    assert p[|Slashed(dir)|..] == name;
  }
}
