/** `GroupDiffer`: walks the folder groups and, below the directory of each, the
    filesystem.  Groups may share directories, and directories may lead back to
    each other; a directory is listed once. */
module GroupDiffer {
  import opened Collections
  import opened Wrappers
  import opened GroupTree
  import opened ProjectDiff
  import opened ProjectValues

  /** The directories with the entries that are not ignored, and what is a file. */
  datatype FileTree = FileTree(listing: map<Path, seq<Path>>, files: set<Path>)

  function Entries(fs: FileTree, d: Path): seq<Path> {
    if d in fs.listing then fs.listing[d] else []
  }

  // ----- what is to be found

  /** A way down from directory to directory. */
  ghost predicate Descent(fs: FileTree, p: seq<Path>) {
    p != [] && forall k :: 0 < k < |p| ==> p[k] in Entries(fs, p[k - 1]) && p[k] in fs.listing
  }

  ghost predicate Below(fs: FileTree, roots: set<Path>, d: Path) {
    exists p :: Descent(fs, p) && p[0] in roots && p[|p| - 1] == d
  }

  /** A file that is listed in a directory below one of the roots. */
  ghost predicate Found(fs: FileTree, roots: set<Path>, f: Path) {
    f !in fs.listing && exists d :: Below(fs, roots, d) && f in Entries(fs, d)
  }

  lemma RootIsBelow(fs: FileTree, roots: set<Path>, d: Path)
    requires d in roots
    ensures Below(fs, roots, d)
  {
    assert Descent(fs, [d]);
  }

  lemma ChildIsBelow(fs: FileTree, roots: set<Path>, d: Path, e: Path)
    requires Below(fs, roots, d) && e in Entries(fs, d) && e in fs.listing
    ensures Below(fs, roots, e)
  {
    var p :| Descent(fs, p) && p[0] in roots && p[|p| - 1] == d;
    var q := p + [e];
    forall k | 0 < k < |q| ensures q[k] in Entries(fs, q[k - 1]) && q[k] in fs.listing {
      if k < |p| {
        assert p[k] in Entries(fs, p[k - 1]);
      }
    }
    assert Descent(fs, q);
  }

  /** New groups for directories that are below the old ones lead to no other files. */
  lemma NewGroupsFindNothing(fs: FileTree, roots: set<Path>, more: set<Path>, f: Path)
    requires forall d <- more :: Below(fs, roots, d)
    ensures Found(fs, roots + more, f) <==> Found(fs, roots, f)
  {
    if Found(fs, roots, f) {
      var d :| Below(fs, roots, d) && f in Entries(fs, d);
      var p :| Descent(fs, p) && p[0] in roots && p[|p| - 1] == d;
      assert p[0] in roots + more;
    }
    if Found(fs, roots + more, f) {
      var d :| Below(fs, roots + more, d) && f in Entries(fs, d);
      var p :| Descent(fs, p) && p[0] in roots + more && p[|p| - 1] == d;
      if p[0] in roots {
        RootIsBelow(fs, roots, p[0]);
      }
      DescentIsBelow(fs, roots, p, |p| - 1);
    }
  }

  lemma {:induction false} DescentIsBelow(fs: FileTree, roots: set<Path>, p: seq<Path>, k: nat)
    requires Descent(fs, p) && Below(fs, roots, p[0]) && k < |p|
    ensures Below(fs, roots, p[k])
    decreases k
  {
    if k > 0 {
      DescentIsBelow(fs, roots, p, k - 1);
      ChildIsBelow(fs, roots, p[k - 1], p[k]);
    }
  }

  // ----- what has been listed so far

  /** The entry of a directory has been taken care of. */
  predicate Handled(fs: FileTree, e: Path, dirs: set<Path>, found: set<Path>) {
    if e in fs.listing then e in dirs else e in found
  }

  ghost predicate HandledTo(fs: FileTree, entries: seq<Path>, n: nat, dirs: set<Path>, found: set<Path>) {
    n <= |entries| && forall j :: 0 <= j < n ==> Handled(fs, entries[j], dirs, found)
  }

  lemma HandledNext(
      fs: FileTree, entries: seq<Path>, n: nat, dirs: set<Path>, found: set<Path>, dirs': set<Path>, found': set<Path>)
    requires HandledTo(fs, entries, n, dirs, found) && n < |entries| && dirs <= dirs' && found <= found'
    requires Handled(fs, entries[n], dirs', found')
    ensures HandledTo(fs, entries, n + 1, dirs', found')
  {
    forall j | 0 <= j < n ensures Handled(fs, entries[j], dirs', found') {
      assert Handled(fs, entries[j], dirs, found);
    }
  }

  /** All entries of the directories have been taken care of, but for those still open. */
  ghost predicate Listed(fs: FileTree, dirs: set<Path>, open: set<Path>, found: set<Path>) {
    forall d, e :: d in dirs && d !in open && e in Entries(fs, d) ==> Handled(fs, e, dirs, found)
  }

  /** Nothing was listed that is not below the roots. */
  ghost predicate Justified(fs: FileTree, roots: set<Path>, dirs: set<Path>, found: set<Path>) {
    (forall d <- dirs :: Below(fs, roots, d)) && (forall f <- found :: Found(fs, roots, f))
  }

  lemma OpenDirectory(fs: FileTree, dirs: set<Path>, open: set<Path>, found: set<Path>, d: Path)
    requires Listed(fs, dirs, open, found)
    ensures Listed(fs, dirs + {d}, open + {d}, found)
  {
    forall c, e | c in dirs + {d} && c !in open + {d} && e in Entries(fs, c) ensures Handled(fs, e, dirs + {d}, found) {
      assert Handled(fs, e, dirs, found);
    }
  }

  lemma CloseDirectory(fs: FileTree, dirs: set<Path>, open: set<Path>, found: set<Path>, d: Path)
    requires Listed(fs, dirs, open + {d}, found) && forall e <- Entries(fs, d) :: Handled(fs, e, dirs, found)
    ensures Listed(fs, dirs, open, found)
  {
    forall c, e | c in dirs && c !in open && e in Entries(fs, c) ensures Handled(fs, e, dirs, found) {
      assert c != d ==> c !in open + {d};
    }
  }

  lemma FindFile(fs: FileTree, roots: set<Path>, dirs: set<Path>, open: set<Path>, found: set<Path>, d: Path, f: Path)
    requires Listed(fs, dirs, open, found) && Justified(fs, roots, dirs, found)
    requires Below(fs, roots, d) && f in Entries(fs, d) && f !in fs.listing
    ensures Listed(fs, dirs, open, found + {f}) && Justified(fs, roots, dirs, found + {f})
  {
    assert Found(fs, roots, f);
    forall c, e | c in dirs && c !in open && e in Entries(fs, c) ensures Handled(fs, e, dirs, found + {f}) {
      assert Handled(fs, e, dirs, found);
    }
  }

  /** A way down from a listed directory stays within the listed ones. */
  lemma {:induction false} DescentListed(fs: FileTree, dirs: set<Path>, found: set<Path>, p: seq<Path>, k: nat)
    requires Listed(fs, dirs, {}, found) && Descent(fs, p) && p[0] in dirs && k < |p|
    ensures p[k] in dirs
    decreases k
  {
    if k > 0 {
      DescentListed(fs, dirs, found, p, k - 1);
      assert Handled(fs, p[k], dirs, found);
    }
  }

  /** Once no directory is open, exactly the files below the roots have been found. */
  lemma AllFound(fs: FileTree, roots: set<Path>, dirs: set<Path>, found: set<Path>, f: Path)
    requires Listed(fs, dirs, {}, found) && Justified(fs, roots, dirs, found) && roots <= dirs
    ensures f in found <==> Found(fs, roots, f)
  {
    if Found(fs, roots, f) {
      var d :| Below(fs, roots, d) && f in Entries(fs, d);
      var p :| Descent(fs, p) && p[0] in roots && p[|p| - 1] == d;
      DescentListed(fs, dirs, found, p, |p| - 1);
      assert Handled(fs, f, dirs, found);
    }
  }

  class GroupDiffer {
    const fs: FileTree
    const diff: Diff
    var dirs: set<Path>
    ghost var found: set<Path>

    /** The diff holds what was found, what was referred to, and which of that is a file. */
    ghost predicate Valid(references: set<Reference>)
      reads this, diff
    {
      diff.Source() == found + diff.Target() * fs.files && Remembers(diff.entries, references)
    }

    constructor (fs: FileTree)
      ensures this.fs == fs && fresh(diff) && dirs == found == {} && Valid({}) && diff.Target() == {}
    {
      this.fs := fs;
      diff := new Diff();
      dirs, found := {}, {};
    }

    /** `find_fs_files` */
    method FindFsFiles(parent: Path, ghost open: set<Path>, ghost roots: set<Path>, ghost references: set<Reference>)
      requires Valid(references) && Below(fs, roots, parent)
      requires Listed(fs, dirs, open, found) && Justified(fs, roots, dirs, found)
      modifies this, diff
      ensures Valid(references) && diff.Target() == old(diff.Target())
      ensures old(dirs) <= dirs && old(found) <= found && parent in dirs
      ensures Listed(fs, dirs, open, found) && Justified(fs, roots, dirs, found)
      decreases |fs.listing.Keys - dirs|, 1
    {
      if parent in dirs {
        return;
      }
      OpenDirectory(fs, dirs, open, found, parent);
      dirs := dirs + {parent};
      var entries := Entries(fs, parent);
      for k := 0 to |entries|
        invariant Valid(references) && diff.Target() == old(diff.Target())
        invariant old(dirs) + {parent} <= dirs && old(found) <= found
        invariant Listed(fs, dirs, open + {parent}, found) && Justified(fs, roots, dirs, found)
        invariant HandledTo(fs, entries, k, dirs, found)
      {
        ghost var dirsThen, foundThen := dirs, found;
        Fewer(fs.listing.Keys, old(dirs), dirs, parent);
        VisitEntry(parent, entries[k], open + {parent}, roots, references);
        HandledNext(fs, entries, k, dirsThen, foundThen, dirs, found);
      }
      CloseDirectory(fs, dirs, open, found, parent);
    }

    /** The loop body for one entry of a directory. */
    method VisitEntry(
        parent: Path, path: Path, ghost open: set<Path>, ghost roots: set<Path>, ghost references: set<Reference>)
      requires Valid(references) && Below(fs, roots, parent) && path in Entries(fs, parent)
      requires Listed(fs, dirs, open, found) && Justified(fs, roots, dirs, found)
      modifies this, diff
      ensures Valid(references) && diff.Target() == old(diff.Target())
      ensures old(dirs) <= dirs && old(found) <= found && Handled(fs, path, dirs, found)
      ensures Listed(fs, dirs, open, found) && Justified(fs, roots, dirs, found)
      decreases |fs.listing.Keys - dirs|, 2
    {
      if path in fs.listing {
        ChildIsBelow(fs, roots, parent, path);
        FindFsFiles(path, open, roots, references);
      } else {
        FindFile(fs, roots, dirs, open, found, parent, path);
        diff.MarkSource(path);
        found := found + {path};
      }
    }

    /** The file references of one group. */
    method DiffFiles(files: seq<Reference>, ghost references: set<Reference>)
      requires Valid(references) && forall r <- files :: r in references && r.inGroups
      modifies diff
      ensures Valid(references) && diff.Target() == old(diff.Target()) + PathsOf(files)
    {
      for k := 0 to |files|
        invariant Valid(references) && diff.Target() == old(diff.Target()) + PathsOf(files[..k])
      {
        assert files[..k + 1] == files[..k] + [files[k]];
        DiffReference(files[k], references);
      }
      assert files[..|files|] == files;
    }

    method DiffReference(r: Reference, ghost references: set<Reference>)
      requires Valid(references) && r in references && r.inGroups
      modifies diff
      ensures Valid(references) && diff.Target() == old(diff.Target()) + {r.path}
    {
      diff.MarkTarget(r.path, Some(r));
      if r.path in fs.files {
        diff.MarkSource(r.path);
      }
    }

    /** `diff_project_files` */
    method DiffProjectFiles(g: Group, ghost roots: set<Path>, ghost references: set<Reference>)
      requires Valid(references) && Within(g.groups, references) && forall r <- g.files :: r in references && r.inGroups
      requires {g.path} + Dirs(g.groups) <= roots
      requires Listed(fs, dirs, {}, found) && Justified(fs, roots, dirs, found)
      modifies this, diff
      ensures Valid(references) && diff.Target() == old(diff.Target()) + RefPaths(g.groups) + PathsOf(g.files)
      ensures old(dirs) + {g.path} + Dirs(g.groups) <= dirs
      ensures Listed(fs, dirs, {}, found) && Justified(fs, roots, dirs, found)
      decreases Count(g.groups) + 1, 0
    {
      RootIsBelow(fs, roots, g.path);
      FindFsFiles(g.path, {}, roots, references);
      DiffAll(g.groups, roots, references);
      DiffFiles(g.files, references);
    }

    method DiffAll(gs: seq<Group>, ghost roots: set<Path>, ghost references: set<Reference>)
      requires Valid(references) && Within(gs, references) && Dirs(gs) <= roots
      requires Listed(fs, dirs, {}, found) && Justified(fs, roots, dirs, found)
      modifies this, diff
      ensures Valid(references) && diff.Target() == old(diff.Target()) + RefPaths(gs)
      ensures old(dirs) + Dirs(gs) <= dirs
      ensures Listed(fs, dirs, {}, found) && Justified(fs, roots, dirs, found)
      decreases Count(gs), 1
    {
      for k := 0 to |gs|
        invariant Valid(references) && diff.Target() == old(diff.Target()) + RefPaths(gs[..k])
        invariant old(dirs) + Dirs(gs[..k]) <= dirs
        invariant Listed(fs, dirs, {}, found) && Justified(fs, roots, dirs, found)
      {
        AtGroup(gs, references, k);
        DiffProjectFiles(gs[k], roots, references);
        OneGroupMore(gs, k, old(diff.Target()));
      }
      assert gs[..|gs|] == gs;
    }
  }

  /** `GroupDiffer.diff`: on disk is what is found below the directories of the groups
      and what the groups refer to as far as it is a file; in the project is what
      the groups refer to. */
  method DiffGroups(fs: FileTree, gs: seq<Group>, ghost references: set<Reference>) returns (d: Diff)
    requires Within(gs, references)
    ensures fresh(d) && Remembers(d.entries, references) && d.Target() == RefPaths(gs)
    ensures forall p :: p in d.Source() <==> Found(fs, Dirs(gs), p) || (p in RefPaths(gs) && p in fs.files)
  {
    var differ := new GroupDiffer(fs);
    differ.DiffAll(gs, Dirs(gs), references);
    d := differ.diff;
    forall p ensures p in differ.found <==> Found(fs, Dirs(gs), p) {
      AllFound(fs, Dirs(gs), differ.dirs, differ.found, p);
    }
  }
}
