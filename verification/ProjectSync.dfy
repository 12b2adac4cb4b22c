/** The syncer itself: groups and phases updated in loops over the entries of diffs. */
module ProjectSync {
  import opened Wrappers
  import opened ProjectDiff
  import opened ProjectValues
  import opened GroupTree
  import G = GroupDiffer
  import ProjectLaws
  import Phases = ProjectPhases

  // ----- one step of each loop

  lemma FilesAdd(refs: set<Reference>, r: Reference, rules: Rules, removed: set<Path>)
    ensures ProjectFiles(refs + {r}, rules, removed) ==
      ProjectFiles(refs, rules, removed)
      + if r.groupRelative && r.path !in removed && !rules.ignores(r.path) then {r.path} else {}
  {
    assert forall x :: x in ProjectFiles(refs, rules, removed) ==> x in ProjectFiles(refs + {r}, rules, removed);
  }

  /** A target after one entry has been synced. */
  function EntrySynced(t: Target, path: Path, inSource: bool, inTarget: bool): Target {
    if inSource == inTarget then t
    else match PhaseOf(path)
      case Sources => t.(sources := if inSource then t.sources + {path} else t.sources - {path})
      case Resources => t.(resources := if inSource then t.resources + {path} else t.resources - {path})
      case NoPhase => t
  }

  ghost function ChangedIn(t: Target, wanted: set<Path>, done: set<Path>): set<Path> {
    set p <- done | Changed(t, wanted, p)
  }

  lemma SyncedNothing(t: Target, wanted: set<Path>)
    ensures SyncedTarget(t, wanted, {}) == t
  {
    var s := SyncedTarget(t, wanted, {});
    assert s.sources == t.sources && s.resources == t.resources;
  }

  lemma SyncedOneMore(t: Target, wanted: set<Path>, done: set<Path>, path: Path)
    ensures SyncedTarget(t, wanted, done + {path}) ==
      EntrySynced(SyncedTarget(t, wanted, done), path, path in wanted, path in Members(t))
  {
    var s := EntrySynced(SyncedTarget(t, wanted, done), path, path in wanted, path in Members(t));
    assert SyncedTarget(t, wanted, done + {path}).sources == s.sources;
    assert SyncedTarget(t, wanted, done + {path}).resources == s.resources;
  }

  lemma ChangedOneMore(t: Target, wanted: set<Path>, done: set<Path>, path: Path)
    requires path !in done
    ensures |ChangedIn(t, wanted, done + {path})| ==
      |ChangedIn(t, wanted, done)| + if Changed(t, wanted, path) then 1 else 0
  {
    assert ChangedIn(t, wanted, done + {path}) ==
      ChangedIn(t, wanted, done) + if Changed(t, wanted, path) then {path} else {};
  }

  lemma UnsyncedTarget(t: Target)
    ensures SyncedTarget(t, Members(t), Members(t) + Members(t)) == t && TargetChanges(t, Members(t)) == 0
  {
    assert ChangedIn(t, Members(t), Members(t) + Members(t)) == {};
    ProjectLaws.UnchangedTarget(t, Members(t));
  }

  lemma RemovedOneMore(ts: seq<Target>, done: set<Path>, path: Path)
    ensures AllWithout(AllWithout(ts, done), {path}) == AllWithout(ts, done + {path})
  {
    forall k | 0 <= k < |ts| ensures Without(Without(ts[k], done), {path}) == Without(ts[k], done + {path}) {
      assert ts[k].sources - done - {path} == ts[k].sources - (done + {path});
      assert ts[k].resources - done - {path} == ts[k].resources - (done + {path});
      assert ts[k].headers - done - {path} == ts[k].headers - (done + {path});
    }
  }

  lemma RemovedNone(ts: seq<Target>)
    ensures AllWithout(ts, {}) == ts
  {
    forall k | 0 <= k < |ts| ensures Without(ts[k], {}) == ts[k] {
      ProjectLaws.WithoutNothing(ts[k]);
    }
  }

  /** The references that the entries remember for removal are all that have to go. */
  ghost predicate RemembersAll(entries: map<Path, DiffEntry>, p: Project, disk: Disk)
    requires Remembers(entries, p.references) && ToRemove(p, disk) <= TargetOf(entries)
  {
    WithAdded(p, disk).references - Remembered(entries, p.references, ToRemove(p, disk)) ==
      Surviving(WithAdded(p, disk).references, ToRemove(p, disk))
  }

  /** With one reference per path, the remembered references are all there are to remove. */
  lemma AllRemembered(p: Project, disk: Disk, entries: map<Path, DiffEntry>)
    requires ProjectLaws.OneReference(p)
    requires Remembers(entries, p.references) && TargetOf(entries) == GroupPaths(p)
    ensures RemembersAll(entries, p, disk)
  {
    var remembered := Remembered(entries, p.references, ToRemove(p, disk));
    forall r | r in WithAdded(p, disk).references && r.inGroups && r.path in ToRemove(p, disk) ensures r in remembered {
      assert r in p.references;
      assert entries[r.path].ref.value == r;
    }
  }

  lemma AddedOneMore(done: set<Path>, path: Path)
    ensures AddedReferences(done + {path}) == AddedReferences(done) + {Reference(path, true, true)}
  {
  }

  lemma SyncIs(p: Project, rules: Rules, disk: Disk, lost: set<Reference>, p': Project)
    requires WithAdded(p, disk).references - lost == Surviving(WithAdded(p, disk).references, ToRemove(p, disk))
    requires p'.references == WithAdded(p, disk).references - lost
    requires p'.targets == SyncedProject(p, rules, disk).targets
    ensures p' == SyncedProject(p, rules, disk)
  {
  }

  lemma PartlyAdded(before: set<Reference>, done: set<Path>, roots: seq<Path>)
    requires forall x <- done :: HasRoot(roots, x)
    ensures Partly(before, before + AddedReferences(done), roots)
  {
  }

  // ----- groups and references in step

  /** The groups hold exactly the references that are in groups. */
  ghost predicate InStep(groups: seq<Group>, references: set<Reference>) {
    Refs(groups) == set r <- references | r.inGroups
  }

  predicate Rooted(groups: seq<Group>, roots: seq<Path>) {
    |groups| == |roots| && forall k :: 0 <= k < |roots| ==> groups[k].path == roots[k]
  }

  /** The directories are the given ones and others below them. */
  ghost predicate Grown(fs: G.FileTree, groups: seq<Group>, dirs: set<Path>) {
    dirs <= Dirs(groups) && forall d <- Dirs(groups) :: G.Below(fs, dirs, d)
  }

  lemma GrownAtFirst(fs: G.FileTree, groups: seq<Group>)
    ensures Grown(fs, groups, Dirs(groups))
  {
    forall d | d in Dirs(groups) ensures G.Below(fs, Dirs(groups), d) {
      G.RootIsBelow(fs, Dirs(groups), d);
    }
  }

  /** The groups have their roots, hold the references that are in groups, and have grown
      from the directories. */
  ghost predicate Kept(
      fs: G.FileTree, groups: seq<Group>, references: set<Reference>, roots: seq<Path>, dirs: set<Path>)
  {
    Rooted(groups, roots) && InStep(groups, references) && Grown(fs, groups, dirs)
  }

  // ----- what is done to the groups

  datatype Edit = Add(root: nat, steps: seq<Step>, ref: Reference) | Remove(ref: Reference)

  function EditOne(gs: seq<Group>, e: Edit): seq<Group> {
    match e
    case Add(k, steps, r) => if k < |gs| then gs[k := Insert(gs[k], steps, r)] else gs
    case Remove(r) => Drop(gs, r)
  }

  function Edited(gs: seq<Group>, es: seq<Edit>): seq<Group>
    decreases |es|
  {
    if es == [] then gs else EditOne(Edited(gs, es[..|es| - 1]), es[|es| - 1])
  }

  function EditedRefs(references: set<Reference>, es: seq<Edit>): set<Reference>
    decreases |es|
  {
    if es == [] then references
    else
      var e, before := es[|es| - 1], EditedRefs(references, es[..|es| - 1]);
      if e.Add? then before + {e.ref} else before - {e.ref}
  }

  lemma EditMore(gs: seq<Group>, references: set<Reference>, es: seq<Edit>, e: Edit)
    ensures Edited(gs, es + [e]) == EditOne(Edited(gs, es), e)
    ensures EditedRefs(references, es + [e]) ==
      if e.Add? then EditedRefs(references, es) + {e.ref} else EditedRefs(references, es) - {e.ref}
  {
    assert (es + [e])[..|es|] == es;
  }

  /** Additions go to a root group, and the groups made for them stand for directories below. */
  ghost predicate Sensible(e: Edit, n: nat, fs: G.FileTree, dirs: set<Path>) {
    e.Add? ==> e.root < n && e.ref.inGroups && PlacesOne(e.steps, fs, dirs)
  }

  /** The addition of a reference to a root group, where `find_subpath` leads for its path. */
  predicate Additive(e: Edit, n: nat, place: Path -> seq<Step>) {
    e.Add? && e.root < n && e.ref.inGroups && e.steps == place(e.ref.path)
  }

  lemma EditOneKeeps(
      fs: G.FileTree, gs: seq<Group>, references: set<Reference>, roots: seq<Path>, dirs: set<Path>, e: Edit)
    requires Kept(fs, gs, references, roots, dirs) && Sensible(e, |gs|, fs, dirs)
    ensures Kept(fs, EditOne(gs, e), if e.Add? then references + {e.ref} else references - {e.ref}, roots, dirs)
  {
    if e.Add? {
      RootedAdd(gs, roots, e.root, e.steps, e.ref);
      InStepAdd(gs, references, e.root, e.steps, e.ref);
      GrownAdd(fs, gs, dirs, e.root, e.steps, e.ref);
    } else {
      InStepDrop(gs, references, e.ref);
      RootedDrop(fs, gs, roots, dirs, e.ref);
    }
  }

  lemma RootedAdd(gs: seq<Group>, roots: seq<Path>, k: nat, steps: seq<Step>, r: Reference)
    requires Rooted(gs, roots) && k < |gs|
    ensures Rooted(gs[k := Insert(gs[k], steps, r)], roots)
  {
    InsertAdds(gs[k], steps, r);
  }

  lemma RootedDrop(fs: G.FileTree, gs: seq<Group>, roots: seq<Path>, dirs: set<Path>, r: Reference)
    requires Rooted(gs, roots) && Grown(fs, gs, dirs)
    ensures Rooted(Drop(gs, r), roots) && Grown(fs, Drop(gs, r), dirs)
  {
    DropRemoves(gs, r);
    DropKeepsRoots(gs, r);
  }

  lemma {:induction false} EditsKeep(
      fs: G.FileTree, gs: seq<Group>, references: set<Reference>, roots: seq<Path>, dirs: set<Path>, es: seq<Edit>)
    requires Kept(fs, gs, references, roots, dirs) && forall e <- es :: Sensible(e, |gs|, fs, dirs)
    ensures Kept(fs, Edited(gs, es), EditedRefs(references, es), roots, dirs)
    decreases |es|
  {
    if es != [] {
      var n := |es| - 1;
      EditsKeep(fs, gs, references, roots, dirs, es[..n]);
      EditOneKeeps(fs, Edited(gs, es[..n]), EditedRefs(references, es[..n]), roots, dirs, es[n]);
    }
  }

  lemma InStepAdd(groups: seq<Group>, references: set<Reference>, k: nat, steps: seq<Step>, r: Reference)
    requires InStep(groups, references) && k < |groups| && r.inGroups
    ensures InStep(groups[k := Insert(groups[k], steps, r)], references + {r})
  {
    InsertAdds(groups[k], steps, r);
    UpdateRefs(groups, k, Insert(groups[k], steps, r), r);
  }

  lemma GrownAdd(fs: G.FileTree, groups: seq<Group>, dirs: set<Path>, k: nat, steps: seq<Step>, r: Reference)
    requires Grown(fs, groups, dirs) && k < |groups| && forall d <- Made(steps) :: G.Below(fs, dirs, d)
    ensures Grown(fs, groups[k := Insert(groups[k], steps, r)], dirs)
  {
    InsertAdds(groups[k], steps, r);
    UpdateDirs(groups, k, Insert(groups[k], steps, r), Made(steps));
  }

  /** Every group that is made for a path stands for a directory below these. */
  ghost predicate Places(place: Path -> seq<Step>, fs: G.FileTree, dirs: set<Path>) {
    forall p :: PlacesOne(place(p), fs, dirs)
  }

  ghost predicate PlacesOne(steps: seq<Step>, fs: G.FileTree, dirs: set<Path>) {
    forall d <- Made(steps) :: G.Below(fs, dirs, d)
  }

  /** References were added only for paths that have a root group. */
  ghost predicate Partly(before: set<Reference>, after: set<Reference>, roots: seq<Path>) {
    before <= after && forall r <- after :: r in before || HasRoot(roots, r.path)
  }

  lemma InStepDrop(groups: seq<Group>, references: set<Reference>, r: Reference)
    requires InStep(groups, references)
    ensures InStep(Drop(groups, r), references - {r})
  {
    DropRemoves(groups, r);
  }

  /** Groups that have grown lead to the same files. */
  lemma GrownFindsSame(fs: G.FileTree, groups: seq<Group>, dirs: set<Path>, f: Path)
    requires Grown(fs, groups, dirs)
    ensures G.Found(fs, Dirs(groups), f) <==> G.Found(fs, dirs, f)
  {
    G.NewGroupsFindNothing(fs, dirs, Dirs(groups), f);
    assert dirs + Dirs(groups) == Dirs(groups);
  }

  lemma InStepPaths(groups: seq<Group>, p: Project)
    requires InStep(groups, p.references)
    ensures Within(groups, p.references) && RefPaths(groups) == GroupPaths(p)
  {
    RefsWithin(groups, p.references);
  }

  class Syncer {
    var references: set<Reference>
    var groups: seq<Group>
    var targets: seq<Target>
    const rules: Rules
    const fs: G.FileTree
    const disk: Disk

    ghost function View(): Project
      reads this
    {
      Project(references, targets)
    }

    /** The root groups are those of the rules, they hold the references that are in
        groups, and their directories lead to the files on disk. */
    ghost predicate Describes()
      reads this
    {
      && Rooted(groups, rules.roots) && InStep(groups, references)
      && fs.files == disk.files && forall p :: p in disk.found <==> G.Found(fs, Dirs(groups), p)
    }

    constructor (p: Project, groups: seq<Group>, rules: Rules, fs: G.FileTree, disk: Disk)
      ensures View() == p && this.groups == groups && this.rules == rules && this.fs == fs && this.disk == disk
    {
      references, this.groups, targets := p.references, groups, p.targets;
      this.rules, this.fs, this.disk := rules, fs, disk;
    }

    /** The first root group that contains the path. */
    method FindGroupContaining(path: Path) returns (found: Option<nat>)
      requires Rooted(groups, rules.roots)
      ensures found.Some? <==> HasRoot(rules.roots, path)
      ensures found.Some? ==>
        && found.value < |groups| && Contains(groups[found.value].path, path)
        && forall k :: 0 <= k < found.value ==> !Contains(groups[k].path, path)
    {
      for k := 0 to |groups|
        invariant forall j :: 0 <= j < k ==> !Contains(groups[j].path, path)
      {
        if Contains(groups[k].path, path) {
          assert Contains(rules.roots[k], path);
          return Some(k);
        }
      }
      return None;
    }

    /** Adds references for the paths; `false` when it raises, having found no root group
        for one of them.  `place` says where `find_subpath` leads for a path. */
    method AddToProject(paths: set<Path>, place: Path -> seq<Step>) returns (ok: bool, ghost es: seq<Edit>)
      requires Rooted(groups, rules.roots)
      modifies `references, `groups
      ensures ok <==> forall x <- paths :: HasRoot(rules.roots, x)
      ensures ok ==> references == old(references) + AddedReferences(paths)
      ensures Partly(old(references), references, rules.roots)
      ensures groups == Edited(old(groups), es) && references == EditedRefs(old(references), es)
      ensures forall e <- es :: Additive(e, |rules.roots|, place)
    {
      ghost var done;
      ok, done, es := AddFiles(paths, place);
      PartlyAdded(old(references), done, rules.roots);
    }

    /** The loop over the paths: `done` are those that were added. */
    method AddFiles(paths: set<Path>, place: Path -> seq<Step>)
      returns (ok: bool, ghost done: set<Path>, ghost es: seq<Edit>)
      requires Rooted(groups, rules.roots)
      modifies `references, `groups
      ensures if ok then done == paths else exists x <- paths :: !HasRoot(rules.roots, x)
      ensures forall x <- done :: HasRoot(rules.roots, x)
      ensures references == old(references) + AddedReferences(done)
      ensures groups == Edited(old(groups), es) && references == EditedRefs(old(references), es)
      ensures forall e <- es :: Additive(e, |rules.roots|, place)
    {
      var todo := paths;
      done, es := {}, [];
      while todo != {}
        invariant todo <= paths && done <= paths && forall x <- paths :: x in todo || x in done
        invariant forall x <- done :: HasRoot(rules.roots, x)
        invariant references == old(references) + AddedReferences(done)
        invariant Rooted(groups, rules.roots) && forall e <- es :: Additive(e, |rules.roots|, place)
        invariant groups == Edited(old(groups), es) && references == EditedRefs(old(references), es)
      {
        var path :| path in todo;
        ghost var e;
        ok, e := AddFile(path, place(path));
        if !ok {
          return;
        }
        AddedOneMore(done, path);
        EditMore(old(groups), old(references), es, e);
        todo, done, es := todo - {path}, done + {path}, es + [e];
      }
      ok := true;
      assert done == paths;
    }

    method AddFile(path: Path, steps: seq<Step>) returns (ok: bool, ghost e: Edit)
      requires Rooted(groups, rules.roots)
      modifies `references, `groups
      ensures ok <==> HasRoot(rules.roots, path)
      ensures references == if ok then old(references) + {Reference(path, true, true)} else old(references)
      ensures groups == if ok then EditOne(old(groups), e) else old(groups)
      ensures ok ==> e.Add? && e.root < |rules.roots| && e.steps == steps && e.ref == Reference(path, true, true)
      ensures Rooted(groups, rules.roots)
    {
      var ref := Reference(path, true, true);
      var root := FindGroupContaining(path);
      if root == None {
        return false, Remove(ref);
      }
      RootedAdd(groups, rules.roots, root.value, steps, ref);
      groups := groups[root.value := Insert(groups[root.value], steps, ref)];
      references := references + {ref};
      return true, Add(root.value, steps, ref);
    }

    method FindProjectFilesAfterRemoval(removed: set<Path>) returns (files: set<Path>)
      ensures files == ProjectFiles(references, rules, removed)
    {
      files := {};
      var todo := references;
      ghost var done := {};
      while todo != {}
        invariant done + todo == references && files == ProjectFiles(done, rules, removed)
      {
        var r :| r in todo;
        FilesAdd(done, r, rules, removed);
        if r.groupRelative && r.path !in removed && !rules.ignores(r.path) {
          files := files + {r.path};
        }
        todo, done := todo - {r}, done + {r};
      }
    }

    /** `TargetDef.diff`: the matching files are the source and the phases are the target. */
    method DiffTarget(def: TargetDef, files: set<Path>, t: Target) returns (d: Diff)
      ensures fresh(d) && d.entries.Keys == Wanted(files, def) + Members(t)
      ensures d.Source() == Wanted(files, def) && d.Target() == Members(t)
    {
      d := new Diff();
      var todo := files;
      ghost var done := {};
      while todo != {}
        invariant done + todo == files && d.Source() == Wanted(done, def) == d.entries.Keys && d.Target() == {}
      {
        var path :| path in todo;
        assert Wanted(done + {path}, def) == Wanted(done, def) + if def.Matches(path) then {path} else {};
        if def.Matches(path) {
          d.MarkSource(path);
        }
        todo, done := todo - {path}, done + {path};
      }
      var members := Members(t);
      ghost var seen := {};
      while members != {}
        invariant seen + members == Members(t)
        invariant d.Source() == Wanted(files, def) && d.Target() == seen && d.entries.Keys == Wanted(files, def) + seen
      {
        var path :| path in members;
        d.MarkTarget(path, None);
        members, seen := members - {path}, seen + {path};
      }
    }

    /** `sync_target_entry`: the target afterwards and the number of changes made. */
    method SyncTargetEntry(
        t: Target, path: Path, entry: DiffEntry, ghost start: Target, ghost wanted: set<Path>, ghost done: set<Path>)
      returns (t': Target, n: nat)
      requires t == SyncedTarget(start, wanted, done) && path in wanted + Members(start) - done
      requires entry.inSource == (path in wanted) && entry.inTarget == (path in Members(start))
      ensures t' == SyncedTarget(start, wanted, done + {path})
      ensures |ChangedIn(start, wanted, done)| + n == |ChangedIn(start, wanted, done + {path})|
      ensures t' == Phases.Entered(t, path, entry.inSource, entry.inTarget)
    {
      Phases.PhaseByExtension(path);
      SyncedOneMore(start, wanted, done, path);
      ChangedOneMore(start, wanted, done, path);
      t', n := t, 0;
      var phase := PhaseOf(path);
      if entry.Unchanged() || phase == NoPhase {
        return;
      }
      if entry.ToAdd() {
        t' := if phase == Sources then t.(sources := t.sources + {path}) else t.(resources := t.resources + {path});
      } else {
        t' := if phase == Sources then t.(sources := t.sources - {path}) else t.(resources := t.resources - {path});
      }
      n := 1;
    }

    /** Syncs the entries of a target diff, in any order. */
    method SyncEntries(t: Target, entries: map<Path, DiffEntry>, ghost wanted: set<Path>) returns (t': Target, n: nat)
      requires entries.Keys == wanted + Members(t)
      requires forall p <- entries ::
        (entries[p].inSource <==> p in wanted) && (entries[p].inTarget <==> p in Members(t))
      ensures t' == SyncedTarget(t, wanted, entries.Keys) && n == |ChangedIn(t, wanted, entries.Keys)|
    {
      t', n := t, 0;
      var todo := entries.Keys;
      ghost var done := {};
      SyncedNothing(t, wanted);
      while todo != {}
        invariant done !! todo && done <= entries.Keys && todo <= entries.Keys
        invariant forall x <- entries.Keys :: x in todo || x in done
        invariant t' == SyncedTarget(t, wanted, done) && n == |ChangedIn(t, wanted, done)|
      {
        var path :| path in todo;
        assert path in entries.Keys;
        var more;
        t', more := SyncTargetEntry(t', path, entries[path], t, wanted, done);
        n := n + more;
        todo, done := todo - {path}, done + {path};
      }
      assert done == entries.Keys;
    }

    /** Brings one target in line with the project's files; counts the changes. */
    method SyncOneTarget(t: Target, def: TargetDef, files: set<Path>) returns (t': Target, n: nat)
      ensures n == TargetChanges(t, Wanted(files, def))
      ensures t' == SyncedTarget(t, Wanted(files, def), Wanted(files, def) + Members(t))
    {
      var d := DiffTarget(def, files, t);
      assert forall p <- d.entries ::
        (p in d.Source() <==> d.entries[p].inSource) && (p in d.Target() <==> d.entries[p].inTarget);
      t', n := SyncEntries(t, d.entries, Wanted(files, def));
    }

    /** Removing a reference from the project removes it from the groups and all phases. */
    method RemoveFromProject(entries: map<Path, DiffEntry>, paths: set<Path>, ghost refs: set<Reference>)
      returns (ghost es: seq<Edit>)
      requires Remembers(entries, refs) && paths <= TargetOf(entries)
      modifies `references, `groups, `targets
      ensures references == old(references) - Remembered(entries, refs, paths)
      ensures targets == AllWithout(old(targets), paths)
      ensures groups == Edited(old(groups), es) && references == EditedRefs(old(references), es)
      ensures forall e <- es :: e.Remove?
    {
      var todo := paths;
      ghost var done := {};
      es := [];
      RemovedNone(targets);
      while todo != {}
        invariant done + todo == paths && references == old(references) - Remembered(entries, refs, done)
        invariant targets == AllWithout(old(targets), done)
        invariant groups == Edited(old(groups), es) && references == EditedRefs(old(references), es)
        invariant forall e <- es :: e.Remove?
      {
        var path :| path in todo;
        var ref := entries[path].ref.value;
        assert Remembered(entries, refs, done + {path}) == Remembered(entries, refs, done) + {ref};
        RemovedOneMore(old(targets), done, path);
        EditMore(old(groups), old(references), es, Remove(ref));
        references, groups := references - {ref}, Drop(groups, ref);
        targets := AllWithout(targets, {path});
        todo, done, es := todo - {path}, done + {path}, es + [Remove(ref)];
      }
    }

    /** Syncs one target if it has a definition with sources; returns the number of changes. */
    method SyncTargetAt(t: Target, files: set<Path>) returns (t': Target, n: nat)
      ensures t' == SyncTarget(rules, t, files) && n == TargetChanges(t, WantedFor(rules, t, files))
    {
      if Synced(rules, t) {
        t', n := SyncOneTarget(t, rules.defs[t.name], files);
      } else {
        t', n := t, 0;
        UnsyncedTarget(t);
      }
    }

    /** Syncs the targets one after the other; returns the number of changes. */
    method SyncAllTargets(files: set<Path>) returns (n: nat)
      modifies this`targets
      ensures targets == SyncTargets(rules, old(targets), files)
      ensures n == AllTargetChanges(rules, old(targets), files)
    {
      n := 0;
      ghost var ts := targets;
      for k := 0 to |targets|
        invariant |targets| == |ts| && n == AllTargetChanges(rules, ts[..k], files)
        invariant forall j :: 0 <= j < k ==> targets[j] == SyncTarget(rules, ts[j], files)
        invariant forall j :: k <= j < |ts| ==> targets[j] == ts[j]
      {
        assert ts[..k + 1][..k] == ts[..k];
        var t, more := SyncTargetAt(targets[k], files);
        targets := targets[k := t];
        n := n + more;
      }
      assert ts[..|ts|] == ts;
    }

    method DiffGroups() returns (d: Diff)
      requires Describes()
      ensures fresh(d) && Remembers(d.entries, references) && d.Target() == GroupPaths(View())
      ensures d.Source() == disk.found + GroupPaths(View()) * disk.files
    {
      InStepPaths(groups, View());
      d := G.DiffGroups(fs, groups, references);
    }

    /** Adds what a group diff asks for; `None` when that raises. */
    method SyncGroups(d: Diff, place: Path -> seq<Step>)
      returns (n: Option<nat>, gone: set<Path>, ghost es: seq<Edit>)
      requires d.Target() == GroupPaths(View()) && d.Source() == disk.found + GroupPaths(View()) * disk.files
      requires Rooted(groups, rules.roots)
      modifies `references, `groups
      ensures n.Some? <==> Completes(old(View()), rules, disk)
      ensures n.Some? ==> n.value == |ToAdd(old(View()), disk)| + |gone|
      ensures n.Some? ==> references == WithAdded(old(View()), disk).references
      ensures gone == ToRemove(old(View()), disk) && gone <= TargetOf(d.entries)
      ensures Partly(old(references), references, rules.roots)
      ensures groups == Edited(old(groups), es) && references == EditedRefs(old(references), es)
      ensures forall e <- es :: Additive(e, |rules.roots|, place)
    {
      var changes := d.Changes();
      gone := d.ToRemove();
      var added := d.ToAdd();
      assert added == ToAdd(View(), disk) && gone == ToRemove(View(), disk);
      var ok;
      ok, es := AddToProject(added, place);
      n := if ok then Some(changes) else None;
    }

    /** Brings the targets in line and removes, once the additions are made. */
    method SyncRest(entries: map<Path, DiffEntry>, gone: set<Path>, ghost p: Project)
      returns (more: nat, ghost es: seq<Edit>)
      requires Remembers(entries, p.references) && gone == ToRemove(p, disk) && gone <= TargetOf(entries)
      requires references == WithAdded(p, disk).references && targets == p.targets
      requires RemembersAll(entries, p, disk)
      modifies `references, `groups, `targets
      ensures View() == SyncedProject(p, rules, disk)
      ensures more == AllTargetChanges(rules, p.targets, RemainingFiles(p, rules, disk))
      ensures groups == Edited(old(groups), es) && references == EditedRefs(old(references), es)
      ensures forall e <- es :: e.Remove?
    {
      var files := FindProjectFilesAfterRemoval(gone);
      more := SyncAllTargets(files);
      es := RemoveFromProject(entries, gone, p.references);
      SyncIs(p, rules, disk, Remembered(entries, p.references, gone), View());
    }

    method SyncDiff(d: Diff, place: Path -> seq<Step>)
      returns (changes: Option<nat>, ghost adds: seq<Edit>, ghost removes: seq<Edit>)
      requires Remembers(d.entries, references) && d.Target() == GroupPaths(View())
      requires d.Source() == disk.found + GroupPaths(View()) * disk.files
      requires RemembersAll(d.entries, View(), disk) && Rooted(groups, rules.roots)
      modifies `references, `groups, `targets
      ensures changes.Some? <==> Completes(old(View()), rules, disk)
      ensures changes.Some? ==>
        View() == SyncedProject(old(View()), rules, disk) && changes.value == SyncChanges(old(View()), rules, disk)
      ensures changes == None ==> targets == old(targets) && Partly(old(references), references, rules.roots)
      ensures groups == Edited(Edited(old(groups), adds), removes)
      ensures references == EditedRefs(EditedRefs(old(references), adds), removes)
      ensures (forall e <- adds :: Additive(e, |rules.roots|, place)) && forall e <- removes :: e.Remove?
    {
      ghost var p := View();
      var entries := d.entries;
      removes := [];
      var n, gone;
      n, gone, adds := SyncGroups(d, place);
      if n == None {
        changes := None;
        return;
      }
      var more;
      more, removes := SyncRest(entries, gone, p);
      changes := Some(n.value + more);
    }

    /** `sync`.  It raises exactly when a file that is to be added has no root group, with
        no target changed and nothing added that has none.  Otherwise it leaves the
        project that the value model describes and returns its count.  Either way
        the groups are kept in step, so that it can be run again. */
    method Sync(place: Path -> seq<Step>) returns (changes: Option<nat>)
      requires ProjectLaws.OneReference(View()) && Describes() && Places(place, fs, Dirs(groups))
      modifies `references, `groups, `targets
      ensures match changes
        case Some(n) => SyncRun(old(View()), rules, disk) == Some((View(), n))
        case None =>
          && SyncRun(old(View()), rules, disk) == None
          && targets == old(targets) && Partly(old(references), references, rules.roots)
      ensures changes.Some? ==> Phases.NewByExtension(old(View()), rules, View())
      ensures Describes()
    {
      ghost var gs, refs := groups, references;
      Phases.NewFilesByExtension(View(), rules, disk);
      var d := DiffGroups();
      AllRemembered(View(), disk, d.entries);
      ghost var adds, removes;
      changes, adds, removes := SyncDiff(d, place);
      StillDescribes(fs, gs, refs, rules.roots, place, adds, removes);
    }
  }

  lemma StillDescribes(
      fs: G.FileTree, gs: seq<Group>, refs: set<Reference>, roots: seq<Path>, place: Path -> seq<Step>,
      adds: seq<Edit>, removes: seq<Edit>)
    requires Rooted(gs, roots) && InStep(gs, refs) && Places(place, fs, Dirs(gs))
    requires (forall e <- adds :: Additive(e, |roots|, place)) && forall e <- removes :: e.Remove?
    ensures var gs', refs' := Edited(Edited(gs, adds), removes), EditedRefs(EditedRefs(refs, adds), removes);
      && Rooted(gs', roots) && InStep(gs', refs')
      && forall f :: G.Found(fs, Dirs(gs'), f) <==> G.Found(fs, Dirs(gs), f)
  {
    var dirs := Dirs(gs);
    GrownAtFirst(fs, gs);
    forall e | e in adds ensures Sensible(e, |gs|, fs, dirs) {
      assert PlacesOne(place(e.ref.path), fs, dirs);
    }
    EditsKeep(fs, gs, refs, roots, dirs, adds);
    EditsKeep(fs, Edited(gs, adds), EditedRefs(refs, adds), roots, dirs, removes);
    var gs' := Edited(Edited(gs, adds), removes);
    forall f ensures G.Found(fs, Dirs(gs'), f) <==> G.Found(fs, dirs, f) {
      GrownFindsSame(fs, gs', dirs, f);
    }
  }

  /** A root group `/r` has a subgroup for the directory `/out`, where a file lies that no
      group refers to.  The file is found, but no root group contains it: every run raises. */
  lemma OutsideFileRaises(rules: Rules)
    requires rules.roots == ["/r"]
    ensures
      var groups := [Group("/r", [Group("/out", [], [])], [])];
      var fs := G.FileTree(map["/r" := [], "/out" := ["/out/n.m"]], {"/out/n.m"});
      var p, disk := Project({}, []), Disk({"/out/n.m"}, {"/out/n.m"});
      && Rooted(groups, rules.roots) && InStep(groups, p.references)
      && (forall f :: f in disk.found <==> G.Found(fs, Dirs(groups), f))
      && ProjectLaws.OneReference(p) && ProjectLaws.AllTidy(p, rules, disk)
      && SyncRun(p, rules, disk) == None
      && SyncRun(SavedProject(p, rules, disk), rules, disk) == None
  {
    OutsideGroups();
    OutsideFound();
    OutsideHasNoRoot();
    var x := "/out/n.m";
    assert x in ToAdd(Project({}, []), Disk({x}, {x}));
  }

  lemma OutsideHasNoRoot()
    ensures !HasRoot(["/r"], "/out/n.m")
  {
    assert "/out/n.m"[1] == 'o' && "/r"[1] == 'r';
    assert Slashed("/r")[1] == 'r';
  }

  lemma OutsideFound()
    ensures
      var fs := G.FileTree(map["/r" := [], "/out" := ["/out/n.m"]], {"/out/n.m"});
      forall f :: f == "/out/n.m" <==> G.Found(fs, {"/r", "/out"}, f)
  {
    var fs := G.FileTree(map["/r" := [], "/out" := ["/out/n.m"]], {"/out/n.m"});
    var x := "/out/n.m";
    G.RootIsBelow(fs, {"/r", "/out"}, "/out");
    assert |x| == 8 && x in G.Entries(fs, "/out") && x !in fs.listing;
  }

  lemma OutsideGroups()
    ensures var groups := [Group("/r", [Group("/out", [], [])], [])];
      Dirs(groups) == {"/r", "/out"} && Refs(groups) == {}
  {
    var sub := Group("/out", [], []);
    var groups := [Group("/r", [sub], [])];
    assert groups[..0] == [] && [sub][..0] == [];
    assert Dirs([sub]) == {"/out"} && Refs([sub]) == {};
  }
}
