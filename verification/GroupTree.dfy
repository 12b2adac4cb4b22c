/** The folder groups of a project, and what adding and removing a reference does to them. */
module GroupTree {
  import opened ProjectValues

  /** A folder group: its directory, its subgroups and its file references. */
  datatype Group = Group(path: Path, groups: seq<Group>, files: seq<Reference>)

  function Count(gs: seq<Group>): nat
    decreases gs
  {
    if gs == [] then 0 else Count(gs[..|gs| - 1]) + 1 + Count(gs[|gs| - 1].groups)
  }

  /** The directories of the groups and of all their subgroups. */
  function Dirs(gs: seq<Group>): set<Path>
    decreases gs
  {
    if gs == [] then {}
    else
      var n := |gs| - 1;
      Dirs(gs[..n]) + {gs[n].path} + Dirs(gs[n].groups)
  }

  /** The paths that the groups and their subgroups refer to. */
  function RefPaths(gs: seq<Group>): set<Path>
    decreases gs
  {
    if gs == [] then {}
    else
      var n := |gs| - 1;
      RefPaths(gs[..n]) + RefPaths(gs[n].groups) + PathsOf(gs[n].files)
  }

  function PathsOf(files: seq<Reference>): set<Path> {
    set r <- files :: r.path
  }

  /** The groups and their subgroups refer to files by these references only. */
  ghost predicate Within(gs: seq<Group>, references: set<Reference>)
    decreases gs
  {
    gs == [] ||
    var n := |gs| - 1;
    && Within(gs[..n], references) && Within(gs[n].groups, references)
    && forall r <- gs[n].files :: r in references && r.inGroups
  }

  lemma {:induction false} AtGroup(gs: seq<Group>, references: set<Reference>, k: nat)
    requires Within(gs, references) && k < |gs|
    ensures {gs[k].path} + Dirs(gs[k].groups) <= Dirs(gs) && Count(gs[k].groups) < Count(gs)
    ensures Within(gs[k].groups, references) && forall r <- gs[k].files :: r in references && r.inGroups
    decreases |gs|
  {
    if k < |gs| - 1 {
      AtGroup(gs[..|gs| - 1], references, k);
    }
  }

  lemma OneGroupMore(gs: seq<Group>, k: nat, before: set<Path>)
    requires k < |gs|
    ensures Dirs(gs[..k + 1]) == Dirs(gs[..k]) + {gs[k].path} + Dirs(gs[k].groups)
    ensures before + RefPaths(gs[..k + 1]) == before + RefPaths(gs[..k]) + RefPaths(gs[k].groups) + PathsOf(gs[k].files)
  {
    assert gs[..k + 1][..k] == gs[..k];
  }

  // ----- the references as a set

  /** The references of the groups and of all their subgroups. */
  function Refs(gs: seq<Group>): set<Reference>
    decreases gs
  {
    if gs == [] then {}
    else
      var n := |gs| - 1;
      Refs(gs[..n]) + GroupRefs(gs[n])
  }

  function GroupRefs(g: Group): set<Reference>
    decreases g
  {
    Refs(g.groups) + set r <- g.files
  }

  function GroupDirs(g: Group): set<Path> {
    {g.path} + Dirs(g.groups)
  }

  lemma {:induction false} RefsWithin(gs: seq<Group>, references: set<Reference>)
    ensures RefPaths(gs) == set r <- Refs(gs) :: r.path
    ensures Within(gs, references) <==> forall r <- Refs(gs) :: r in references && r.inGroups
    decreases gs
  {
    if gs != [] {
      var n := |gs| - 1;
      RefsWithin(gs[..n], references);
      RefsWithin(gs[n].groups, references);
      assert Refs(gs) == Refs(gs[..n]) + Refs(gs[n].groups) + set r <- gs[n].files;
    }
  }

  // ----- adding a reference

  /** A step of `find_subpath`: into a subgroup, or into a new one for a directory. */
  datatype Step = Enter(index: nat) | Make(dir: Path)

  /** The directories of the groups that are made. */
  function Made(steps: seq<Step>): set<Path> {
    set s <- steps | s.Make? :: s.dir
  }

  function Insert(g: Group, steps: seq<Step>, r: Reference): Group
    decreases |steps|
  {
    if steps == [] then g.(files := g.files + [r])
    else match steps[0]
      case Enter(i) =>
        if i < |g.groups| then g.(groups := g.groups[i := Insert(g.groups[i], steps[1..], r)])
        else g.(files := g.files + [r])
      case Make(dir) => g.(groups := g.groups + [Insert(Group(dir, [], []), steps[1..], r)])
  }

  lemma {:induction false} UpdateRefs(gs: seq<Group>, k: nat, g: Group, r: Reference)
    requires k < |gs| && GroupRefs(g) == GroupRefs(gs[k]) + {r}
    ensures Refs(gs[k := g]) == Refs(gs) + {r}
    decreases |gs|
  {
    var n := |gs| - 1;
    if k == n {
      assert gs[k := g][..n] == gs[..n];
    } else {
      assert gs[k := g][..n] == gs[..n][k := g];
      UpdateRefs(gs[..n], k, g, r);
    }
  }

  lemma {:induction false} UpdateDirs(gs: seq<Group>, k: nat, g: Group, more: set<Path>)
    requires k < |gs| && GroupDirs(gs[k]) <= GroupDirs(g) <= GroupDirs(gs[k]) + more
    ensures Dirs(gs) <= Dirs(gs[k := g]) <= Dirs(gs) + more
    decreases |gs|
  {
    var n := |gs| - 1;
    if k == n {
      assert gs[k := g][..n] == gs[..n];
    } else {
      assert gs[k := g][..n] == gs[..n][k := g];
      UpdateDirs(gs[..n], k, g, more);
    }
  }

  lemma AppendGroup(gs: seq<Group>, g: Group)
    ensures Refs(gs + [g]) == Refs(gs) + GroupRefs(g) && Dirs(gs + [g]) == Dirs(gs) + GroupDirs(g)
  {
    assert (gs + [g])[..|gs|] == gs;
  }

  /** Wherever it is put, the groups then have the reference, and new directories only
      for groups that were made. */
  lemma {:induction false} InsertAdds(g: Group, steps: seq<Step>, r: Reference)
    ensures var g' := Insert(g, steps, r);
      && g'.path == g.path && GroupRefs(g') == GroupRefs(g) + {r}
      && GroupDirs(g) <= GroupDirs(g') <= GroupDirs(g) + Made(steps)
    decreases |steps|
  {
    if steps == [] || (steps[0].Enter? && steps[0].index >= |g.groups|) {
      assert (set x <- g.files + [r]) == (set x <- g.files) + {r};
    } else if steps[0].Enter? {
      var i := steps[0].index;
      InsertAdds(g.groups[i], steps[1..], r);
      UpdateRefs(g.groups, i, Insert(g.groups[i], steps[1..], r), r);
      UpdateDirs(g.groups, i, Insert(g.groups[i], steps[1..], r), Made(steps));
    } else {
      MakeAdds(g, steps, r);
    }
  }

  lemma {:induction false} MakeAdds(g: Group, steps: seq<Step>, r: Reference)
    requires steps != [] && steps[0].Make?
    ensures var g' := Insert(g, steps, r);
      && g'.path == g.path && GroupRefs(g') == GroupRefs(g) + {r}
      && GroupDirs(g) <= GroupDirs(g') <= GroupDirs(g) + Made(steps)
    decreases |steps|, 0
  {
    var made := Group(steps[0].dir, [], []);
    InsertAdds(made, steps[1..], r);
    AppendGroup(g.groups, Insert(made, steps[1..], r));
    assert steps[0] in steps && Made(steps[1..]) <= Made(steps);
    assert GroupRefs(made) == {} && GroupDirs(made) == {steps[0].dir};
  }

  // ----- removing a reference

  function Keep(files: seq<Reference>, r: Reference): (kept: seq<Reference>)
    ensures forall x :: x in kept <==> x in files && x != r
  {
    if files == [] then []
    else if files[0] == r then Keep(files[1..], r)
    else [files[0]] + Keep(files[1..], r)
  }

  function DropFrom(g: Group, r: Reference): Group
    decreases g
  {
    Group(g.path, Drop(g.groups, r), Keep(g.files, r))
  }

  function Drop(gs: seq<Group>, r: Reference): seq<Group>
    decreases gs
  {
    if gs == [] then [] else Drop(gs[..|gs| - 1], r) + [DropFrom(gs[|gs| - 1], r)]
  }

  lemma {:induction false} DropRemoves(gs: seq<Group>, r: Reference)
    ensures Refs(Drop(gs, r)) == Refs(gs) - {r} && Dirs(Drop(gs, r)) == Dirs(gs)
    decreases gs, 1
  {
    if gs != [] {
      var n := |gs| - 1;
      DropRemoves(gs[..n], r);
      DropFromRemoves(gs[n], r);
      AppendGroup(Drop(gs[..n], r), DropFrom(gs[n], r));
      assert Dirs(gs) == Dirs(gs[..n]) + GroupDirs(gs[n]);
    }
  }

  lemma {:induction false} DropFromRemoves(g: Group, r: Reference)
    ensures GroupRefs(DropFrom(g, r)) == GroupRefs(g) - {r} && GroupDirs(DropFrom(g, r)) == GroupDirs(g)
    decreases g, 0
  {
    DropRemoves(g.groups, r);
  }

  lemma {:induction false} DropKeepsRoots(gs: seq<Group>, r: Reference)
    ensures |Drop(gs, r)| == |gs| && forall k :: 0 <= k < |gs| ==> Drop(gs, r)[k].path == gs[k].path
    decreases |gs|
  {
    if gs != [] {
      DropKeepsRoots(gs[..|gs| - 1], r);
    }
  }
}
