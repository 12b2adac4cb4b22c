/** Synchronization converges in one run and counts honestly. */
module ProjectLaws {
  import opened ProjectValues
  import opened Wrappers

  ghost predicate OneReference(p: Project) {
    forall r, r' :: r in p.references && r' in p.references && r.path == r'.path ==> r == r'
  }

  /** Each file of a target is in the phase that its extension chooses. */
  predicate InPhase(t: Target) {
    && (forall p <- t.sources :: PhaseOf(p) == Sources)
    && (forall p <- t.resources :: PhaseOf(p) == Resources)
    && (forall p <- t.headers :: PhaseOf(p) == NoPhase)
  }

  /** One reference per path, and every target file in its phase. */
  ghost predicate Proper(p: Project) {
    OneReference(p) && forall k :: 0 <= k < |p.targets| ==> InPhase(p.targets[k])
  }

  // ----- what is left of the groups

  /** The files of the project left by the syncer are those it gave to the targets. */
  lemma SurvivingFiles(p: Project, rules: Rules, disk: Disk)
    requires OneReference(p)
    ensures ProjectFiles(SyncedProject(p, rules, disk).references, rules, {}) == RemainingFiles(p, rules, disk)
  {
    var gone, added := ToRemove(p, disk), WithAdded(p, disk);
    var p' := SyncedProject(p, rules, disk);
    var a, b := ProjectFiles(p'.references, rules, {}), ProjectFiles(added.references, rules, gone);
    forall x | x in b ensures x in a {
      var r :| r in added.references && r.groupRelative && r.path !in gone && !rules.ignores(r.path) && r.path == x;
      assert r in p'.references;
    }
    forall x | x in a ensures x in b {
      var r :| r in p'.references && r.groupRelative && !rules.ignores(r.path) && r.path == x;
      assert r in added.references;
    }
  }

  lemma GroupsSettled(p: Project, rules: Rules, disk: Disk)
    ensures var p' := SyncedProject(p, rules, disk);
      ToAdd(p', disk) == {} && ToRemove(p', disk) == {}
  {
    var p' := SyncedProject(p, rules, disk);
    forall x | x in disk.found ensures x in GroupPaths(p') {
      if x in GroupPaths(p) {
        var r :| r in p.references && r.inGroups && r.path == x;
        assert r in p'.references;
      } else {
        assert Reference(x, true, true) in p'.references;
      }
    }
  }

  lemma AddNothing(p: Project, disk: Disk)
    requires ToAdd(p, disk) == {}
    ensures WithAdded(p, disk) == p
  {
    assert AddedReferences({}) == {};
    assert p.references + {} == p.references;
  }

  /** A second run gives the targets the same files to match. */
  lemma SameFiles(p: Project, rules: Rules, disk: Disk)
    requires OneReference(p)
    ensures RemainingFiles(SyncedProject(p, rules, disk), rules, disk) == RemainingFiles(p, rules, disk)
  {
    SurvivingFiles(p, rules, disk);
    GroupsSettled(p, rules, disk);
    AddNothing(SyncedProject(p, rules, disk), disk);
  }

  // ----- when a run settles a target

  /** An unwanted file that is in a phase other than the one its extension chooses. */
  predicate Stray(t: Target, wanted: set<Path>, p: Path) {
    && p !in wanted
    && match PhaseOf(p)
       case Sources => p in t.resources + t.headers
       case Resources => p in t.sources + t.headers
       case NoPhase => false
  }

  /** No stray file is left in a target once the references to `removed` are gone. */
  ghost predicate Tidy(rules: Rules, t: Target, files: set<Path>, removed: set<Path>) {
    Synced(rules, t) ==> forall x <- Members(t) - removed :: !Stray(t, Wanted(files, rules.defs[t.name]), x)
  }

  ghost predicate AllTidy(p: Project, rules: Rules, disk: Disk) {
    forall k :: 0 <= k < |p.targets| ==> Tidy(rules, p.targets[k], RemainingFiles(p, rules, disk), ToRemove(p, disk))
  }

  lemma InPhaseIsTidy(rules: Rules, t: Target, files: set<Path>, removed: set<Path>)
    requires InPhase(t)
    ensures Tidy(rules, t, files, removed)
  {
    if Synced(rules, t) {
      forall x | x in Members(t) - removed ensures !Stray(t, Wanted(files, rules.defs[t.name]), x) {
      }
    }
  }

  lemma ProperIsTidy(p: Project, rules: Rules, disk: Disk)
    requires Proper(p)
    ensures AllTidy(p, rules, disk)
  {
    forall k | 0 <= k < |p.targets|
      ensures Tidy(rules, p.targets[k], RemainingFiles(p, rules, disk), ToRemove(p, disk))
    {
      InPhaseIsTidy(rules, p.targets[k], RemainingFiles(p, rules, disk), ToRemove(p, disk));
    }
  }

  lemma NoChanges(t: Target, wanted: set<Path>)
    ensures TargetChanges(t, wanted) == 0 <==> forall p <- wanted + Members(t) :: !Changed(t, wanted, p)
  {
    var changed := set p <- wanted + Members(t) | Changed(t, wanted, p);
    assert changed == {} <==> forall p <- wanted + Members(t) :: p !in changed;
  }

  /** The target that a run leaves. */
  function LeftTarget(t: Target, wanted: set<Path>, removed: set<Path>): Target {
    Without(SyncedTarget(t, wanted, wanted + Members(t)), removed)
  }

  /** A file is out of place in the target that is left exactly when it was a stray
      file there and its reference stays. */
  lemma LeftOutOfPlace(t: Target, wanted: set<Path>, removed: set<Path>, x: Path)
    requires wanted !! removed
    ensures Changed(LeftTarget(t, wanted, removed), wanted, x) <==> x in Members(t) - removed && Stray(t, wanted, x)
  {
    if x in Members(t) {
      assert x in wanted + Members(t);
    }
  }

  lemma SyncedTargetSettles(t: Target, wanted: set<Path>, removed: set<Path>)
    requires wanted !! removed
    ensures TargetChanges(LeftTarget(t, wanted, removed), wanted) == 0
            <==> forall x <- Members(t) - removed :: !Stray(t, wanted, x)
  {
    var t' := LeftTarget(t, wanted, removed);
    NoChanges(t', wanted);
    forall x ensures Changed(t', wanted, x) <==> x in Members(t) - removed && Stray(t, wanted, x) {
      LeftOutOfPlace(t, wanted, removed, x);
    }
  }

  lemma TargetSettlesIff(rules: Rules, t: Target, files: set<Path>, removed: set<Path>)
    requires files !! removed
    ensures var t' := Without(SyncTarget(rules, t, files), removed);
      TargetChanges(t', WantedFor(rules, t', files)) == 0 <==> Tidy(rules, t, files, removed)
  {
    var t' := Without(SyncTarget(rules, t, files), removed);
    if Synced(rules, t) {
      SyncedTargetSettles(t, Wanted(files, rules.defs[t.name]), removed);
    } else {
      NoChanges(t', Members(t'));
    }
  }

  // ----- a run settles the project

  lemma {:induction false} NoTargetChanges(rules: Rules, ts: seq<Target>, files: set<Path>)
    ensures AllTargetChanges(rules, ts, files) == 0
            <==> forall k :: 0 <= k < |ts| ==> TargetChanges(ts[k], WantedFor(rules, ts[k], files)) == 0
  {
    if ts != [] {
      var n := |ts| - 1;
      NoTargetChanges(rules, ts[..n], files);
      assert forall k :: 0 <= k < n ==> ts[..n][k] == ts[k];
    }
  }

  /** Once a run has gone through, the next one counts nothing exactly when no stray file is left. */
  lemma SettledCountIsZeroIff(p: Project, rules: Rules, disk: Disk)
    requires OneReference(p)
    ensures SyncChanges(SyncedProject(p, rules, disk), rules, disk) == 0 <==> AllTidy(p, rules, disk)
  {
    var p', files := SyncedProject(p, rules, disk), RemainingFiles(p, rules, disk);
    SameFiles(p, rules, disk);
    GroupsSettled(p, rules, disk);
    NoTargetChanges(rules, p'.targets, files);
    forall k | 0 <= k < |p.targets|
      ensures TargetChanges(p'.targets[k], WantedFor(rules, p'.targets[k], files)) == 0
              <==> Tidy(rules, p.targets[k], files, ToRemove(p, disk))
    {
      TargetSettlesIff(rules, p.targets[k], files, ToRemove(p, disk));
    }
  }

  lemma WithoutNothing(t: Target)
    ensures Without(t, {}) == t
  {
    assert t.sources - {} == t.sources && t.resources - {} == t.resources && t.headers - {} == t.headers;
  }

  lemma RemoveNothing(p: Project)
    ensures Removed(p, {}) == p
  {
    forall k | 0 <= k < |p.targets| ensures AllWithout(p.targets, {})[k] == p.targets[k] {
      WithoutNothing(p.targets[k]);
    }
    assert Surviving(p.references, {}) == p.references;
  }

  lemma UnchangedTarget(t: Target, wanted: set<Path>)
    requires TargetChanges(t, wanted) == 0
    ensures SyncedTarget(t, wanted, wanted + Members(t)) == t
  {
    NoChanges(t, wanted);
  }

  lemma UnchangedTargets(rules: Rules, ts: seq<Target>, files: set<Path>)
    requires AllTargetChanges(rules, ts, files) == 0
    ensures SyncTargets(rules, ts, files) == ts
  {
    NoTargetChanges(rules, ts, files);
    forall k | 0 <= k < |ts| ensures SyncTargets(rules, ts, files)[k] == ts[k] {
      UnchangedTarget(ts[k], WantedFor(rules, ts[k], files));
    }
  }

  /** A run that counts nothing changes nothing, whatever the project. */
  lemma ZeroIsUnchanged(p: Project, rules: Rules, disk: Disk)
    requires SyncChanges(p, rules, disk) == 0
    ensures SyncedProject(p, rules, disk) == p
  {
    assert ToAdd(p, disk) == {} && ToRemove(p, disk) == {};
    AddNothing(p, disk);
    UnchangedTargets(rules, p.targets, RemainingFiles(p, rules, disk));
    RemoveNothing(p);
    assert Project(p.references, p.targets) == p;
  }

  /** A run that has gone through leaves nothing to add, so the next one goes through too. */
  lemma SettledCompletes(p: Project, rules: Rules, disk: Disk)
    ensures Completes(SyncedProject(p, rules, disk), rules, disk)
  {
    GroupsSettled(p, rules, disk);
  }

  /** A run that raises raises again, also on what it had added before. */
  lemma RaisesAgain(p: Project, q: Project, rules: Rules, disk: Disk)
    requires !Completes(p, rules, disk)
    requires forall r <- q.references :: r in p.references || HasRoot(rules.roots, r.path)
    ensures !Completes(q, rules, disk)
  {
    var x :| x in ToAdd(p, disk) && !HasRoot(rules.roots, x);
    assert x in ToAdd(q, disk);
  }

  lemma SecondCountIsZeroIff(p: Project, rules: Rules, disk: Disk)
    requires OneReference(p)
    ensures var run := SyncRun(SavedProject(p, rules, disk), rules, disk);
      run.Some? && run.value.1 == 0 <==> Completes(p, rules, disk) && AllTidy(p, rules, disk)
  {
    SettledCountIsZeroIff(p, rules, disk);
    SettledCompletes(p, rules, disk);
  }

  /** One run reaches a fixed point, at which a second run changes nothing and returns 0,
      exactly when it finds a root group for every file to add and leaves no stray file. */
  lemma SecondSyncIsIdleIff(p: Project, rules: Rules, disk: Disk)
    requires OneReference(p)
    ensures var p' := SavedProject(p, rules, disk);
      SyncRun(p', rules, disk) == Some((p', 0)) <==> Completes(p, rules, disk) && AllTidy(p, rules, disk)
  {
    var p' := SavedProject(p, rules, disk);
    SecondCountIsZeroIff(p, rules, disk);
    if SyncRun(p', rules, disk).Some? && SyncRun(p', rules, disk).value.1 == 0 {
      ZeroIsUnchanged(p', rules, disk);
    }
  }

  /** When every target file is in its phase, there are no stray files. */
  lemma SecondSyncIsIdle(p: Project, rules: Rules, disk: Disk)
    requires Proper(p)
    ensures var p' := SavedProject(p, rules, disk);
      SyncRun(p', rules, disk) == Some((p', 0)) <==> Completes(p, rules, disk)
  {
    ProperIsTidy(p, rules, disk);
    SecondSyncIsIdleIff(p, rules, disk);
  }

  /** A run returns 0 exactly when it goes through, leaves the project unchanged and finds
      no stray file in it. */
  lemma CountIsZeroIff(p: Project, rules: Rules, disk: Disk)
    requires OneReference(p)
    ensures var run := SyncRun(p, rules, disk);
      run.Some? && run.value.1 == 0 <==> run.Some? && run.value.0 == p && AllTidy(p, rules, disk)
  {
    SettledCountIsZeroIff(p, rules, disk);
    if SyncChanges(p, rules, disk) == 0 {
      ZeroIsUnchanged(p, rules, disk);
    }
  }

  lemma CountIsZeroIffUnchanged(p: Project, rules: Rules, disk: Disk)
    requires Proper(p)
    ensures var run := SyncRun(p, rules, disk);
      run.Some? ==> (run.value.1 == 0 <==> run.value.0 == p)
  {
    ProperIsTidy(p, rules, disk);
    CountIsZeroIff(p, rules, disk);
  }

  // ----- what a target holds after a run

  /** The members of a target that belong in a phase the syncer manages. */
  function Placed(paths: set<Path>): set<Path> {
    set x <- paths | PhaseOf(x) != NoPhase
  }

  predicate HoldsMatching(p: Project, k: nat, rules: Rules, def: TargetDef)
    requires k < |p.targets|
  {
    Placed(Members(p.targets[k])) == Placed(Wanted(ProjectFiles(p.references, rules, {}), def))
  }

  lemma HoldsWantedIff(t: Target, wanted: set<Path>)
    ensures Placed(Members(t)) == Placed(wanted) <==> TargetChanges(t, wanted) == 0
  {
    NoChanges(t, wanted);
    if Placed(Members(t)) == Placed(wanted) {
      forall x | x in wanted + Members(t) ensures !Changed(t, wanted, x) {
        assert x in Placed(Members(t)) <==> x in Placed(wanted);
      }
    }
  }

  /** A run goes through and a synced target then holds, outside headers, exactly the
      matching files that are left in the project, if and only if every file to add
      has a root group and no stray file is left in the target. */
  lemma TargetHoldsMatchingIff(p: Project, rules: Rules, disk: Disk, k: nat)
    requires OneReference(p) && k < |p.targets| && Synced(rules, p.targets[k])
    ensures var run, t := SyncRun(p, rules, disk), p.targets[k];
      run.Some? && HoldsMatching(run.value.0, k, rules, rules.defs[t.name])
      <==> Completes(p, rules, disk) && Tidy(rules, t, RemainingFiles(p, rules, disk), ToRemove(p, disk))
  {
    var files, t := RemainingFiles(p, rules, disk), p.targets[k];
    SurvivingFiles(p, rules, disk);
    TargetSettlesIff(rules, t, files, ToRemove(p, disk));
    HoldsWantedIff(Without(SyncTarget(rules, t, files), ToRemove(p, disk)), Wanted(files, rules.defs[t.name]));
  }

  /** So it does when every target file is in its phase. */
  lemma TargetsHoldMatchingFiles(p: Project, rules: Rules, disk: Disk, k: nat)
    requires Proper(p) && k < |p.targets| && Synced(rules, p.targets[k])
    ensures var run, t := SyncRun(p, rules, disk), p.targets[k];
      run.Some? ==>
        var p' := run.value.0;
        Managed(p'.targets[k]) == Placed(Wanted(ProjectFiles(p'.references, rules, {}), rules.defs[t.name]))
  {
    SurvivingFiles(p, rules, disk);
    SyncedTargetMembers(p.targets[k], WantedFor(rules, p.targets[k], RemainingFiles(p, rules, disk)));
  }

  /** With one reference per path also for the files that are about to be added, a run
      keeps that, and it keeps every target file in its phase. */
  lemma SyncKeepsProper(p: Project, rules: Rules, disk: Disk)
    requires Proper(p) && forall r <- p.references :: r.path in disk.found ==> r.inGroups
    ensures Proper(SavedProject(p, rules, disk))
  {
    var p' := SyncedProject(p, rules, disk);
    forall k | 0 <= k < |p'.targets| ensures InPhase(p'.targets[k]) {
      SyncedTargetMembers(p.targets[k], WantedFor(rules, p.targets[k], RemainingFiles(p, rules, disk)));
    }
  }

  lemma SyncedTargetMembers(t: Target, wanted: set<Path>)
    requires InPhase(t)
    ensures var t' := SyncedTarget(t, wanted, wanted + Members(t));
      && InPhase(t') && t'.headers == t.headers && t'.name == t.name
      && Managed(t') == set p <- wanted | PhaseOf(p) != NoPhase
  {
    var t' := SyncedTarget(t, wanted, wanted + Members(t));
    forall p ensures p in Managed(t') <==> p in wanted && PhaseOf(p) != NoPhase {
    }
  }

  /** A source file in the resources phase that no definition wants is counted as removed
      by every run and never leaves. */
  lemma StrayFileStays(rules: Rules)
    requires "app" in rules.defs && rules.defs["app"].syncSources && !rules.defs["app"].Matches("a.c")
    ensures
      var p, disk := Project({Reference("a.c", true, true)}, [Target("app", {}, {"a.c"}, {})]), Disk({"a.c"}, {"a.c"});
      && OneReference(p) && Completes(p, rules, disk)
      && SyncChanges(SyncedProject(p, rules, disk), rules, disk) > 0
  {
    var t, x, disk := Target("app", {}, {"a.c"}, {}), "a.c", Disk({"a.c"}, {"a.c"});
    var p := Project({Reference(x, true, true)}, [t]);
    assert Reference(x, true, true) in p.references;
    assert x[1..] == ".c" && Named(x, 1) && HasExtension(x, ".c");
    assert Stray(t, Wanted(RemainingFiles(p, rules, disk), rules.defs["app"]), x);
    assert x in Members(p.targets[0]) - ToRemove(p, disk);
    assert !Tidy(rules, p.targets[0], RemainingFiles(p, rules, disk), ToRemove(p, disk));
    SettledCountIsZeroIff(p, rules, disk);
  }

  // ----- the count is the number of differences

  function TargetDifferences(t: Target, t': Target): nat {
    |Managed(t) - Managed(t')| + |Managed(t') - Managed(t)|
  }

  function AllTargetDifferences(rules: Rules, ts: seq<Target>, ts': seq<Target>): nat
    requires |ts| == |ts'|
  {
    if ts == [] then 0
    else
      var n := |ts| - 1;
      AllTargetDifferences(rules, ts[..n], ts'[..n])
        + if Synced(rules, ts[n]) then TargetDifferences(ts[n], ts'[n]) else 0
  }

  lemma {:induction false} AddedSize(paths: set<Path>)
    ensures |AddedReferences(paths)| == |paths|
    decreases paths
  {
    if paths != {} {
      var x :| x in paths;
      AddedSize(paths - {x});
      assert AddedReferences(paths) == AddedReferences(paths - {x}) + {Reference(x, true, true)};
    }
  }

  lemma {:induction false} PathsSize(rs: set<Reference>)
    requires forall r, r' :: r in rs && r' in rs && r.path == r'.path ==> r == r'
    ensures |set r <- rs :: r.path| == |rs|
    decreases rs
  {
    if rs != {} {
      var x :| x in rs;
      PathsSize(rs - {x});
      assert (set r <- rs :: r.path) == (set r <- rs - {x} :: r.path) + {x.path};
    }
  }

  /** The references that the syncer drops. */
  function Dropped(p: Project, disk: Disk): set<Reference> {
    set r <- p.references | r.inGroups && r.path in ToRemove(p, disk)
  }

  lemma DroppedSize(p: Project, disk: Disk)
    requires OneReference(p)
    ensures |Dropped(p, disk)| == |ToRemove(p, disk)|
  {
    var lost, gone := Dropped(p, disk), ToRemove(p, disk);
    PathsSize(lost);
    forall x | x in gone ensures x in set r <- lost :: r.path {
      var r :| r in p.references && r.inGroups && r.path == x;
      assert r in lost;
    }
    assert (set r <- lost :: r.path) == gone;
  }

  lemma ReferencesAdded(p: Project, rules: Rules, disk: Disk)
    ensures SyncedProject(p, rules, disk).references - p.references == AddedReferences(ToAdd(p, disk))
  {
    var p' := SyncedProject(p, rules, disk);
    forall r | r in AddedReferences(ToAdd(p, disk)) ensures r in p'.references && r !in p.references {
      assert r.path in ToAdd(p, disk) && r.inGroups;
    }
  }

  lemma ReferencesDropped(p: Project, rules: Rules, disk: Disk)
    ensures p.references - SyncedProject(p, rules, disk).references == Dropped(p, disk)
  {
    assert SyncedProject(p, rules, disk).references == Surviving(WithAdded(p, disk).references, ToRemove(p, disk));
  }

  lemma ReferenceDifferences(p: Project, rules: Rules, disk: Disk)
    requires OneReference(p)
    ensures var p' := SyncedProject(p, rules, disk);
      |p'.references - p.references| == |ToAdd(p, disk)| && |p.references - p'.references| == |ToRemove(p, disk)|
  {
    ReferencesAdded(p, rules, disk);
    AddedSize(ToAdd(p, disk));
    ReferencesDropped(p, rules, disk);
    DroppedSize(p, disk);
  }

  lemma TargetDifferencesCounted(t: Target, wanted: set<Path>, removed: set<Path>)
    requires InPhase(t) && wanted !! removed
    ensures TargetDifferences(t, Without(SyncedTarget(t, wanted, wanted + Members(t)), removed)) ==
      TargetChanges(t, wanted)
  {
    var s := SyncedTarget(t, wanted, wanted + Members(t));
    SyncedTargetMembers(t, wanted);
    WithoutKeeps(s, removed);
    ChangedPaths(t, wanted, Managed(s));
    SizeOfBoth(Managed(t), Managed(s));
  }

  lemma WithoutKeeps(t: Target, removed: set<Path>)
    requires Managed(t) !! removed
    ensures Managed(Without(t, removed)) == Managed(t)
  {
  }

  lemma SizeOfBoth(a: set<Path>, b: set<Path>)
    ensures |(a - b) + (b - a)| == |a - b| + |b - a|
  {
    assert (a - b) !! (b - a);
  }

  lemma ChangedPaths(t: Target, wanted: set<Path>, after: set<Path>)
    requires InPhase(t) && after == set p <- wanted | PhaseOf(p) != NoPhase
    ensures (set p <- wanted + Members(t) | Changed(t, wanted, p)) == (Managed(t) - after) + (after - Managed(t))
  {
    forall p ensures p in Managed(t) <==> p in Members(t) && PhaseOf(p) != NoPhase {
    }
  }

  lemma {:induction false} AllTargetDifferencesCounted(
      rules: Rules, ts: seq<Target>, files: set<Path>, removed: set<Path>)
    requires files !! removed && forall k :: 0 <= k < |ts| ==> InPhase(ts[k])
    ensures AllTargetDifferences(rules, ts, AllWithout(SyncTargets(rules, ts, files), removed)) ==
      AllTargetChanges(rules, ts, files)
  {
    if ts != [] {
      var n := |ts| - 1;
      var ts' := AllWithout(SyncTargets(rules, ts, files), removed);
      AllTargetDifferencesCounted(rules, ts[..n], files, removed);
      assert ts'[..n] == AllWithout(SyncTargets(rules, ts[..n], files), removed);
      var wanted := WantedFor(rules, ts[n], files);
      if Synced(rules, ts[n]) {
        TargetDifferencesCounted(ts[n], wanted, removed);
      } else {
        assert (set p <- wanted + Members(ts[n]) | Changed(ts[n], wanted, p)) == {};
      }
    }
  }

  /** What the count leaves out: the removed files that were headers of a target or that
      a target without a definition held. */
  lemma UncountedRemovals(p: Project, rules: Rules, disk: Disk, k: nat)
    requires k < |p.targets|
    ensures var run := SyncRun(p, rules, disk);
      run.Some? ==>
        var t, t', gone := p.targets[k], run.value.0.targets[k], ToRemove(p, disk);
        t'.headers == t.headers - gone && (!Synced(rules, t) ==> t' == Without(t, gone))
  {
    if !Synced(rules, p.targets[k]) {
      NoChanges(p.targets[k], Members(p.targets[k]));
      UnchangedTarget(p.targets[k], Members(p.targets[k]));
    }
  }

  /** The returned count is the number of references, and of files in the managed phases
      of the synced targets, by which the project before and after the run differ. */
  lemma CountIsHonest(p: Project, rules: Rules, disk: Disk)
    requires Proper(p)
    ensures var run := SyncRun(p, rules, disk);
      run.Some? ==>
        var (p', n) := run.value;
        n == |p'.references - p.references| + |p.references - p'.references|
             + AllTargetDifferences(rules, p.targets, p'.targets)
  {
    ReferenceDifferences(p, rules, disk);
    AllTargetDifferencesCounted(
      rules, p.targets, RemainingFiles(p, rules, disk), ToRemove(p, disk));
  }
}
