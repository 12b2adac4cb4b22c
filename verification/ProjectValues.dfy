/** What the project syncer makes of a project, on values.

    A reference is known by its path, whether it is in the folder groups that the
    syncer manages, and whether it is relative to its group.  A target lists the
    paths in each of its phases.  Removing a reference drops it from all phases. */
module ProjectValues {
  import opened Wrappers

  type Path = string

  datatype Reference = Reference(path: Path, inGroups: bool, groupRelative: bool)

  datatype Target = Target(name: string, sources: set<Path>, resources: set<Path>, headers: set<Path>)

  datatype Project = Project(references: set<Reference>, targets: seq<Target>)

  /** The filesystem: what the directory lister finds below the groups with ignored
      entries left out, and what is a file at all. */
  datatype Disk = Disk(found: set<Path>, files: set<Path>)

  datatype TargetDef = TargetDef(syncSources: bool, includes: Path -> bool, excludes: Path -> bool) {
    predicate Matches(p: Path) {
      includes(p) && !excludes(p)
    }
  }

  /** The directories of the root groups, the ignored paths and the target definitions. */
  datatype Rules = Rules(roots: seq<Path>, ignores: Path -> bool, defs: map<string, TargetDef>)

  datatype Phase = Sources | Resources | NoPhase

  /** The last component of p[..n] has something other than leading dots. */
  predicate Named(p: Path, n: nat)
    requires n <= |p|
  {
    n > 0 && p[n - 1] != '/' && (p[n - 1] != '.' || Named(p, n - 1))
  }

  predicate HasExtension(p: Path, ext: string) {
    |p| > |ext| && p[|p| - |ext|..] == ext && Named(p, |p| - |ext|)
  }

  /** `find_phase`: headers belong to no phase. */
  function PhaseOf(p: Path): Phase {
    if HasExtension(p, ".c") || HasExtension(p, ".cc") || HasExtension(p, ".m") || HasExtension(p, ".mm") then Sources
    else if HasExtension(p, ".swift") then Sources
    else if HasExtension(p, ".h") then NoPhase
    else Resources
  }

  predicate Synced(rules: Rules, t: Target) {
    t.name in rules.defs && rules.defs[t.name].syncSources
  }

  // ----- the group diff

  function GroupPaths(p: Project): set<Path> {
    set r <- p.references | r.inGroups :: r.path
  }

  function ToAdd(p: Project, disk: Disk): set<Path> {
    disk.found - GroupPaths(p)
  }

  function ToRemove(p: Project, disk: Disk): set<Path> {
    GroupPaths(p) - disk.found - disk.files
  }

  function AddedReferences(paths: set<Path>): set<Reference> {
    set x <- paths :: Reference(x, true, true)
  }

  function WithAdded(p: Project, disk: Disk): Project {
    p.(references := p.references + AddedReferences(ToAdd(p, disk)))
  }

  /** `find_project_files_after_removal` */
  function ProjectFiles(references: set<Reference>, rules: Rules, removed: set<Path>): set<Path> {
    set r <- references | r.groupRelative && r.path !in removed && !rules.ignores(r.path) :: r.path
  }

  // ----- where a file is added

  function Slashed(dir: Path): Path {
    if dir != [] && dir[|dir| - 1] == '/' then dir else dir + "/"
  }

  /** The path relative to the directory does not start with two dots. */
  predicate Contains(dir: Path, p: Path) {
    p == dir || (Slashed(dir) <= p && !(".." <= p[|Slashed(dir)|..]))
  }

  /** `find_group_containing` finds a root group for the path, and does not raise. */
  predicate HasRoot(roots: seq<Path>, p: Path) {
    exists k :: 0 <= k < |roots| && Contains(roots[k], p)
  }

  /** All files that are missing from the groups can be added to them. */
  predicate Completes(p: Project, rules: Rules, disk: Disk) {
    forall x <- ToAdd(p, disk) :: HasRoot(rules.roots, x)
  }

  // ----- the target diff

  function Members(t: Target): set<Path> {
    t.sources + t.resources + t.headers
  }

  /** Members in the phases that the syncer manages. */
  function Managed(t: Target): set<Path> {
    t.sources + t.resources
  }

  function Wanted(files: set<Path>, def: TargetDef): set<Path> {
    set p <- files | def.Matches(p)
  }

  predicate Changed(t: Target, wanted: set<Path>, p: Path) {
    (p in wanted) != (p in Members(t)) && PhaseOf(p) != NoPhase
  }

  /** The target after the entries for the paths of `done` have been synced. */
  function SyncedTarget(t: Target, wanted: set<Path>, done: set<Path>): Target {
    var have := Members(t);
    t.(sources := t.sources + (set p <- done | PhaseOf(p) == Sources && p in wanted && p !in have)
                  - (set p <- done | PhaseOf(p) == Sources && p !in wanted && p in have),
       resources := t.resources + (set p <- done | PhaseOf(p) == Resources && p in wanted && p !in have)
                    - (set p <- done | PhaseOf(p) == Resources && p !in wanted && p in have))
  }

  function TargetChanges(t: Target, wanted: set<Path>): nat {
    |set p <- wanted + Members(t) | Changed(t, wanted, p)|
  }

  /** The wanted paths of a target: none other than its members when it is not synced. */
  function WantedFor(rules: Rules, t: Target, files: set<Path>): set<Path> {
    if Synced(rules, t) then Wanted(files, rules.defs[t.name]) else Members(t)
  }

  function SyncTarget(rules: Rules, t: Target, files: set<Path>): Target {
    var wanted := WantedFor(rules, t, files);
    SyncedTarget(t, wanted, wanted + Members(t))
  }

  function SyncTargets(rules: Rules, ts: seq<Target>, files: set<Path>): (r: seq<Target>)
    ensures |r| == |ts| && forall k :: 0 <= k < |ts| ==> r[k] == SyncTarget(rules, ts[k], files)
  {
    seq(|ts|, k requires 0 <= k < |ts| => SyncTarget(rules, ts[k], files))
  }

  function AllTargetChanges(rules: Rules, ts: seq<Target>, files: set<Path>): nat {
    if ts == [] then 0
    else
      var n := |ts| - 1;
      AllTargetChanges(rules, ts[..n], files) + TargetChanges(ts[n], WantedFor(rules, ts[n], files))
  }

  // ----- removal

  function Without(t: Target, removed: set<Path>): Target {
    t.(sources := t.sources - removed, resources := t.resources - removed, headers := t.headers - removed)
  }

  function AllWithout(ts: seq<Target>, removed: set<Path>): (r: seq<Target>)
    ensures |r| == |ts| && forall k :: 0 <= k < |ts| ==> r[k] == Without(ts[k], removed)
  {
    seq(|ts|, k requires 0 <= k < |ts| => Without(ts[k], removed))
  }

  function Surviving(references: set<Reference>, removed: set<Path>): set<Reference> {
    set r <- references | !(r.inGroups && r.path in removed)
  }

  function Removed(p: Project, removed: set<Path>): Project {
    Project(Surviving(p.references, removed), AllWithout(p.targets, removed))
  }

  /** The files that the targets are matched against. */
  function RemainingFiles(p: Project, rules: Rules, disk: Disk): set<Path> {
    ProjectFiles(WithAdded(p, disk).references, rules, ToRemove(p, disk))
  }

  function SyncedProject(p: Project, rules: Rules, disk: Disk): Project {
    var synced := SyncTargets(rules, p.targets, RemainingFiles(p, rules, disk));
    Removed(Project(WithAdded(p, disk).references, synced), ToRemove(p, disk))
  }

  function SyncChanges(p: Project, rules: Rules, disk: Disk): nat {
    |ToAdd(p, disk)| + |ToRemove(p, disk)| + AllTargetChanges(rules, p.targets, RemainingFiles(p, rules, disk))
  }

  /** `sync`: the project it leaves and the number of changes it returns. */
  function Sync(p: Project, rules: Rules, disk: Disk): (Project, nat) {
    (SyncedProject(p, rules, disk), SyncChanges(p, rules, disk))
  }

  /** A run of `sync`, which raises when a file has no root group to be added to. */
  function SyncRun(p: Project, rules: Rules, disk: Disk): Option<(Project, nat)> {
    if Completes(p, rules, disk) then Some(Sync(p, rules, disk)) else None
  }

  /** The project as it is stored after a run; one that raises stores nothing. */
  function SavedProject(p: Project, rules: Rules, disk: Disk): Project {
    match SyncRun(p, rules, disk)
    case None => p
    case Some((p', _)) => p'
  }
}
