/** The diffs of the syncer: a hash of entries, one for each path on either side. */
module ProjectDiff {
  import opened Wrappers
  import opened ProjectValues

  /** How a path is referenced: in the source of a diff, in its target, and by which
      reference of the groups. */
  datatype DiffEntry = DiffEntry(inSource: bool, inTarget: bool, ref: Option<Reference>) {
    predicate Unchanged() {
      inSource && inTarget
    }

    predicate ToAdd() {
      inSource && !inTarget
    }

    predicate ToRemove() {
      !inSource && inTarget
    }
  }

  ghost function SourceOf(entries: map<Path, DiffEntry>): set<Path> {
    set p <- entries | entries[p].inSource
  }

  ghost function TargetOf(entries: map<Path, DiffEntry>): set<Path> {
    set p <- entries | entries[p].inTarget
  }

  /** The entry of each path of the groups remembers a reference of the groups to it. */
  ghost predicate Remembers(entries: map<Path, DiffEntry>, references: set<Reference>) {
    forall p <- TargetOf(entries) ::
      && entries[p].ref.Some? && entries[p].ref.value in references
      && entries[p].ref.value.inGroups && entries[p].ref.value.path == p
  }

  /** The references that the entries of the given paths remember. */
  ghost function Remembered(entries: map<Path, DiffEntry>, references: set<Reference>, paths: set<Path>): set<Reference>
    requires Remembers(entries, references) && paths <= TargetOf(entries)
  {
    set p <- paths :: entries[p].ref.value
  }

  class Diff {
    var entries: map<Path, DiffEntry>

    ghost function Source(): set<Path>
      reads this
    {
      SourceOf(entries)
    }

    ghost function Target(): set<Path>
      reads this
    {
      TargetOf(entries)
    }

    constructor ()
      ensures entries == map[]
    {
      entries := map[];
    }

    /** Finds or makes the entry of the path. */
    method Track(path: Path) returns (entry: DiffEntry)
      modifies this
      ensures entries == old(entries)[path := entry]
      ensures entry == if path in old(entries) then old(entries[path]) else DiffEntry(false, false, None)
    {
      if path !in entries {
        entries := entries[path := DiffEntry(false, false, None)];
      }
      entry := entries[path];
      assert entries == old(entries)[path := entry];
    }

    method MarkSource(path: Path)
      modifies this
      ensures Source() == old(Source()) + {path} && Target() == old(Target())
      ensures entries.Keys == old(entries.Keys) + {path}
      ensures forall p <- old(entries) :: entries[p].ref == old(entries[p].ref)
    {
      var entry := Track(path);
      entries := entries[path := entry.(inSource := true)];
    }

    method MarkTarget(path: Path, ref: Option<Reference>)
      modifies this
      ensures Source() == old(Source()) && Target() == old(Target()) + {path}
      ensures entries.Keys == old(entries.Keys) + {path} && entries[path].ref == ref
      ensures forall p <- old(entries) :: p != path ==> entries[p].ref == old(entries[p].ref)
    {
      var entry := Track(path);
      entries := entries[path := entry.(inTarget := true, ref := ref)];
    }

    method ToAdd() returns (paths: set<Path>)
      ensures paths == Source() - Target()
    {
      paths := set p <- entries | entries[p].ToAdd();
    }

    method ToRemove() returns (paths: set<Path>)
      ensures paths == Target() - Source()
    {
      paths := set p <- entries | entries[p].ToRemove();
    }

    /** The number of entries to be added or removed. */
    method Changes() returns (n: nat)
      ensures n == |Source() - Target()| + |Target() - Source()|
    {
      var changed := set p <- entries | entries[p].ToAdd() || entries[p].ToRemove();
      n := |changed|;
      assert changed == (Source() - Target()) + (Target() - Source());
      assert (Source() - Target()) !! (Target() - Source());
    }
  }
}
