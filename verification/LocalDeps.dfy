/** `find_local_deps` of the pod lint script: a depth-first search over podspec files
    that may depend on each other in cycles.  One mutable set both keeps files
    from being processed twice and names the files to leave out. */
module LocalDeps {
  import opened Collections

  /** A podspec file: whether its source is binary, and the dependency names of the
      spec and of each of its subspecs. */
  datatype Podspec = Podspec(binary: bool, specs: seq<seq<string>>)

  /** The podspec files of one directory, by file name. */
  type Directory = map<string, Podspec>

  function FileName(pod: string): string {
    pod + ".podspec"
  }

  /** The pod of a dependency: the name without its subspec part. */
  function PodName(dependency: string): (pod: string)
    ensures '/' !in pod && pod <= dependency
    ensures pod == dependency || dependency[|pod|] == '/'
  {
    if dependency == [] || dependency[0] == '/' then [] else [dependency[0]] + PodName(dependency[1..])
  }

  ghost predicate DependsOn(specs: seq<seq<string>>, pod: string) {
    exists i, j :: 0 <= i < |specs| && 0 <= j < |specs[i]| && PodName(specs[i][j]) == pod
  }

  method AllDeps(specs: seq<seq<string>>) returns (result: seq<string>)
    ensures NoDuplicates(result)
    ensures forall pod :: pod in result <==> DependsOn(specs, pod)
  {
    result := [];
    for i := 0 to |specs|
      invariant NoDuplicates(result)
      invariant forall pod :: pod in result <==> DependsOn(specs[..i], pod)
    {
      ghost var before := result;
      var spec := specs[i];
      for j := 0 to |spec|
        invariant NoDuplicates(result)
        invariant forall pod :: pod in result <==> pod in before || exists k :: 0 <= k < j && PodName(spec[k]) == pod
      {
        var pod := PodName(spec[j]);
        if pod !in result {
          result := result + [pod];
        }
      }
      forall pod ensures pod in result <==> DependsOn(specs[..i + 1], pod) {
        DependsOnMore(specs, i, pod);
      }
    }
    assert specs[..|specs|] == specs;
  }

  lemma DependsOnMore(specs: seq<seq<string>>, i: nat, pod: string)
    requires i < |specs|
    ensures DependsOn(specs[..i + 1], pod) <==>
      DependsOn(specs[..i], pod) || exists k :: 0 <= k < |specs[i]| && PodName(specs[i][k]) == pod
  {
    var more, less := specs[..i + 1], specs[..i];
    if DependsOn(less, pod) {
      var a, b :| 0 <= a < |less| && 0 <= b < |less[a]| && PodName(less[a][b]) == pod;
      assert PodName(more[a][b]) == pod;
    }
    if k :| 0 <= k < |specs[i]| && PodName(specs[i][k]) == pod {
      assert PodName(more[i][k]) == pod;
    }
    if DependsOn(more, pod) {
      var a, b :| 0 <= a < |more| && 0 <= b < |more[a]| && PodName(more[a][b]) == pod;
      if a < i {
        assert PodName(less[a][b]) == pod;
      } else {
        assert PodName(specs[i][b]) == pod;
      }
    }
  }

  // ----- what is to be found

  /** File `f` depends on the local file `g`, whose source is not binary. */
  ghost predicate Edge(dir: Directory, f: string, g: string) {
    f in dir && g in dir && !dir[g].binary && exists pod :: pod + ".podspec" == g && DependsOn(dir[f].specs, pod)
  }

  /** A chain of such dependencies that enters no file of `avoid`. */
  ghost predicate Chain(dir: Directory, avoid: set<string>, p: seq<string>) {
    p != [] && forall k :: 0 < k < |p| ==> Edge(dir, p[k - 1], p[k]) && p[k] !in avoid
  }

  ghost predicate Reaches(dir: Directory, avoid: set<string>, f: string, g: string) {
    exists p :: Chain(dir, avoid, p) && p[0] == f && p[|p| - 1] == g
  }

  lemma ReachesStep(dir: Directory, avoid: set<string>, f: string, g: string)
    requires Edge(dir, f, g) && g !in avoid
    ensures Reaches(dir, avoid, f, g)
  {
    assert Chain(dir, avoid, [f, g]);
  }

  lemma ReachesThrough(dir: Directory, avoid: set<string>, more: set<string>, f: string, g: string, h: string)
    requires Edge(dir, f, g) && g !in avoid && avoid <= more && Reaches(dir, more, g, h)
    ensures Reaches(dir, avoid, f, h)
  {
    var p :| Chain(dir, more, p) && p[0] == g && p[|p| - 1] == h;
    var q := [f] + p;
    forall k | 0 < k < |q| ensures Edge(dir, q[k - 1], q[k]) && q[k] !in avoid {
      if k > 1 {
        assert Edge(dir, p[k - 2], p[k - 1]);
      }
    }
    assert Chain(dir, avoid, q);
  }

  /** A set that is closed under the dependencies outside `avoid` holds every chain from inside. */
  lemma {:induction false} ClosedHolds(dir: Directory, avoid: set<string>, closed: set<string>, p: seq<string>, k: nat)
    requires Chain(dir, avoid, p) && p[0] in closed && k < |p|
    requires forall f, g :: f in closed && Edge(dir, f, g) ==> g in closed || g in avoid
    ensures p[k] in closed
    decreases k
  {
    if k > 0 {
      ClosedHolds(dir, avoid, closed, p, k - 1);
    }
  }

  // ----- the search

  class SeenSet {
    var files: set<string>

    constructor (files: set<string>)
      ensures this.files == files
    {
      this.files := files;
    }
  }

  /** What the search has found below `root` so far: distinct files outside the ignored
      ones, each reachable, with all they depend on seen. */
  ghost predicate Searched(
      dir: Directory, ignored: set<string>, root: string, results: seq<string>, seen: set<string>)
  {
    && NoDuplicates(results) && root !in results
    && seen == ignored + {root} + (set f <- results)
    && (forall f <- results :: f !in ignored && Reaches(dir, ignored, root, f))
    && (forall f, g :: f in results && Edge(dir, f, g) ==> g in seen)
  }

  /** All that `root` depends on has been seen. */
  ghost predicate Explored(dir: Directory, root: string, seen: set<string>) {
    forall g :: Edge(dir, root, g) ==> g in seen
  }

  /** Results are the local, non-binary podspecs that `root` reaches through such
      podspecs without entering an ignored one, each once, and not `root` itself. */
  method FindLocalDeps(dir: Directory, root: string, seen: SeenSet) returns (results: seq<string>)
    requires root in dir
    modifies seen
    ensures NoDuplicates(results)
    ensures forall g :: g in results <==> g != root && g !in old(seen.files) && Reaches(dir, old(seen.files), root, g)
    ensures seen.files == old(seen.files) + {root} + set f <- results
    ensures Searched(dir, old(seen.files), root, results, seen.files) && Explored(dir, root, seen.files)
    decreases |dir.Keys - seen.files|, 2
  {
    ghost var ignored := seen.files;
    seen.files := seen.files + {root};
    results := VisitAll(dir, root, seen, ignored);
    ResultsAreReachable(dir, ignored, root, results, seen.files);
  }

  /** The loop over the dependencies of `root`. */
  method VisitAll(dir: Directory, root: string, seen: SeenSet, ghost ignored: set<string>)
      returns (results: seq<string>)
    requires root in dir && seen.files == ignored + {root}
    modifies seen
    ensures Searched(dir, ignored, root, results, seen.files) && Explored(dir, root, seen.files)
    decreases |dir.Keys - ignored|, 1
  {
    results := [];
    var deps := AllDeps(dir[root].specs);
    for i := 0 to |deps|
      invariant Searched(dir, ignored, root, results, seen.files)
      invariant forall k :: 0 <= k < i ==> Handled(dir, deps[k], seen.files)
    {
      results := Visit(dir, root, deps[i], results, seen, ignored);
    }
    RootClosed(dir, root, deps, seen.files);
  }

  predicate Handled(dir: Directory, pod: string, seen: set<string>) {
    FileName(pod) in dir && !dir[FileName(pod)].binary ==> FileName(pod) in seen
  }

  /** The loop body for one dependency. */
  method Visit(
      dir: Directory, root: string, pod: string, results: seq<string>, seen: SeenSet, ghost ignored: set<string>)
    returns (all: seq<string>)
    requires root in dir && DependsOn(dir[root].specs, pod)
    requires Searched(dir, ignored, root, results, seen.files)
    modifies seen
    ensures Searched(dir, ignored, root, all, seen.files)
    ensures old(seen.files) <= seen.files && Handled(dir, pod, seen.files)
    decreases |dir.Keys - ignored|, 0
  {
    all := results;
    var file := FileName(pod);
    if file in dir {
      if !dir[file].binary {
        if file !in seen.files {
          seen.files := seen.files + {file};
          Fewer(dir.Keys, ignored, seen.files, file);
          var more := FindLocalDeps(dir, file, seen);
          Extend(dir, ignored, root, results, old(seen.files), file, more, seen.files);
          all := all + [file] + more;
        }
      }
    }
  }

  lemma Extend(dir: Directory, ignored: set<string>, root: string, results: seq<string>, seen: set<string>,
               file: string, more: seq<string>, seen': set<string>)
    requires Searched(dir, ignored, root, results, seen) && file !in seen && Edge(dir, root, file)
    requires Searched(dir, seen + {file}, file, more, seen') && Explored(dir, file, seen')
    ensures Searched(dir, ignored, root, results + [file] + more, seen')
  {
    var all := results + [file] + more;
    Distinct(results, file, more);
    ReachesStep(dir, ignored, root, file);
    forall f | f in all ensures f !in ignored && f != root && Reaches(dir, ignored, root, f) {
      if f in more {
        assert f !in seen;
        ReachesThrough(dir, ignored, seen + {file}, root, file, f);
      }
    }
    forall f, g | f in all && Edge(dir, f, g) ensures g in seen' {
      if f in results {
        assert g in seen;
      }
    }
  }

  lemma Distinct(a: seq<string>, x: string, b: seq<string>)
    requires NoDuplicates(a) && NoDuplicates(b) && x !in a && x !in b && forall f <- b :: f !in a
    ensures var all := a + [x] + b;
      NoDuplicates(all) && (set f <- all) == (set f <- a) + {x} + (set f <- b)
      && forall f :: f in all <==> f in a || f == x || f in b
  {
    var all := a + [x] + b;
    assert forall f :: f in all <==> f in a || f == x || f in b;
    forall i, j | 0 <= i < j < |all| ensures all[i] != all[j] {
      if i < |a| < j {
        assert all[j] in b;
      }
    }
  }

  lemma RootClosed(dir: Directory, root: string, deps: seq<string>, seen: set<string>)
    requires root in dir && forall pod :: pod in deps <==> DependsOn(dir[root].specs, pod)
    requires forall k :: 0 <= k < |deps| ==> Handled(dir, deps[k], seen)
    ensures Explored(dir, root, seen)
  {
    forall g | Edge(dir, root, g) ensures g in seen {
      var pod :| FileName(pod) == g && DependsOn(dir[root].specs, pod);
      var k :| 0 <= k < |deps| && deps[k] == pod;
      assert Handled(dir, deps[k], seen);
    }
  }

  lemma ResultsAreReachable(dir: Directory, ignored: set<string>, root: string, results: seq<string>, seen: set<string>)
    requires Searched(dir, ignored, root, results, seen) && Explored(dir, root, seen)
    ensures forall g :: g in results <==> g != root && g !in ignored && Reaches(dir, ignored, root, g)
  {
    var closed := {root} + set f <- results;
    forall g | g != root && g !in ignored && Reaches(dir, ignored, root, g) ensures g in results {
      var p :| Chain(dir, ignored, p) && p[0] == root && p[|p| - 1] == g;
      ClosedHolds(dir, ignored, closed, p, |p| - 1);
    }
  }
}
