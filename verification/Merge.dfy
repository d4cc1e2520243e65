/** crates/grader_lib/src/workspace.rs, `merge_trees`: the purge, then the overlay, in place. */
module Merging {
  import opened Wrappers
  import opened Trees
  import opened Nodes
  import opened FileSystems
  import opened Workspaces
  import opened Purging

  /** The promise of the merge at one purge path: the project holds there exactly the sanitised hidden
      subtree, or nothing when the hidden repository has none. */
  ghost predicate InPlace(ns: NodeMap, project: Path, t: Tree, rel: Path) {
    HoldsOpt(ns, project + rel, Subtree(Sanitise(t), rel))
  }

  /** The promise at every purge path. */
  ghost predicate HiddenInPlace(ns: NodeMap, project: Path, t: Tree, rels: seq<Path>) {
    forall i :: 0 <= i < |rels| ==> InPlace(ns, project, t, rels[i])
  }

  /** The promise is kept at exactly the purge paths that the purge of the map `n0` spares. */
  ghost predicate KeptWhereSpared(n0: NodeMap, ns: NodeMap, project: Path, tests: Path, t: Tree, rels: seq<Path>) {
    forall i :: 0 <= i < |rels| ==> (InPlace(ns, project, t, rels[i]) <==> Spared(n0, project, tests, t, rels, rels[i]))
  }

  /** Each purge path resolves inside the project, and none is the project itself. */
  ghost predicate Inside(ns: NodeMap, project: Path, rels: seq<Path>) {
    Contained(ns, project, rels) && project in PurgeAllNodes(ns, project, rels)
  }

  /** `merge_trees`, for any purge paths.
      - On every exit nothing outside the project changes, if each purge path in turn resolves inside it;
        and success leaves, outside the project, what the purge left, with at most directories missing on
        the way to the project made again.
      - Success puts the hidden suite at a purge path if and only if the purge took nothing from the hidden
        checkout that belongs there.
      - If no purge path resolves to a place at, below or above the hidden checkout, or at or above the
        project, success leaves the overlay of the hidden tree on what the purge left, and the hidden suite
        at every purge path.
      - If no purge path meets a symlink, both hold and the result is the pure merge.
      - It succeeds without faults in the two directories if the purge stays inside the project, and without
        faults anywhere if the purge leaves the two directories there. */
  method MergeTrees(fs: FileSystem, project: Path, tests: Path, purgePaths: seq<Path>) returns (r: StageResult<()>)
    requires WellFormed(fs.nodes) && RealDir(fs.nodes, project) && RealDir(fs.nodes, tests) && Diverge(tests, project)
    modifies fs
    ensures r.Err? ==> r.error == MergeFailure()
    ensures WellFormed(fs.nodes) && Plain(fs.nodes, Parent(project))
    ensures Contained(old(fs.nodes), project, purgePaths) ==> SameOutside(old(fs.nodes), fs.nodes, project)
    ensures r.Ok? ==> Confined(PurgeAllNodes(old(fs.nodes), project, purgePaths), fs.nodes, project)
    ensures r.Ok? && OrdinaryRels(purgePaths) ==>
              KeptWhereSpared(old(fs.nodes), fs.nodes, project, tests, TreeAt(old(fs.nodes), tests), purgePaths)
    ensures r.Ok? && Harmless(old(fs.nodes), project, tests, purgePaths) ==>
              && Laid(PurgeAllNodes(old(fs.nodes), project, purgePaths), fs.nodes, project,
                      TreeAt(old(fs.nodes), tests))
              && (OrdinaryRels(purgePaths) ==>
                    HiddenInPlace(fs.nodes, project, TreeAt(old(fs.nodes), tests), purgePaths))
    ensures SafePaths(TreeAt(old(fs.nodes), project), purgePaths) ==>
              && Inside(old(fs.nodes), project, purgePaths)
              && Harmless(old(fs.nodes), project, tests, purgePaths)
              && (r.Ok? ==> Holds(fs.nodes, project,
                                  Merge(TreeAt(old(fs.nodes), project), TreeAt(old(fs.nodes), tests), purgePaths)))
    ensures Inside(old(fs.nodes), project, purgePaths) && fs.Reliable(project) && fs.Reliable(tests) ==> r.Ok?
    ensures var n1 := PurgeAllNodes(old(fs.nodes), project, purgePaths);
            OrdinaryRels(purgePaths) && fs.Reliable([]) && project in n1 ==> (r.Ok? <==> tests in n1)
  {
    ghost var n0 := fs.nodes;
    ghost var s, t := TreeAt(n0, project), TreeAt(n0, tests);
    assert project != [];
    if SafePaths(s, purgePaths) { SafeIsInside(n0, project, tests, s, purgePaths); }
    if Contained(n0, project, purgePaths) { InsideSparesTests(n0, project, tests, purgePaths); }
    r := PurgePaths(fs, project, purgePaths);
    ghost var n1 := fs.nodes;
    AfterPurge(n0, n1, project, tests);
    if r.Err? {
      return;
    }
    if tests in n1 { HiddenLeft(n0, project, tests, t, purgePaths); }
    ghost var s1 := if project in n1 then Some(TreeAt(n1, project)) else None;
    ghost var t1 := PurgeAll(t, Struck(n0, project, tests, purgePaths));
    assert fs.Reliable([]) ==> fs.Reliable(project) && fs.Reliable(tests);
    r := OverlayCopy(fs, tests, project, s1, t1);
    OutsideAfterCopy(n0, n1, fs.nodes, project);
    if r.Ok? {
      PlainUp(n0, tests);
      PlainUp(n1, tests);
      if OrdinaryRels(purgePaths) { SparedInPlace(n0, fs.nodes, project, tests, t, s1, purgePaths); }
      if Harmless(n0, project, tests, purgePaths) { MergeDone(n0, fs.nodes, project, tests, s, t, s1, purgePaths); }
    }
  }

  /** On the map `b` the project is the overlay of `t` on what `a` had there. */
  ghost predicate Laid(a: NodeMap, b: NodeMap, project: Path, t: Tree) {
    exists s :: Holds(a, project, s) && Holds(b, project, Overlay(Some(s), t))
  }

  lemma SafeIsInside(ns: NodeMap, project: Path, tests: Path, s: Tree, rels: seq<Path>)
    requires Safe(ns, project, s, rels) && Diverge(tests, project)
    ensures Inside(ns, project, rels) && Harmless(ns, project, tests, rels)
  {
    SafeIsContained(ns, project, tests, s, rels);
    PurgeAllSafe(ns, project, s, rels);
  }

  /** A purge whose paths all end in another name than the project's cannot take the project itself. */
  lemma {:induction false} ContainedIsInside(ns: NodeMap, project: Path, rels: seq<Path>)
    requires Contained(ns, project, rels) && project in ns && project != [] && OrdinaryRels(rels)
    requires forall i :: 0 <= i < |rels| ==> rels[i][|rels[i]| - 1] != project[|project| - 1]
    ensures Inside(ns, project, rels)
    decreases |rels|
  {
    if rels != [] {
      var q := PurgePlace(ns, project, rels[0]);
      assert q.Some? && q.value <= project ==> q.value == project;
      PlaceIsNamed(ns, project, rels[0]);
      forall i | 0 <= i < |rels[1..]| ensures rels[1..][i] == rels[i + 1] {}
      ContainedIsInside(PurgeNodes(ns, project, rels[0]), project, rels[1..]);
    }
  }

  lemma InsideSparesTests(ns: NodeMap, project: Path, tests: Path, rels: seq<Path>)
    requires Contained(ns, project, rels) && tests in ns && Diverge(tests, project)
    ensures tests in PurgeAllNodes(ns, project, rels)
  {
    PurgeAllConfinedIff(ns, project, rels);
    DivergeBelow(tests, project, tests, project);
    assert SameAt(ns, PurgeAllNodes(ns, project, rels), tests);
  }

  lemma AfterPurge(n0: NodeMap, n1: NodeMap, project: Path, tests: Path)
    requires Plain(n0, project) && Plain(n0, tests) && Shrunk(n0, n1)
    ensures Plain(n1, project) && Plain(n1, tests) && Plain(n1, Parent(project))
  {
    ShrunkPlain(n0, n1, project);
    ShrunkPlain(n0, n1, tests);
    PlainUp(n1, project);
  }

  /** The copy keeps the way to the project, and makes nothing outside it when that way is whole. */
  lemma OutsideAfterCopy(n0: NodeMap, n1: NodeMap, n2: NodeMap, project: Path)
    requires WellFormed(n0) && project in n0 && project != [] && Plain(n1, Parent(project))
    requires Confined(n1, n2, project)
    ensures Plain(n2, Parent(project))
    ensures SameOutside(n0, n1, project) ==> SameOutside(n0, n2, project)
  {
    var d, n := Parent(project), project[|project| - 1];
    assert project == d + [n];
    ConfinedPlain(n1, n2, d, n);
    if SameOutside(n0, n1, project) {
      forall q | !(project <= q) ensures SameAt(n1, n2, q) {
        if q <= project {
          PrefixExists(n0, project, q);
          assert SameAt(n0, n1, q);
        }
      }
      OutsideTrans(n0, n1, n2, project);
    }
  }

  /** What the project holds at a path where the purge left nothing. */
  lemma OverlaidAt(n1: NodeMap, n2: NodeMap, project: Path, s1: Option<Tree>, t1: Tree, rel: Path)
    requires WellFormed(n1) && WellFormed(n2) && HoldsOpt(n1, project, s1) && !t1.Link?
    requires project + rel !in n1 && rel != [] && Stands(n1, n2, project, Overlay(s1, t1))
    ensures HoldsOpt(n2, project + rel, Subtree(Sanitise(t1), rel))
  {
    if s1.Some? { HoldsSubtree(n1, project, s1.value, rel); }
    HiddenWhereAbsent(s1, t1, rel);
    if project in n2 {
      HoldsSubtree(n2, project, Overlay(s1, t1), rel);
    } else if project + rel in n2 {
      PrefixExists(n2, project + rel, project);
    }
  }

  lemma SparedInPlace(n0: NodeMap, n2: NodeMap, project: Path, tests: Path, t: Tree, s1: Option<Tree>, rels: seq<Path>)
    requires WellFormed(n0) && WellFormed(PurgeAllNodes(n0, project, rels)) && WellFormed(n2) && Plain(n0, project)
    requires !t.Link? && !PurgeAll(t, Struck(n0, project, tests, rels)).Link? && OrdinaryRels(rels)
    requires HoldsOpt(PurgeAllNodes(n0, project, rels), project, s1)
    requires Stands(PurgeAllNodes(n0, project, rels), n2, project,
                    Overlay(s1, PurgeAll(t, Struck(n0, project, tests, rels))))
    ensures KeptWhereSpared(n0, n2, project, tests, t, rels)
  {
    var n1, t1 := PurgeAllNodes(n0, project, rels), PurgeAll(t, Struck(n0, project, tests, rels));
    forall i | 0 <= i < |rels|
      ensures InPlace(n2, project, t, rels[i]) <==> Spared(n0, project, tests, t, rels, rels[i])
    {
      AllPurgedAreGone(n0, project, rels, i);
      OverlaidAt(n1, n2, project, s1, t1, rels[i]);
      SparedIff(n0, project, tests, t, rels, rels[i]);
      OneTree(n2, project + rels[i], Subtree(Sanitise(t1), rels[i]), Subtree(Sanitise(t), rels[i]));
    }
  }

  lemma OneTree(ns: NodeMap, p: Path, a: Option<Tree>, b: Option<Tree>)
    requires HoldsOpt(ns, p, a)
    ensures HoldsOpt(ns, p, b) <==> a == b
  {
    if a.Some? && b.Some? && Holds(ns, p, b.value) { HoldsUnique(ns, p, a.value, b.value); }
  }

  lemma MergeDone(n0: NodeMap, n2: NodeMap, project: Path, tests: Path, s: Tree, t: Tree, s1: Option<Tree>,
                  rels: seq<Path>)
    requires WellFormed(n0) && RealDir(n0, project) && RealDir(n0, tests) && Diverge(tests, project)
    requires Holds(n0, project, s) && Holds(n0, tests, t) && Harmless(n0, project, tests, rels)
    requires HoldsOpt(PurgeAllNodes(n0, project, rels), project, s1)
    requires Stands(PurgeAllNodes(n0, project, rels), n2, project,
                    Overlay(s1, PurgeAll(t, Struck(n0, project, tests, rels))))
    requires OrdinaryRels(rels) ==> KeptWhereSpared(n0, n2, project, tests, t, rels)
    ensures Laid(PurgeAllNodes(n0, project, rels), n2, project, t)
    ensures OrdinaryRels(rels) ==> HiddenInPlace(n2, project, t, rels)
    ensures SafePaths(s, rels) ==> Holds(n2, project, Merge(s, t, rels))
  {
    var n1 := PurgeAllNodes(n0, project, rels);
    HarmlessKeeps(n0, project, tests, t, rels);
    HarmlessStrikesNothing(n0, project, tests, rels);
    assert Holds(n2, project, Overlay(s1, t));
    if SafePaths(s, rels) {
      PurgeAllSafe(n0, project, s, rels);
      HoldsUnique(n1, project, s1.value, PurgeAll(s, rels));
    }
    if OrdinaryRels(rels) {
      forall i | 0 <= i < |rels| ensures InPlace(n2, project, t, rels[i]) {
        assert Spared(n0, project, tests, t, rels, rels[i]);
      }
    }
  }

  /** On a checkout whose `src` is linked into the hidden checkout the merge succeeds and breaks the promise. */
  method MergeLinkedToHidden(fs: FileSystem) returns (r: StageResult<()>)
    requires fs.nodes == LinkedToHidden() && fs.Reliable([])
    modifies fs
    ensures Holds(old(fs.nodes), ["hidden"], HiddenSuite())
    ensures r.Ok? && !InPlace(fs.nodes, ["project"], HiddenSuite(), ["src", "test"])
  {
    PurgeReachesHidden();
    LinkedPurgeLeavesBoth();
    ghost var t := TreeAt(fs.nodes, ["hidden"]);
    HoldsUnique(fs.nodes, ["hidden"], t, HiddenSuite());
    r := MergeTrees(fs, ["project"], ["hidden"], [["src", "test"]]);
    assert [["src", "test"]][0] == ["src", "test"];
  }

  lemma LinkedPurgeLeavesBoth()
    ensures var rels := [["src", "test"]];
            var b := PurgeAllNodes(LinkedToHidden(), ["project"], rels);
            OrdinaryRels(rels) && ["project"] in b && ["hidden"] in b
    ensures Diverge(["hidden"], ["project"])
  {
    var rel := ["src", "test"];
    LinkedToHiddenPurged();
    assert [rel][0] == rel && [rel][1..] == [];
    assert PurgeAllNodes(LinkedToHidden(), ["project"], [rel]) == PurgeNodes(LinkedToHidden(), ["project"], rel);
    assert ["hidden"][0] != ["project"][0];
  }
}
