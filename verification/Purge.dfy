/** crates/grader_lib/src/workspace.rs:170-190: the removal of the student's test paths, which follows
    symlinks in every component but the last. */
module Purging {
  import opened Wrappers
  import opened Trees
  import opened Nodes
  import opened FileSystems
  import opened Workspaces

  // ---- Purge paths without a symlink on the way ----

  /** No component of `rel` but possibly the last is a symlink in `s`. */
  predicate LinkFree(s: Tree, rel: Path)
    decreases rel
  {
    |rel| <= 1 || !s.Dir? || rel[0] !in s.entries
    || (!s.entries[rel[0]].Link? && LinkFree(s.entries[rel[0]], rel[1..]))
  }

  ghost predicate SafePath(s: Tree, rel: Path) {
    rel != [] && OrdinaryPath(rel) && LinkFree(s, rel)
  }

  ghost predicate SafePaths(s: Tree, rels: seq<Path>) {
    forall i :: 0 <= i < |rels| ==> SafePath(s, rels[i])
  }

  lemma RealPrefix(ns: NodeMap, p: Path, q: Path)
    requires WellFormed(ns) && RealDir(ns, p) && q <= p
    ensures q in ns && ns[q].DirNode?
  {
    PrefixExists(ns, p, q);
    PlainUp(ns, p);
  }

  lemma {:induction false} WalkToDir(ns: NodeMap, base: Path, todo: Path, rel: Path, links: nat)
    requires WellFormed(ns) && RealDir(ns, base + todo) && rel != []
    ensures Walk(ns, base, todo + rel, links, false) == Walk(ns, base + todo, rel, links, false)
    decreases todo
  {
    if todo == [] {
      assert todo + rel == rel && base + todo == base;
    } else {
      var here := base + [todo[0]];
      assert here + todo[1..] == base + todo && (todo + rel)[1..] == todo[1..] + rel;
      assert (base + todo)[|base|] == todo[0];
      RealPrefix(ns, base + todo, base);
      RealPrefix(ns, base + todo, here);
      WalkToDir(ns, here, todo[1..], rel, links);
    }
  }

  lemma {:induction false} WalkSafe(ns: NodeMap, p: Path, s: Tree, rel: Path, links: nat)
    requires Holds(ns, p, s) && SafePath(s, rel)
    ensures var w := Walk(ns, p, rel, links, false);
            if w.Some? then w.value == p + rel else Purge(s, rel) == s
    decreases rel
  {
    if s.Dir? && |rel| > 1 {
      if rel[0] in s.entries {
        WalkSafe(ns, p + [rel[0]], s.entries[rel[0]], rel[1..], links);
        assert p + [rel[0]] + rel[1..] == p + rel;
      } else {
        assert p + [rel[0]] !in ns;
      }
    }
  }

  lemma {:induction false} RemovalHolds(ns: NodeMap, p: Path, s: Tree, rel: Path)
    requires Holds(ns, p, s) && rel != []
    ensures Holds(RemoveTree(ns, p + rel), p, Purge(s, rel))
    decreases rel
  {
    var b, n := RemoveTree(ns, p + rel), rel[0];
    assert p <= p + [n] <= p + rel;
    if s.Dir? {
      HoldsChild(ns, p, s.entries, n);
      if n !in s.entries || |rel| == 1 {
        assert |rel| == 1 ==> p + rel == p + [n];
        HoldsReplace(ns, b, p, n, s.entries, None);
        assert n !in s.entries ==> s.entries - {n} == s.entries;
      } else {
        assert p + [n] + rel[1..] == p + rel;
        RemovalHolds(ns, p + [n], s.entries[n], rel[1..]);
        HoldsReplace(ns, b, p, n, s.entries, Some(Purge(s.entries[n], rel[1..])));
      }
    }
  }

  lemma NothingBelow(ns: NodeMap, p: Path)
    requires WellFormed(ns) && p !in ns
    ensures RemoveTree(ns, p) == ns
  {
    forall q | q in ns ensures !(p <= q) {
      if p <= q { PrefixExists(ns, q, p); }
    }
  }

  /** Without a symlink on its way the purge removes exactly the path it names. */
  lemma PurgeNodesIsRemoval(ns: NodeMap, project: Path, s: Tree, rel: Path)
    requires WellFormed(ns) && RealDir(ns, project) && Holds(ns, project, s) && SafePath(s, rel)
    ensures PurgeNodes(ns, project, rel) == RemoveTree(ns, project + rel)
            || (PurgeNodes(ns, project, rel) == ns && Purge(s, rel) == s)
  {
    assert [] + project == project;
    WalkToDir(ns, [], project, rel, MAX_LINKS);
    WalkSafe(ns, project, s, rel, MAX_LINKS);
    if project + rel !in ns { NothingBelow(ns, project + rel); }
  }

  /** A purge that meets no symlink on its way does to the map what the pure purge does to the tree. */
  lemma PurgeNodesSafe(ns: NodeMap, project: Path, s: Tree, rel: Path)
    requires WellFormed(ns) && RealDir(ns, project) && Holds(ns, project, s) && SafePath(s, rel)
    ensures var b := PurgeNodes(ns, project, rel);
            && WellFormed(b) && RealDir(b, project) && Holds(b, project, Purge(s, rel))
            && SameOutside(ns, b, project)
  {
    var b := PurgeNodes(ns, project, rel);
    PurgeNodesIsRemoval(ns, project, s, rel);
    if b == RemoveTree(ns, project + rel) {
      RemovalHolds(ns, project, s, rel);
      RemoveKeepsForm(ns, project + rel);
      RemovalOutside(ns, project, rel);
    }
    ShrunkPlain(ns, b, project);
  }

  lemma RemovalOutside(ns: NodeMap, p: Path, rel: Path)
    ensures SameOutside(ns, RemoveTree(ns, p + rel), p)
  {
    assert p <= p + rel;
  }

  ghost predicate Shrunk(a: NodeMap, b: NodeMap) {
    forall q :: q in b ==> q in a && b[q] == a[q]
  }

  lemma ShrunkPlain(a: NodeMap, b: NodeMap, p: Path)
    requires Plain(a, p) && Shrunk(a, b)
    ensures Plain(b, p)
  {
  }

  lemma {:induction false} PurgeKeepsLinkFree(s: Tree, rel: Path, other: Path)
    requires LinkFree(s, rel)
    ensures LinkFree(Purge(s, other), rel)
    decreases rel
  {
    if |rel| > 1 && s.Dir? && rel[0] in s.entries && |other| > 1 && other[0] == rel[0] {
      PurgeKeepsLinkFree(s.entries[rel[0]], rel[1..], other[1..]);
    }
  }

  /** The project and its tree, with every purge path free of symlinks on the way. */
  ghost predicate Safe(ns: NodeMap, project: Path, s: Tree, rels: seq<Path>) {
    WellFormed(ns) && RealDir(ns, project) && Holds(ns, project, s) && SafePaths(s, rels)
  }

  lemma SafeStep(ns: NodeMap, project: Path, s: Tree, rels: seq<Path>)
    requires Safe(ns, project, s, rels) && rels != []
    ensures SafePath(s, rels[0])
    ensures Safe(PurgeNodes(ns, project, rels[0]), project, Purge(s, rels[0]), rels[1..])
    ensures SameOutside(ns, PurgeNodes(ns, project, rels[0]), project)
  {
    PurgeNodesSafe(ns, project, s, rels[0]);
    forall i | 0 <= i < |rels[1..]| ensures SafePath(Purge(s, rels[0]), rels[1..][i]) {
      assert rels[1..][i] == rels[i + 1];
      PurgeKeepsLinkFree(s, rels[i + 1], rels[0]);
    }
  }

  lemma OutsideTrans(a: NodeMap, b: NodeMap, c: NodeMap, p: Path)
    requires SameOutside(a, b, p) && SameOutside(b, c, p)
    ensures SameOutside(a, c, p)
  {
    forall q | !(p <= q) ensures SameAt(a, c, q) {
      assert SameAt(a, b, q) && SameAt(b, c, q);
    }
  }

  /** The whole purge loop on the map is the pure purge of the tree, and nothing else changes. */
  lemma {:induction false} PurgeAllSafe(ns: NodeMap, project: Path, s: Tree, rels: seq<Path>)
    requires Safe(ns, project, s, rels)
    ensures Safe(PurgeAllNodes(ns, project, rels), project, PurgeAll(s, rels), [])
    ensures SameOutside(ns, PurgeAllNodes(ns, project, rels), project)
    decreases |rels|
  {
    if rels != [] {
      var b := PurgeNodes(ns, project, rels[0]);
      SafeStep(ns, project, s, rels);
      PurgeAllSafe(b, project, Purge(s, rels[0]), rels[1..]);
      OutsideTrans(ns, b, PurgeAllNodes(ns, project, rels), project);
    }
  }

  // ---- Any purge paths ----

  /** Each purge path in turn resolves to nothing or to a place inside the project. */
  ghost predicate Contained(ns: NodeMap, project: Path, rels: seq<Path>)
    decreases |rels|
  {
    rels == [] ||
    (var q := PurgePlace(ns, project, rels[0]);
     (q.Some? ==> project <= q.value) && Contained(PurgeNodes(ns, project, rels[0]), project, rels[1..]))
  }

  /** Each purge path in turn resolves to nothing or to a place that is neither at, below or above the
      hidden checkout nor at or above the project. */
  ghost predicate Harmless(ns: NodeMap, project: Path, tests: Path, rels: seq<Path>)
    decreases |rels|
  {
    rels == [] ||
    (var q := PurgePlace(ns, project, rels[0]);
     (q.Some? ==> Diverge(tests, q.value) && !(q.value <= project))
     && Harmless(PurgeNodes(ns, project, rels[0]), project, tests, rels[1..]))
  }

  lemma PurgeShrinks(ns: NodeMap, project: Path, rel: Path)
    ensures Shrunk(ns, PurgeNodes(ns, project, rel))
  {
  }

  lemma {:induction false} PurgeAllShrinks(ns: NodeMap, project: Path, rels: seq<Path>)
    ensures Shrunk(ns, PurgeAllNodes(ns, project, rels))
    decreases |rels|
  {
    if rels != [] {
      PurgeShrinks(ns, project, rels[0]);
      PurgeAllShrinks(PurgeNodes(ns, project, rels[0]), project, rels[1..]);
    }
  }

  /** One purge touches nothing outside the project exactly when the place it resolves to is empty or
      inside the project. */
  lemma PurgeConfinedIff(ns: NodeMap, project: Path, rel: Path)
    ensures SameOutside(ns, PurgeNodes(ns, project, rel), project) <==>
            (PurgePlace(ns, project, rel).Some? ==> project <= PurgePlace(ns, project, rel).value)
  {
    var q := PurgePlace(ns, project, rel);
    if q.Some? {
      var b := RemoveTree(ns, q.value);
      assert q.value <= q.value;
      assert !SameAt(ns, b, q.value);
      if project <= q.value {
        forall r | !(project <= r) ensures SameAt(ns, b, r) {
          assert q.value <= r ==> project <= r;
        }
      }
    }
  }

  /** The whole purge touches nothing outside the project exactly when each path in turn resolves to
      nothing or inside the project. */
  lemma {:induction false} PurgeAllConfinedIff(ns: NodeMap, project: Path, rels: seq<Path>)
    ensures SameOutside(ns, PurgeAllNodes(ns, project, rels), project) <==> Contained(ns, project, rels)
    decreases |rels|
  {
    if rels != [] {
      var b := PurgeNodes(ns, project, rels[0]);
      var c := PurgeAllNodes(b, project, rels[1..]);
      var q := PurgePlace(ns, project, rels[0]);
      PurgeConfinedIff(ns, project, rels[0]);
      PurgeAllConfinedIff(b, project, rels[1..]);
      PurgeAllShrinks(b, project, rels[1..]);
      if q.Some? && !(project <= q.value) {
        assert q.value <= q.value && q.value !in b;
        assert !SameAt(ns, c, q.value);
      } else if SameOutside(ns, c, project) {
        OutsideTrans(b, ns, c, project);
      } else if SameOutside(b, c, project) {
        OutsideTrans(ns, b, c, project);
      }
    }
  }

  /** Without symlinks on the way the purge is contained, and harmless to a hidden checkout elsewhere. */
  lemma {:induction false} SafeIsContained(ns: NodeMap, project: Path, tests: Path, s: Tree, rels: seq<Path>)
    requires Safe(ns, project, s, rels) && Diverge(tests, project)
    ensures Contained(ns, project, rels) && Harmless(ns, project, tests, rels)
    decreases |rels|
  {
    if rels != [] {
      SafeStep(ns, project, s, rels);
      LocateSafe(ns, project, s, rels[0]);
      DivergeBelow(tests, project, tests, project + rels[0]);
      SafeIsContained(PurgeNodes(ns, project, rels[0]), project, tests, Purge(s, rels[0]), rels[1..]);
    }
  }

  lemma LocateSafe(ns: NodeMap, project: Path, s: Tree, rel: Path)
    requires WellFormed(ns) && RealDir(ns, project) && Holds(ns, project, s) && SafePath(s, rel)
    ensures var q := Locate(ns, project + rel, false);
            q.Some? ==> q.value == project + rel && project <= q.value && !(q.value <= project)
  {
    assert [] + project == project;
    WalkToDir(ns, [], project, rel, MAX_LINKS);
    WalkSafe(ns, project, s, rel, MAX_LINKS);
    assert |project + rel| > |project|;
  }

  // ---- What a harmless purge leaves ----

  lemma HarmlessStep(ns: NodeMap, project: Path, tests: Path, t: Tree, rels: seq<Path>)
    requires WellFormed(ns) && RealDir(ns, project) && RealDir(ns, tests) && Holds(ns, tests, t)
    requires Harmless(ns, project, tests, rels) && rels != []
    ensures var b := PurgeNodes(ns, project, rels[0]);
            WellFormed(b) && RealDir(b, project) && RealDir(b, tests) && Holds(b, tests, t)
  {
    var b, q := PurgeNodes(ns, project, rels[0]), PurgePlace(ns, project, rels[0]);
    PurgeShrinks(ns, project, rels[0]);
    ShrunkPlain(ns, b, project);
    ShrunkPlain(ns, b, tests);
    if q.Some? {
      RemoveKeepsForm(ns, q.value);
      forall r | tests <= r ensures SameAt(ns, b, r) {
        DivergeBelow(tests, q.value, r, q.value);
      }
      HoldsFrame(ns, b, tests, t);
    }
  }

  /** The hidden checkout, the project directory and the form of the filesystem survive. */
  lemma {:induction false} HarmlessKeeps(ns: NodeMap, project: Path, tests: Path, t: Tree, rels: seq<Path>)
    requires WellFormed(ns) && RealDir(ns, project) && RealDir(ns, tests) && Holds(ns, tests, t)
    requires Harmless(ns, project, tests, rels)
    ensures var b := PurgeAllNodes(ns, project, rels);
            WellFormed(b) && RealDir(b, project) && RealDir(b, tests) && Holds(b, tests, t)
    decreases |rels|
  {
    if rels != [] {
      HarmlessStep(ns, project, tests, t, rels);
      HarmlessKeeps(PurgeNodes(ns, project, rels[0]), project, tests, t, rels[1..]);
    }
  }

  ghost predicate OrdinaryRels(rels: seq<Path>) {
    forall i :: 0 <= i < |rels| ==> rels[i] != [] && OrdinaryPath(rels[i])
  }

  /** A walk whose last component is an ordinary name ends at an entry of that name. */
  lemma {:induction false} WalkEnds(ns: NodeMap, base: Path, rest: Path, links: nat)
    requires rest != [] && Ordinary(rest[|rest| - 1])
    ensures var w := Walk(ns, base, rest, links, false);
            w.Some? ==> w.value != [] && w.value[|w.value| - 1] == rest[|rest| - 1]
    decreases links, |rest|
  {
    if base in ns && ns[base].DirNode? {
      var here := base + [rest[0]];
      if rest[0] == "." {
        WalkEnds(ns, base, rest[1..], links);
      } else if rest[0] == ".." {
        WalkEnds(ns, Parent(base), rest[1..], links);
      } else if here in ns && ns[here].LinkNode? && |rest| > 1 {
        if links > 0 {
          WalkEnds(ns, if ns[here].absolute then [] else base, ns[here].target + rest[1..], links - 1);
        }
      } else if |rest| > 1 {
        WalkEnds(ns, here, rest[1..], links);
      }
    }
  }

  lemma PlaceIsNamed(ns: NodeMap, project: Path, rel: Path)
    requires rel != [] && OrdinaryPath(rel)
    ensures var q := PurgePlace(ns, project, rel);
            q.Some? ==> q.value != [] && q.value[|q.value| - 1] == rel[|rel| - 1]
  {
    assert (project + rel)[|project + rel| - 1] == rel[|rel| - 1];
    WalkEnds(ns, [], project + rel, MAX_LINKS);
  }

  lemma PurgeKeepsForm(ns: NodeMap, project: Path, rel: Path)
    requires WellFormed(ns) && rel != [] && OrdinaryPath(rel)
    ensures WellFormed(PurgeNodes(ns, project, rel))
  {
    var q := PurgePlace(ns, project, rel);
    PlaceIsNamed(ns, project, rel);
    if q.Some? { RemoveKeepsForm(ns, q.value); }
  }

  /** Whatever links there are, the path that was named is gone: it was removed, or a link on its way kept
      it from being there at all. */
  lemma PurgedIsGone(ns: NodeMap, project: Path, rel: Path)
    requires WellFormed(ns) && Plain(ns, project) && rel != [] && OrdinaryPath(rel)
    ensures project + rel !in PurgeNodes(ns, project, rel)
  {
    var p := project + rel;
    if p in ns {
      var d, n := Parent(p), p[|p| - 1];
      assert p == d + [n] && n == rel[|rel| - 1];
      assert OrdinaryPath(d);
      forall i | 0 <= i <= |d| && d[..i] in ns ensures ns[d[..i]].DirNode? {
        assert d[..i] == p[..i];
        AncestorsExist(ns, p, i);
      }
      LocatePlain(ns, d, n, false);
    }
  }

  lemma {:induction false} AllPurgedAreGone(ns: NodeMap, project: Path, rels: seq<Path>, i: nat)
    requires WellFormed(ns) && Plain(ns, project) && OrdinaryRels(rels) && i < |rels|
    ensures project + rels[i] !in PurgeAllNodes(ns, project, rels)
    decreases |rels|
  {
    var b := PurgeNodes(ns, project, rels[0]);
    PurgeShrinks(ns, project, rels[0]);
    ShrunkPlain(ns, b, project);
    PurgeKeepsForm(ns, project, rels[0]);
    if i == 0 {
      PurgedIsGone(ns, project, rels[0]);
      PurgeAllShrinks(b, project, rels[1..]);
    } else {
      assert rels[1..][i - 1] == rels[i];
      AllPurgedAreGone(b, project, rels[1..], i - 1);
    }
  }

  // ---- What the purge takes from the hidden checkout ----

  /** The places strictly below `tests` that the purge removes, relative to it. */
  ghost function Struck(ns: NodeMap, project: Path, tests: Path, rels: seq<Path>): (xs: seq<Path>)
    ensures Proper(xs)
    decreases |rels|
  {
    if rels == [] then []
    else
      var q := PurgePlace(ns, project, rels[0]);
      (if q.Some? && tests < q.value then [q.value[|tests|..]] else [])
      + Struck(PurgeNodes(ns, project, rels[0]), project, tests, rels[1..])
  }

  /** Nothing that the copy would bring to `rel` from the hidden tree `t` is removed by the purge. */
  ghost predicate Spared(ns: NodeMap, project: Path, tests: Path, t: Tree, rels: seq<Path>, rel: Path) {
    var xs := Struck(ns, project, tests, rels);
    forall i :: 0 <= i < |xs| ==> Apart(Sanitise(t), xs[i], rel)
  }

  lemma StruckOnce(ns: NodeMap, project: Path, tests: Path, t: Tree, rel: Path)
    requires Holds(ns, tests, t) && tests in PurgeNodes(ns, project, rel)
    ensures var q := PurgePlace(ns, project, rel);
            Holds(PurgeNodes(ns, project, rel), tests,
                  if q.Some? && tests < q.value then Purge(t, q.value[|tests|..]) else t)
  {
    var b, q := PurgeNodes(ns, project, rel), PurgePlace(ns, project, rel);
    if q.Some? && tests < q.value {
      assert q.value == tests + q.value[|tests|..];
      RemovalHolds(ns, tests, t, q.value[|tests|..]);
    } else if q.Some? {
      forall r | tests <= r ensures SameAt(ns, b, r) {
        assert !(q.value <= tests);
        assert |q.value| <= |tests| ==> tests[..|q.value|] == r[..|q.value|];
        assert |tests| < |q.value| <= |r| ==> r[..|q.value|][..|tests|] == r[..|tests|];
      }
      HoldsFrame(ns, b, tests, t);
    }
  }

  /** As long as the hidden checkout itself is there, what is left of it is the purge of its tree. */
  lemma {:induction false} HiddenLeft(ns: NodeMap, project: Path, tests: Path, t: Tree, rels: seq<Path>)
    requires Holds(ns, tests, t) && tests in PurgeAllNodes(ns, project, rels)
    ensures Holds(PurgeAllNodes(ns, project, rels), tests, PurgeAll(t, Struck(ns, project, tests, rels)))
    decreases |rels|
  {
    if rels != [] {
      var b, q := PurgeNodes(ns, project, rels[0]), PurgePlace(ns, project, rels[0]);
      var rest := Struck(b, project, tests, rels[1..]);
      PurgeAllShrinks(b, project, rels[1..]);
      StruckOnce(ns, project, tests, t, rels[0]);
      if q.Some? && tests < q.value {
        var x := q.value[|tests|..];
        assert ([x] + rest)[1..] == rest;
        HiddenLeft(b, project, tests, Purge(t, x), rels[1..]);
      } else {
        assert [] + rest == rest;
        HiddenLeft(b, project, tests, t, rels[1..]);
      }
    }
  }

  /** What is left of the hidden tree brings to `rel` what the whole tree would, if and only if `rel` is
      spared. */
  lemma SparedIff(ns: NodeMap, project: Path, tests: Path, t: Tree, rels: seq<Path>, rel: Path)
    ensures Subtree(Sanitise(PurgeAll(t, Struck(ns, project, tests, rels))), rel) == Subtree(Sanitise(t), rel)
            <==> Spared(ns, project, tests, t, rels, rel)
  {
    var xs := Struck(ns, project, tests, rels);
    SanitisePurgeAll(t, xs);
    PurgedApartIff(Sanitise(t), xs, rel);
  }

  /** A harmless purge takes nothing from the hidden checkout. */
  lemma {:induction false} HarmlessStrikesNothing(ns: NodeMap, project: Path, tests: Path, rels: seq<Path>)
    requires Harmless(ns, project, tests, rels)
    ensures Struck(ns, project, tests, rels) == []
    decreases |rels|
  {
    if rels != [] { HarmlessStrikesNothing(PurgeNodes(ns, project, rels[0]), project, tests, rels[1..]); }
  }

  lemma {:induction false} HoldsSubtree(ns: NodeMap, p: Path, s: Tree, q: Path)
    requires WellFormed(ns) && Holds(ns, p, s)
    ensures HoldsOpt(ns, p + q, Subtree(s, q))
    decreases q
  {
    if q == [] {
      assert p + q == p;
    } else if s.Dir? && q[0] in s.entries {
      HoldsSubtree(ns, p + [q[0]], s.entries[q[0]], q[1..]);
      assert p + [q[0]] + q[1..] == p + q;
    } else if p + q in ns {
      assert p + [q[0]] <= p + q;
      PrefixExists(ns, p + q, p + [q[0]]);
      PrefixExists(ns, p + q, p);
    }
  }

  lemma HoldsOptFrame(a: NodeMap, b: NodeMap, p: Path, t: Option<Tree>)
    requires forall q :: p <= q ==> SameAt(a, b, q)
    ensures HoldsOpt(a, p, t) <==> HoldsOpt(b, p, t)
  {
    assert SameAt(a, b, p);
    if t.Some? {
      if Holds(a, p, t.value) { HoldsFrame(a, b, p, t.value); }
      if Holds(b, p, t.value) {
        forall q | p <= q ensures SameAt(b, a, q) { assert SameAt(a, b, q); }
        HoldsFrame(b, a, p, t.value);
      }
    }
  }

  // ---- The loop ----

  /** The purge loop of `merge_trees`. Nodes are only ever removed; on any exit nothing outside the project
      is touched when every path resolves inside it, and without faults there it succeeds. */
  method PurgePaths(fs: FileSystem, project: Path, rels: seq<Path>) returns (r: StageResult<()>)
    requires WellFormed(fs.nodes)
    modifies fs
    ensures r.Err? ==> r.error == MergeFailure()
    ensures WellFormed(fs.nodes) && Shrunk(old(fs.nodes), fs.nodes)
    ensures r.Ok? ==> fs.nodes == PurgeAllNodes(old(fs.nodes), project, rels)
    ensures Contained(old(fs.nodes), project, rels) ==> SameOutside(old(fs.nodes), fs.nodes, project)
    ensures Contained(old(fs.nodes), project, rels) && project != [] && fs.Reliable(project) ==> r.Ok?
    ensures OrdinaryRels(rels) && fs.Reliable([]) ==> r.Ok?
  {
    ghost var n0 := fs.nodes;
    var i := 0;
    while i < |rels|
      invariant 0 <= i <= |rels|
      invariant WellFormed(fs.nodes) && Shrunk(n0, fs.nodes)
      invariant PurgeAllNodes(fs.nodes, project, rels[i..]) == PurgeAllNodes(n0, project, rels)
      invariant Contained(n0, project, rels) ==>
                  Contained(fs.nodes, project, rels[i..]) && SameOutside(n0, fs.nodes, project)
    {
      ghost var n1 := fs.nodes;
      if OrdinaryRels(rels) { PlaceIsNamed(n1, project, rels[i]); }
      r := PurgeOne(fs, project, rels[i]);
      assert rels[i..][0] == rels[i] && rels[i..][1..] == rels[i + 1..];
      if Contained(n0, project, rels) {
        OutsideTrans(n0, n1, fs.nodes, project);
      }
      if r.Err? {
        return;
      }
      i := i + 1;
    }
    r := Ok(());
  }

  /** One turn of the purge loop. */
  method PurgeOne(fs: FileSystem, project: Path, relative: Path) returns (r: StageResult<()>)
    requires WellFormed(fs.nodes)
    modifies fs
    ensures r.Err? ==> r.error == MergeFailure()
    ensures WellFormed(fs.nodes) && Shrunk(old(fs.nodes), fs.nodes)
    ensures r.Ok? ==> fs.nodes == PurgeNodes(old(fs.nodes), project, relative)
    ensures var q := PurgePlace(old(fs.nodes), project, relative);
            && (q.Some? ==> SameOutside(old(fs.nodes), fs.nodes, q.value))
            && (q.None? || (q.value != [] && fs.Reliable(q.value)) ==> r.Ok?)
    ensures var q := PurgePlace(old(fs.nodes), project, relative);
            (q.Some? ==> project <= q.value) ==>
              SameOutside(old(fs.nodes), fs.nodes, project)
              && (project != [] && fs.Reliable(project) ==> r.Ok?)
  {
    var target := project + relative;
    var meta := fs.SymlinkMetadata(target);
    if meta.None? {
      return Ok(());
    }
    ghost var n0 := fs.nodes;
    var removed: bool;
    if meta.value.DirNode? {
      removed := fs.RemoveDirAll(target);
    } else {
      removed := fs.RemoveFile(target);
    }
    ghost var q := PurgePlace(n0, project, relative).value;
    assert SameOutside(n0, fs.nodes, q);
    if project <= q { InnerOutside(n0, fs.nodes, project, q); }
    assert q <= q;
    r := if removed then Ok(()) else Err(MergeFailure());
  }

  lemma InnerOutside(a: NodeMap, b: NodeMap, p: Path, q: Path)
    requires p <= q && SameOutside(a, b, q)
    ensures SameOutside(a, b, p)
  {
    forall r | !(p <= r) ensures SameAt(a, b, r) {
      assert q <= r ==> p <= r;
    }
  }

  // ---- Two checkouts with a link ----

  lemma TopIsPlain(ns: NodeMap, n: Name)
    requires [] in ns && ns[[]].DirNode? && [n] in ns && ns[[n]].DirNode? && Ordinary(n)
    ensures RealDir(ns, [n])
  {
    assert [n][..0] == [] && [n][..1] == [n];
  }

  /** A checkout `p` whose `src` is a link to a directory `o` beside it. */
  function LinkedCheckout(): NodeMap {
    map[[] := DirNode, ["p"] := DirNode, ["p", "src"] := LinkNode(true, ["o"]),
        ["o"] := DirNode, ["o", "test"] := DirNode]
  }

  lemma LinkedWalk()
    ensures Locate(LinkedCheckout(), ["p"] + ["src", "test"], false) == Some(["o", "test"])
  {
    var ns := LinkedCheckout();
    assert ["p"] + ["src", "test"] == ["p", "src", "test"];
    calc {
      Walk(ns, [], ["p", "src", "test"], 40, false);
    ==  { assert [] + ["p"] == ["p"] && ["p", "src", "test"][1..] == ["src", "test"]; }
      Walk(ns, ["p"], ["src", "test"], 40, false);
    ==  { assert ["p"] + ["src"] == ["p", "src"] && ["o"] + ["src", "test"][1..] == ["o", "test"]; }
      Walk(ns, [], ["o", "test"], 39, false);
    ==  { assert [] + ["o"] == ["o"] && ["o", "test"][1..] == ["test"]; }
      Walk(ns, ["o"], ["test"], 39, false);
    ==  { assert ["o"] + ["test"] == ["o", "test"]; }
      Some(["o", "test"]);
    }
  }

  /** On it the two-component purge path of the Java layout removes a directory outside the project, so the
      condition above is needed. */
  lemma PurgeThroughLink()
    ensures var ns := LinkedCheckout();
            && WellFormed(ns) && RealDir(ns, ["p"])
            && ["o", "test"] in ns && ["o", "test"] !in PurgeNodes(ns, ["p"], ["src", "test"])
  {
    var ns := LinkedCheckout();
    LinkedWalk();
    assert Parent(["p"]) == [] && Parent(["o"]) == [];
    assert Parent(["p", "src"]) == ["p"] && Parent(["o", "test"]) == ["o"];
    TopIsPlain(ns, "p");
  }

  /** A workspace whose student checkout has `src` linked to the `src` of the hidden checkout. */
  function LinkedToHidden(): NodeMap {
    map[[] := DirNode,
        ["project"] := DirNode, ["project", "src"] := LinkNode(false, ["..", "hidden", "src"]),
        ["hidden"] := DirNode, ["hidden", "src"] := DirNode, ["hidden", "src", "test"] := DirNode]
  }

  lemma LinkedToHiddenWalk()
    ensures PurgePlace(LinkedToHidden(), ["project"], ["src", "test"]) == Some(["hidden", "src", "test"])
  {
    var ns := LinkedToHidden();
    assert ["project"] + ["src", "test"] == ["project", "src", "test"];
    calc {
      Walk(ns, [], ["project", "src", "test"], 40, false);
    ==  { assert [] + ["project"] == ["project"] && ["project", "src", "test"][1..] == ["src", "test"]; }
      Walk(ns, ["project"], ["src", "test"], 40, false);
    ==  { assert ["project"] + ["src"] == ["project", "src"];
          assert ["..", "hidden", "src"] + ["src", "test"][1..] == ["..", "hidden", "src", "test"]; }
      Walk(ns, ["project"], ["..", "hidden", "src", "test"], 39, false);
    ==  { assert Parent(["project"]) == [];
          assert ["..", "hidden", "src", "test"][1..] == ["hidden", "src", "test"]; }
      Walk(ns, [], ["hidden", "src", "test"], 39, false);
    ==  { assert [] + ["hidden"] == ["hidden"] && ["hidden", "src", "test"][1..] == ["src", "test"]; }
      Walk(ns, ["hidden"], ["src", "test"], 39, false);
    ==  { assert ["hidden"] + ["src"] == ["hidden", "src"] && ["src", "test"][1..] == ["test"]; }
      Walk(ns, ["hidden", "src"], ["test"], 39, false);
    ==  { assert ["hidden", "src"] + ["test"] == ["hidden", "src", "test"]; }
      Some(["hidden", "src", "test"]);
    }
  }

  lemma LinkedToHiddenForm()
    ensures var ns := LinkedToHidden();
            WellFormed(ns) && RealDir(ns, ["project"]) && RealDir(ns, ["hidden"])
  {
    var ns := LinkedToHidden();
    assert Parent(["project"]) == [] && Parent(["hidden"]) == [] && Parent(["project", "src"]) == ["project"];
    assert Parent(["hidden", "src"]) == ["hidden"] && Parent(["hidden", "src", "test"]) == ["hidden", "src"];
    TopIsPlain(ns, "project");
    TopIsPlain(ns, "hidden");
  }

  lemma LinkedToHiddenPurged()
    ensures var b := PurgeNodes(LinkedToHidden(), ["project"], ["src", "test"]);
            b == map[[] := DirNode,
                     ["project"] := DirNode, ["project", "src"] := LinkNode(false, ["..", "hidden", "src"]),
                     ["hidden"] := DirNode, ["hidden", "src"] := DirNode]
  {
    var ns, gone := LinkedToHidden(), ["hidden", "src", "test"];
    LinkedToHiddenWalk();
    assert forall q :: q in ns && gone <= q ==> q == gone;
    assert gone <= gone;
  }

  /** The hidden checkout of that workspace. */
  function HiddenSuite(): Tree {
    Dir(map["src" := Dir(map["test" := Dir(map[])])])
  }

  /** There the purge of `src/test` empties the hidden suite itself, and the path is not spared: the overlay
      that follows has nothing left to put there. */
  lemma PurgeReachesHidden()
    ensures var ns := LinkedToHidden();
            && WellFormed(ns) && RealDir(ns, ["project"]) && RealDir(ns, ["hidden"])
            && Holds(ns, ["hidden"], HiddenSuite())
            && Holds(PurgeNodes(ns, ["project"], ["src", "test"]), ["hidden"], Dir(map["src" := Dir(map[])]))
    ensures !Harmless(LinkedToHidden(), ["project"], ["hidden"], [["src", "test"]])
    ensures !Spared(LinkedToHidden(), ["project"], ["hidden"], HiddenSuite(), [["src", "test"]], ["src", "test"])
  {
    LinkedToHiddenForm();
    LinkedToHiddenPurged();
    HiddenTree(LinkedToHidden(), true);
    HiddenTree(PurgeNodes(LinkedToHidden(), ["project"], ["src", "test"]), false);
    LinkedIsNotSpared();
  }

  lemma HiddenSuiteHasTests()
    ensures Subtree(Sanitise(HiddenSuite()), ["src", "test"]).Some?
  {
    assert ["src", "test"][1..] == ["test"] && ["test"][1..] == [];
    var src := Sanitise(HiddenSuite()).entries["src"];
    assert Subtree(src, ["test"]).Some?;
  }

  lemma LinkedIsNotSpared()
    ensures !Harmless(LinkedToHidden(), ["project"], ["hidden"], [["src", "test"]])
    ensures !Spared(LinkedToHidden(), ["project"], ["hidden"], HiddenSuite(), [["src", "test"]], ["src", "test"])
  {
    var ns, rel := LinkedToHidden(), ["src", "test"];
    LinkedIsStruck();
    HiddenSuiteHasTests();
    if Harmless(ns, ["project"], ["hidden"], [rel]) {
      HarmlessStrikesNothing(ns, ["project"], ["hidden"], [rel]);
    }
    assert Struck(ns, ["project"], ["hidden"], [rel])[0] == rel;
    assert !Apart(Sanitise(HiddenSuite()), rel, rel);
  }

  lemma LinkedIsStruck()
    ensures Struck(LinkedToHidden(), ["project"], ["hidden"], [["src", "test"]]) == [["src", "test"]]
  {
    var rel := ["src", "test"];
    LinkedToHiddenWalk();
    assert ["hidden", "src", "test"][1..] == rel && ["hidden"] < ["hidden", "src", "test"];
    assert [rel][0] == rel && [rel][1..] == [];
    var b := PurgeNodes(LinkedToHidden(), ["project"], rel);
    assert Struck(b, ["project"], ["hidden"], []) == [];
  }

  lemma HiddenTree(ns: NodeMap, full: bool)
    requires forall q :: q in ns && ["hidden"] <= q <==>
               q == ["hidden"] || q == ["hidden", "src"] || (full && q == ["hidden", "src", "test"])
    requires forall q :: q in ns && ["hidden"] <= q ==> ns[q] == DirNode
    ensures Holds(ns, ["hidden"], Dir(map["src" := if full then Dir(map["test" := Dir(map[])]) else Dir(map[])]))
  {
    var src := if full then Dir(map["test" := Dir(map[])]) else Dir(map[]);
    assert ["hidden"] + ["src"] == ["hidden", "src"];
    forall n ensures ["hidden", "src", "test"] + [n] !in ns { assert ["hidden"] <= ["hidden", "src", "test"] + [n]; }
    forall n ensures ["hidden", "src"] + [n] in ns <==> full && n == "test" {
      assert ["hidden"] <= ["hidden", "src"] + [n];
      assert (["hidden", "src"] + [n])[2] == n;
    }
    forall n ensures ["hidden"] + [n] in ns <==> n == "src" {
      assert ["hidden"] <= ["hidden"] + [n];
      assert (["hidden"] + [n])[1] == n;
    }
    assert full ==> ["hidden", "src"] + ["test"] == ["hidden", "src", "test"];
    assert full ==> Holds(ns, ["hidden", "src", "test"], Dir(map[]));
    assert Holds(ns, ["hidden", "src"], src);
  }
}
