/** `Workspace::create` of crates/grader_lib/src/workspace.rs and `prepare_rootfs` of
    crates/grader_lib/src/sandbox.rs: the directory of one task. */
module Layouts {
  import opened Trees
  import opened Nodes
  import opened FileSystems
  import opened Projects

  /** The directories of the sandbox root, in the order they are made. */
  const LAYOUT: seq<Path> := [["project"], ["out"], ["home"], ["tmp"], ["cache"], ["proc"], ["dev"], ["oldroot"],
                              ["usr"], ["bin"], ["sbin"], ["lib"], ["lib64"], ["etc"], ["opt"], ["dev", "shm"]]

  const DEV_FD: Path := ["dev", "fd"]
  const FD_LINK: Node := LinkNode(true, ["proc", "self", "fd"])

  /** The directories and the link by name. */
  lemma LayoutIs()
    ensures (set k | 0 <= k < |LAYOUT| :: LAYOUT[k]) ==
            {["project"], ["out"], ["home"], ["tmp"], ["cache"], ["proc"], ["dev"], ["oldroot"], ["usr"], ["bin"],
             ["sbin"], ["lib"], ["lib64"], ["etc"], ["opt"], ["dev", "shm"]}
    ensures DEV_FD == ["dev", "fd"] && FD_LINK == LinkNode(true, ["proc", "self", "fd"])
  {
    assert LAYOUT[0] == ["project"] && LAYOUT[1] == ["out"] && LAYOUT[2] == ["home"] && LAYOUT[3] == ["tmp"];
    assert LAYOUT[4] == ["cache"] && LAYOUT[5] == ["proc"] && LAYOUT[6] == ["dev"] && LAYOUT[7] == ["oldroot"];
    assert LAYOUT[8] == ["usr"] && LAYOUT[9] == ["bin"] && LAYOUT[10] == ["sbin"] && LAYOUT[11] == ["lib"];
    assert LAYOUT[12] == ["lib64"] && LAYOUT[13] == ["etc"] && LAYOUT[14] == ["opt"] && LAYOUT[15] == ["dev", "shm"];
  }

  /** No node is lost or altered. */
  ghost predicate Kept(a: NodeMap, b: NodeMap) {
    forall q :: q in a ==> SameAt(a, b, q)
  }

  /** A workspace that is not there yet, on a path without links. */
  ghost predicate Fresh(ns: NodeMap, root: Path) {
    Plain(ns, root) && root !in ns
  }

  /** Nothing fails at, above or below `root`. */
  ghost predicate Healthy(fs: FileSystem, root: Path) {
    forall q :: q <= root || root <= q ==> q !in fs.faulty
  }

  /** Below `root` there are only the first `i` directories of the layout. */
  ghost predicate Begun(ns: NodeMap, root: Path, i: nat)
    requires i <= |LAYOUT|
  {
    forall q :: q in ns && root < q ==> ns[q] == DirNode && exists k :: 0 <= k < i && q <= root + LAYOUT[k]
  }

  /** A workspace as it is made: the layout, and one link in it. */
  ghost predicate Skeletal(ns: NodeMap, root: Path) {
    forall q :: q in ns && root < q ==>
      if q == root + DEV_FD then ns[q] == FD_LINK
      else ns[q] == DirNode && exists k :: 0 <= k < |LAYOUT| && q <= root + LAYOUT[k]
  }

  /** The directories of a workspace and those on the way to it. */
  function DirectoriesOf(root: Path): set<Path> {
    (set i | 0 <= i <= |root| :: root[..i]) + (set k | 0 <= k < |LAYOUT| :: root + LAYOUT[k])
  }

  /** The map with a fresh workspace made in it. */
  function Made(ns: NodeMap, root: Path): NodeMap {
    (map q | q in DirectoriesOf(root) :: DirNode)[root + DEV_FD := FD_LINK] + ns
  }

  /** A fresh workspace as it may come out: the error of the last link is ignored. */
  ghost predicate CreatedFrom(a: NodeMap, b: NodeMap, root: Path) {
    b == Made(a, root) || b == Made(a, root) - {root + DEV_FD}
  }

  /** Every directory of the layout up to the `i`-th can be reached, through links or not. */
  ghost predicate LaidOut(ns: NodeMap, root: Path, i: nat)
    requires i <= |LAYOUT|
  {
    forall k :: 0 <= k < i ==> LeadsToDir(ns, root + LAYOUT[k])
  }

  lemma {:induction false} WalkKept(a: NodeMap, b: NodeMap, base: Path, rest: Path, links: nat)
    requires Kept(a, b)
    requires Walk(a, base, rest, links, true).Some? && Walk(a, base, rest, links, true).value in a
    ensures Walk(b, base, rest, links, true) == Walk(a, base, rest, links, true)
    decreases links, |rest|
  {
    if rest != [] {
      assert SameAt(a, b, base);
      var here := base + [rest[0]];
      if rest[0] == "." {
        WalkKept(a, b, base, rest[1..], links);
      } else if rest[0] == ".." {
        WalkKept(a, b, Parent(base), rest[1..], links);
      } else {
        assert here in a;
        assert SameAt(a, b, here);
        if a[here].LinkNode? {
          WalkKept(a, b, if a[here].absolute then [] else base, a[here].target + rest[1..], links - 1);
        } else if |rest| > 1 {
          WalkKept(a, b, here, rest[1..], links);
        }
      }
    }
  }

  lemma LaidOutKept(a: NodeMap, b: NodeMap, root: Path, i: nat)
    requires Kept(a, b) && i <= |LAYOUT| && LaidOut(a, root, i)
    ensures LaidOut(b, root, i)
  {
    forall k | 0 <= k < i ensures LeadsToDir(b, root + LAYOUT[k]) {
      assert LeadsToDir(a, root + LAYOUT[k]);
      WalkKept(a, b, [], root + LAYOUT[k], MAX_LINKS);
    }
  }

  /** `Workspace::create`: the task's directory with the layout of the sandbox root in it. Whatever was there,
      no node is lost or altered, and success makes every directory of the layout. A fresh workspace holds the
      layout and nothing else, all that is made lies inside it or on the way to it, and without faults it is
      made. */
  method CreateWorkspace(fs: FileSystem, root: Path) returns (ok: bool)
    requires WellFormed(fs.nodes)
    modifies fs
    ensures WellFormed(fs.nodes) && Kept(old(fs.nodes), fs.nodes)
    ensures ok ==> LaidOut(fs.nodes, root, |LAYOUT|)
    ensures Plain(old(fs.nodes), root) && ok ==> RealDir(fs.nodes, root)
    ensures Fresh(old(fs.nodes), root) ==>
              && Confined(old(fs.nodes), fs.nodes, root)
              && (ok ==> Skeletal(fs.nodes, root) && CreatedFrom(old(fs.nodes), fs.nodes, root))
              && (Healthy(fs, root) ==> ok && fs.nodes == Made(old(fs.nodes), root))
  {
    ghost var n0 := fs.nodes;
    ok := fs.CreateDirAll(root);
    ghost var n1 := fs.nodes;
    if Fresh(n0, root) { GrownFresh(n0, n1, root); }
    var i := 0;
    while ok && i < |LAYOUT|
      invariant 0 <= i <= |LAYOUT|
      invariant WellFormed(fs.nodes) && Kept(n0, n1) && Kept(n1, fs.nodes)
      invariant ok ==> LaidOut(fs.nodes, root, i)
      invariant Plain(n0, root) && ok ==> RealDir(n1, root)
      invariant Fresh(n0, root) ==> Confined(n0, fs.nodes, root) && Begun(fs.nodes, root, i)
      invariant Fresh(n0, root) && Healthy(fs, root) ==> ok
      decreases |LAYOUT| - i
    {
      if Plain(n0, root) { RealKept(n1, fs.nodes, root); }
      ok := AddDirectory(fs, root, i, n0, n1);
      i := i + 1;
    }
    if ok {
      if Plain(n0, root) { RealKept(n1, fs.nodes, root); }
      ghost var n2 := fs.nodes;
      fs.Symlink(root + DEV_FD, FD_LINK.absolute, FD_LINK.target);
      LinkAdded(n0, n1, n2, fs.nodes, root);
      if Fresh(n0, root) {
        LinkPlace(n2, root);
        assert root <= root + DEV_FD;
      }
      LaidOutKept(n2, fs.nodes, root, |LAYOUT|);
      if Fresh(n0, root) { WorkspaceIsMade(n0, fs.nodes, root); }
    }
  }

  /** One node of a made workspace. */
  lemma MadeAt(a: NodeMap, root: Path, q: Path)
    ensures SameAt(a, Made(a, root), q) || q !in a
    ensures q !in a && q != root + DEV_FD ==>
              (q in Made(a, root) <==> q <= root || exists k :: 0 <= k < |LAYOUT| && q == root + LAYOUT[k])
              && (q in Made(a, root) ==> Made(a, root)[q] == DirNode)
    ensures q !in a && q == root + DEV_FD ==> q in Made(a, root) && Made(a, root)[q] == FD_LINK
  {
    if q <= root { assert q == root[..|q|]; }
  }

  lemma LayoutMissesLink(root: Path, k: nat, i: nat)
    requires k < |LAYOUT| && |root| < i <= |root + LAYOUT[k]|
    ensures root < (root + LAYOUT[k])[..i] && (root + LAYOUT[k])[..i] != root + DEV_FD
  {
    var p := (root + LAYOUT[k])[..i];
    assert |LAYOUT[k]| == 2 ==> LAYOUT[k][1] == "shm";
    assert (root + DEV_FD)[|root| + 1] == "fd";
    if i == |root| + 2 { assert p[|root| + 1] == LAYOUT[k][1]; }
  }

  lemma BelowRootIsDir(ns: NodeMap, root: Path, q: Path)
    requires Skeletal(ns, root) && root < q && q != root + DEV_FD
    ensures q in ns ==> ns[q].DirNode?
  {
  }

  lemma OrdinaryLayout(root: Path, k: nat)
    requires OrdinaryPath(root) && k < |LAYOUT|
    ensures OrdinaryPath(root + LAYOUT[k])
  {
    assert OrdinaryPath(LAYOUT[k]);
  }

  lemma SkeletonIsPlain(ns: NodeMap, root: Path, k: nat)
    requires RealDir(ns, root) && Skeletal(ns, root) && k < |LAYOUT|
    ensures Plain(ns, root + LAYOUT[k])
  {
    var p := root + LAYOUT[k];
    OrdinaryLayout(root, k);
    forall i | 0 <= i <= |p| && p[..i] in ns ensures ns[p[..i]].DirNode? {
      if i <= |root| {
        assert p[..i] == root[..i];
      } else {
        LayoutMissesLink(root, k, i);
        BelowRootIsDir(ns, root, p[..i]);
      }
    }
  }

  lemma BelowRootIsLayout(root: Path, q: Path, k: nat)
    requires k < |LAYOUT| && root < q && q <= root + LAYOUT[k]
    ensures exists j :: 0 <= j < |LAYOUT| && q == root + LAYOUT[j]
  {
    if |q| == |root + LAYOUT[k]| {
      assert q == root + LAYOUT[k];
    } else {
      assert LAYOUT[k] == ["dev", "shm"] && LAYOUT[6] == ["dev"];
      assert q == (root + LAYOUT[k])[..|q|] == root + ["dev"];
      assert q == root + LAYOUT[6];
    }
  }

  lemma WorkspaceAt(a: NodeMap, b: NodeMap, root: Path, q: Path)
    requires WellFormed(a) && Fresh(a, root) && Kept(a, b) && Confined(a, b, root)
    requires WellFormed(b) && RealDir(b, root) && Skeletal(b, root) && LaidOut(b, root, |LAYOUT|)
    ensures q != root + DEV_FD || q in b ==> SameAt(b, Made(a, root), q)
  {
    MadeAt(a, root, q);
    if q in a {
      assert SameAt(a, b, q);
    } else if root < q {
      assert root < root + DEV_FD;
      if q in b && q != root + DEV_FD {
        var k :| 0 <= k < |LAYOUT| && q <= root + LAYOUT[k];
        BelowRootIsLayout(root, q, k);
      }
      if k :| 0 <= k < |LAYOUT| && q == root + LAYOUT[k] {
        SkeletonIsPlain(b, root, k);
        PlainIsDir(b, q);
      }
    } else if q <= root {
      PrefixExists(b, root, q);
      PlainUp(b, root);
    } else {
      assert !(root <= q);
      assert SameAt(a, b, q);
      forall k | 0 <= k < |LAYOUT| ensures q != root + LAYOUT[k] { assert root <= root + LAYOUT[k]; }
    }
  }

  lemma WorkspaceIsMade(a: NodeMap, b: NodeMap, root: Path)
    requires WellFormed(a) && Fresh(a, root) && Kept(a, b) && Confined(a, b, root)
    requires WellFormed(b) && RealDir(b, root) && Skeletal(b, root) && LaidOut(b, root, |LAYOUT|)
    ensures CreatedFrom(a, b, root) && (root + DEV_FD in b ==> b == Made(a, root))
  {
    var m := if root + DEV_FD in b then Made(a, root) else Made(a, root) - {root + DEV_FD};
    forall q ensures SameAt(b, m, q) { WorkspaceAt(a, b, root, q); }
    SameMaps(b, m);
  }

  lemma GrownFresh(a: NodeMap, b: NodeMap, root: Path)
    requires WellFormed(a) && Fresh(a, root) && GrownTowards(a, b, root)
    ensures Confined(a, b, root) && Begun(b, root, 0)
  {
    forall q | root < q ensures q !in b {
      assert SameAt(a, b, q);
      if q in a { PrefixExists(a, q, root); }
    }
  }

  lemma RealKept(a: NodeMap, b: NodeMap, root: Path)
    requires WellFormed(a) && RealDir(a, root) && Kept(a, b)
    ensures RealDir(b, root)
  {
    forall i | 0 <= i <= |root| && root[..i] in b ensures b[root[..i]].DirNode? {
      PrefixExists(a, root, root[..i]);
      assert SameAt(a, b, root[..i]);
    }
  }

  /** One turn of the loop of `prepare_rootfs`. */
  method AddDirectory(fs: FileSystem, root: Path, i: nat, ghost n0: NodeMap, ghost n1: NodeMap) returns (ok: bool)
    requires WellFormed(fs.nodes) && Kept(n1, fs.nodes) && i < |LAYOUT| && LaidOut(fs.nodes, root, i)
    requires Fresh(n0, root) ==> RealDir(fs.nodes, root) && Confined(n0, fs.nodes, root) && Begun(fs.nodes, root, i)
    modifies fs
    ensures WellFormed(fs.nodes) && Kept(n1, fs.nodes) && (ok ==> LaidOut(fs.nodes, root, i + 1))
    ensures Fresh(n0, root) ==> Confined(n0, fs.nodes, root) && Begun(fs.nodes, root, i + 1)
    ensures Fresh(n0, root) && Healthy(fs, root) ==> ok
  {
    ghost var n2 := fs.nodes;
    var p := root + LAYOUT[i];
    if Fresh(n0, root) { LayoutIsPlain(n2, root, i); }
    if Healthy(fs, root) {
      forall q | q <= p ensures q !in fs.faulty { assert root <= p; }
    }
    ok := fs.CreateDirAll(p);
    forall q | q in n1 ensures SameAt(n1, fs.nodes, q) { assert SameAt(n1, n2, q) && SameAt(n2, fs.nodes, q); }
    LaidOutKept(n2, fs.nodes, root, i);
    if Fresh(n0, root) { OneMore(n0, n2, fs.nodes, root, i); }
  }

  lemma LayoutIsPlain(ns: NodeMap, root: Path, i: nat)
    requires RealDir(ns, root) && i < |LAYOUT| && Begun(ns, root, i)
    ensures Plain(ns, root + LAYOUT[i])
  {
    var p := root + LAYOUT[i];
    assert OrdinaryPath(LAYOUT[i]);
    forall k | 0 <= k <= |p| && p[..k] in ns ensures ns[p[..k]].DirNode? {
      if k <= |root| { assert p[..k] == root[..k]; } else { assert root < p[..k]; }
    }
  }

  lemma OneMore(n0: NodeMap, n1: NodeMap, n2: NodeMap, root: Path, i: nat)
    requires WellFormed(n1) && RealDir(n1, root) && Confined(n0, n1, root)
    requires i < |LAYOUT| && Begun(n1, root, i) && GrownTowards(n1, n2, root + LAYOUT[i])
    ensures Confined(n0, n2, root) && Begun(n2, root, i + 1)
  {
    forall q | !(root <= q)
      ensures SameAt(n0, n2, q) || (q !in n0 && q in n2 && n2[q] == DirNode && q <= root)
    {
      if !SameAt(n1, n2, q) { PrefixExists(n1, root, q); }
    }
    forall q | q in n2 && root < q
      ensures n2[q] == DirNode && exists k :: 0 <= k < i + 1 && q <= root + LAYOUT[k]
    {
      if q in n1 {
        var k :| 0 <= k < i && q <= root + LAYOUT[k];
        assert SameAt(n1, n2, q);
      }
    }
  }

  /** The link of `prepare_rootfs` changes nothing else. */
  lemma LinkAdded(n0: NodeMap, n1: NodeMap, n2: NodeMap, n3: NodeMap, root: Path)
    requires WellFormed(n1) && WellFormed(n2) && Kept(n0, n1) && Kept(n1, n2)
    requires n3 == n2 || (var q := Locate(n2, root + DEV_FD, false);
                          q.Some? && q.value !in n2 && n3 == n2[q.value := FD_LINK])
    ensures Kept(n0, n3) && Kept(n2, n3) && (RealDir(n1, root) ==> RealDir(n3, root))
    ensures RealDir(n2, root) && Confined(n0, n2, root) && Begun(n2, root, |LAYOUT|) ==>
              Confined(n0, n3, root) && Skeletal(n3, root)
  {
    forall q | q in n0 ensures SameAt(n0, n3, q) { assert SameAt(n0, n1, q) && SameAt(n1, n2, q); }
    forall q | q in n1 ensures SameAt(n1, n3, q) { assert SameAt(n1, n2, q); }
    if RealDir(n1, root) { RealKept(n1, n3, root); }
    if RealDir(n2, root) && Confined(n0, n2, root) && Begun(n2, root, |LAYOUT|) {
      LinkPlace(n2, root);
      assert root <= root + DEV_FD;
      forall q | !(root <= q)
        ensures SameAt(n0, n3, q) || (q !in n0 && q in n3 && n3[q] == DirNode && q <= root)
      {
        assert SameAt(n0, n2, q) || (q !in n0 && q in n2 && n2[q] == DirNode && q <= root);
      }
    }
  }

  lemma LinkPlace(ns: NodeMap, root: Path)
    requires WellFormed(ns) && RealDir(ns, root) && Begun(ns, root, |LAYOUT|)
    ensures var q := Locate(ns, root + DEV_FD, false); q.Some? ==> q.value == root + DEV_FD
    ensures LaidOut(ns, root, |LAYOUT|) ==> Locate(ns, root + DEV_FD, false).Some?
    ensures root + DEV_FD !in ns
  {
    var dev := root + ["dev"];
    assert root < dev && dev + ["fd"] == root + DEV_FD && LAYOUT[6] == ["dev"];
    PlainChild(ns, root, "dev");
    PlainIsDir(ns, dev);
    LocatePlain(ns, dev, "fd", false);
    assert root < root + DEV_FD && (root + DEV_FD)[|root| + 1] == "fd";
    forall k | 0 <= k < |LAYOUT| ensures !(root + DEV_FD <= root + LAYOUT[k]) {
      assert |LAYOUT[k]| > 1 ==> (root + LAYOUT[k])[|root| + 1] == "shm";
    }
  }

  /** A fresh workspace has room for both clones. */
  lemma SkeletonIsRoomy(ns: NodeMap, root: Path)
    requires Skeletal(ns, root)
    ensures Roomy(ns, root)
  {
    var project, tests := root + [PROJECT], root + [HIDDEN];
    assert (root + DEV_FD)[|root|] == "dev";
    assert tests[|root|] == HIDDEN && project[|root|] == PROJECT;
    InSkeleton(ns, root, tests);
    InSkeleton(ns, root, project);
    forall n ensures n !in ChildNames(ns, project) {
      ChildNamesAre(ns, project, n);
      assert (project + [n])[|root|] == PROJECT && |project + [n]| > |project|;
      InSkeleton(ns, root, project + [n]);
    }
  }

  lemma InSkeleton(ns: NodeMap, root: Path, q: Path)
    requires Skeletal(ns, root) && root < q
    ensures q in ns && q[|root|] != "dev" ==> ns[q].DirNode? && |q| == |root| + 1 && q[|root|] != HIDDEN
  {
    assert (root + DEV_FD)[|root|] == "dev";
    if q in ns && q != root + DEV_FD {
      var k :| 0 <= k < |LAYOUT| && q <= root + LAYOUT[k];
      assert q[|root|] == (root + LAYOUT[k])[|root|];
    }
  }
}
