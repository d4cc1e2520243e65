/** crates/grader_lib/src/workspace.rs, `dir_size` and `prepare_project`: both checkouts, the size gate, the
    merge and the removal of the hidden checkout, in one workspace directory. */
module Projects {
  import opened Wrappers
  import opened Trees
  import opened Nodes
  import opened FileSystems
  import opened Workspaces
  import opened Purging
  import opened Merging
  import Grading

  // ---- The size gate ----

  /** Bytes in the regular files of `t` that no faulty place hides, at or on the way from `p`. */
  ghost function Visible(faulty: iset<Path>, p: Path, t: Tree): nat
    decreases t
  {
    if p in faulty then 0
    else
      match t
      case File(bytes) => |bytes|
      case Link(_, _) => 0
      case Dir(es) => Total(map n | n in es :: Visible(faulty, p + [n], es[n]))
  }

  ghost function Visibles(faulty: iset<Path>, p: Path, es: map<Name, Tree>): map<Name, nat> {
    map n | n in es :: Visible(faulty, p + [n], es[n])
  }

  /** Without faults every byte is visible. */
  lemma {:induction false} AllVisible(faulty: iset<Path>, p: Path, t: Tree)
    requires forall q :: p <= q ==> q !in faulty
    ensures Visible(faulty, p, t) == SizeOf(t)
    decreases t
  {
    assert p <= p;
    if t.Dir? {
      forall n | n in t.entries ensures Visible(faulty, p + [n], t.entries[n]) == SizeOf(t.entries[n]) {
        forall q | p + [n] <= q ensures q !in faulty { assert p <= p + [n] <= q; }
        AllVisible(faulty, p + [n], t.entries[n]);
      }
      assert Visibles(faulty, p, t.entries) == Sizes(t.entries);
    }
  }

  /** No place on the way from `p` to `p + q` is faulty. */
  ghost predicate InSight(faulty: iset<Path>, p: Path, q: Path) {
    forall k :: 0 <= k <= |q| ==> p + q[..k] !in faulty
  }

  lemma TotalChange(a: map<Name, nat>, b: map<Name, nat>, n: Name)
    requires n in a && a - {n} == b - {n}
    ensures Total(a) == Total(b) + a[n] - if n in b then b[n] else 0
  {
    TotalSplit(a, n);
    if n in b { TotalSplit(b, n); } else { assert b - {n} == b; }
  }

  lemma InSightBelow(faulty: iset<Path>, p: Path, q: Path)
    requires q != []
    ensures InSight(faulty, p, q) <==> p !in faulty && InSight(faulty, p + [q[0]], q[1..])
  {
    forall k | 0 <= k < |q| ensures p + q[..k + 1] == p + [q[0]] + q[1..][..k] {}
    assert p + q[..0] == p;
    if p !in faulty && InSight(faulty, p + [q[0]], q[1..]) {
      forall k | 0 <= k <= |q| ensures p + q[..k] !in faulty {
        if k > 0 { assert p + [q[0]] + q[1..][..k - 1] !in faulty; }
      }
    }
  }

  /** A regular file counts with all its bytes, if no faulty place hides it; taking it away takes exactly these.
      With `NothingToCount` this fixes both sums. */
  lemma {:induction false} FileCounts(faulty: iset<Path>, p: Path, t: Tree, q: Path, bytes: Bytes)
    requires q != [] && Subtree(t, q) == Some(File(bytes))
    ensures Visible(faulty, p, t) == Visible(faulty, p, Purge(t, q)) + if InSight(faulty, p, q) then |bytes| else 0
    decreases q
  {
    var n, es, es' := q[0], t.entries, Purge(t, q).entries;
    InSightBelow(faulty, p, q);
    assert InSight(faulty, p + [n], []) <==> p + [n] + [][..0] !in faulty;
    assert p + [n] + [][..0] == p + [n];
    if |q| > 1 { FileCounts(faulty, p + [n], es[n], q[1..], bytes); } else { assert q[1..] == []; }
    assert Visibles(faulty, p, es) - {n} == Visibles(faulty, p, es') - {n};
    TotalChange(Visibles(faulty, p, es), Visibles(faulty, p, es'), n);
  }

  lemma AllZero(m: map<Name, nat>)
    requires forall n :: n in m ==> m[n] == 0
    ensures Total(m) == 0
    decreases |m|
  {
    if m != map[] {
      var n :| n in m;
      TotalSplit(m, n);
      AllZero(m - {n});
    }
  }

  /** A tree without regular files counts nothing, and a file alone all its bytes. */
  lemma {:induction false} NothingToCount(faulty: iset<Path>, p: Path, t: Tree)
    requires forall q :: Subtree(t, q).Some? ==> !Subtree(t, q).value.File?
    ensures Visible(faulty, p, t) == 0
    decreases t
  {
    assert Subtree(t, []) == Some(t);
    if t.Dir? {
      forall n | n in t.entries ensures Visible(faulty, p + [n], t.entries[n]) == 0 {
        forall q | Subtree(t.entries[n], q).Some? ensures !Subtree(t.entries[n], q).value.File? {
          assert ([n] + q)[1..] == q && Subtree(t, [n] + q) == Subtree(t.entries[n], q);
        }
        NothingToCount(faulty, p + [n], t.entries[n]);
      }
      AllZero(Visibles(faulty, p, t.entries));
    }
  }

  /** All bytes are those seen when nothing is faulty. */
  lemma SizeIsVisible(p: Path, t: Tree)
    ensures SizeOf(t) == Visible(iset{}, p, t)
  {
    AllVisible(iset{}, p, t);
  }

  ghost function Picked(w: map<Name, nat>, names: set<Name>): map<Name, nat> {
    map n | n in w && n in names :: w[n]
  }

  lemma PickedGrows(w: map<Name, nat>, names: set<Name>, n: Name)
    requires n in w && n !in names
    ensures Total(Picked(w, names + {n})) == Total(Picked(w, names)) + w[n]
  {
    TotalSplit(Picked(w, names + {n}), n);
    assert Picked(w, names + {n}) - {n} == Picked(w, names);
  }

  /** The share of the entries listed up to the `i`-th. */
  ghost function UpTo(w: map<Name, nat>, names: seq<Name>, i: nat): nat
    requires i <= |names|
  {
    Total(Picked(w, Seen(names, i)))
  }

  lemma UpToGrows(w: map<Name, nat>, es: map<Name, Tree>, names: seq<Name>, i: nat)
    requires Listing(es, names) && w.Keys == es.Keys && i < |names|
    ensures names[i] in es && UpTo(w, names, i + 1) == UpTo(w, names, i) + w[names[i]]
  {
    SeenGrows(es, names, i);
    PickedGrows(w, Seen(names, i), names[i]);
  }

  lemma UpToEnds(w: map<Name, nat>, es: map<Name, Tree>, names: seq<Name>)
    requires Listing(es, names) && w.Keys == es.Keys
    ensures UpTo(w, names, 0) == 0 && UpTo(w, names, |names|) == Total(w)
  {
    assert names[..|names|] == names;
    assert Picked(w, Seen(names, |names|)) == w;
    assert Picked(w, Seen(names, 0)) == map[];
  }

  /** The sum so far, between what is visible and what is there. */
  ghost predicate Between(faulty: iset<Path>, dir: Path, es: map<Name, Tree>, names: seq<Name>, i: nat, total: nat)
    requires i <= |names|
  {
    UpTo(Visibles(faulty, dir, es), names, i) <= total <= UpTo(Sizes(es), names, i)
  }

  lemma BetweenGrows(faulty: iset<Path>, dir: Path, es: map<Name, Tree>, names: seq<Name>, i: nat, total: nat,
                     size: nat)
    requires Listing(es, names) && i < |names| && Between(faulty, dir, es, names, i, total)
    requires names[i] in es && Visible(faulty, dir + [names[i]], es[names[i]]) <= size <= SizeOf(es[names[i]])
    ensures Between(faulty, dir, es, names, i + 1, total + size)
  {
    UpToGrows(Visibles(faulty, dir, es), es, names, i);
    UpToGrows(Sizes(es), es, names, i);
  }

  lemma NothingBetween(faulty: iset<Path>, dir: Path, es: map<Name, Tree>, names: seq<Name>)
    requires Listing(es, names)
    ensures Between(faulty, dir, es, names, 0, 0)
  {
    UpToEnds(Visibles(faulty, dir, es), es, names);
    UpToEnds(Sizes(es), es, names);
  }

  lemma AllBetween(faulty: iset<Path>, dir: Path, es: map<Name, Tree>, names: seq<Name>, total: nat)
    requires Listing(es, names) && Between(faulty, dir, es, names, |names|, total)
    ensures Visible(faulty, dir, Dir(es)) <= total <= SizeOf(Dir(es))
  {
    UpToEnds(Visibles(faulty, dir, es), es, names);
    UpToEnds(Sizes(es), es, names);
  }

  /** `dir_size`: entries that cannot be read are left out of the sum, so it lies between the bytes that no
      faulty place hides and all of them, and is exact without faults. */
  method DirSize(fs: FileSystem, dir: Path, ghost t: Tree) returns (total: nat)
    requires WellFormed(fs.nodes) && RealDir(fs.nodes, dir) && Holds(fs.nodes, dir, t)
    ensures Visible(fs.faulty, dir, t) <= total <= SizeOf(t)
    ensures fs.Reliable(dir) ==> total == SizeOf(t)
    decreases t, 1
  {
    LocatePlainDir(fs.nodes, dir);
    PlainUp(fs.nodes, dir);
    if fs.Reliable(dir) { AllVisible(fs.faulty, dir, t); }
    var entries := fs.ReadDir(dir);
    if entries.None? {
      return 0;
    }
    var names := entries.value;
    ListingIsComplete(fs.nodes, dir, t.entries, names);
    total := SizeListed(fs, dir, names, t);
  }

  /** The loop of `dir_size` over the names of a directory. */
  method SizeListed(fs: FileSystem, dir: Path, names: seq<Name>, ghost t: Tree) returns (total: nat)
    requires WellFormed(fs.nodes) && RealDir(fs.nodes, dir) && Holds(fs.nodes, dir, t)
    requires t.Dir? && Listing(t.entries, names)
    ensures Visible(fs.faulty, dir, t) <= total <= SizeOf(t)
    decreases t, 0
  {
    ghost var es := t.entries;
    NothingBetween(fs.faulty, dir, es, names);
    total := 0;
    var i := 0;
    while i < |names|
      invariant 0 <= i <= |names|
      invariant Between(fs.faulty, dir, es, names, i, total)
    {
      var size := EntrySize(fs, dir, names[i], es[names[i]]);
      BetweenGrows(fs.faulty, dir, es, names, i, total, size);
      total := total + size;
      i := i + 1;
    }
    AllBetween(fs.faulty, dir, es, names, total);
  }

  /** One turn of the loop of `dir_size`. */
  method EntrySize(fs: FileSystem, dir: Path, name: Name, ghost t: Tree) returns (size: nat)
    requires WellFormed(fs.nodes) && RealDir(fs.nodes, dir) && Ordinary(name) && Holds(fs.nodes, dir + [name], t)
    ensures Visible(fs.faulty, dir + [name], t) <= size <= SizeOf(t)
    decreases t, 2
  {
    LocatePlain(fs.nodes, dir, name, false);
    var readable := fs.EntryReadable(dir, name);
    var meta := fs.SymlinkMetadata(dir + [name]);
    if !readable || meta.None? {
      return 0;
    }
    match meta.value
    case LinkNode(_, _) =>
      return 0;
    case DirNode =>
      PlainChild(fs.nodes, dir, name);
      size := DirSize(fs, dir + [name], t);
    case FileNode(bytes) =>
      return |bytes|;
  }

  /** Removing nodes can only make a tree smaller. */
  lemma {:induction false} ShrunkSize(a: NodeMap, b: NodeMap, p: Path, ta: Tree, tb: Tree)
    requires Holds(a, p, ta) && Holds(b, p, tb) && Shrunk(a, b)
    ensures SizeOf(tb) <= SizeOf(ta)
    decreases ta
  {
    if ta.Dir? {
      forall n | n in tb.entries
        ensures n in ta.entries && Sizes(tb.entries)[n] <= Sizes(ta.entries)[n]
      {
        assert p + [n] in b;
        ShrunkSize(a, b, p + [n], ta.entries[n], tb.entries[n]);
      }
      TotalBound(Sizes(tb.entries), Sizes(ta.entries), map[]);
    }
  }

  /** Removing nodes puts no symlink in anyone's way. */
  lemma {:induction false} ShrunkLinkFree(a: NodeMap, b: NodeMap, p: Path, ta: Tree, tb: Tree, rel: Path)
    requires Holds(a, p, ta) && Holds(b, p, tb) && Shrunk(a, b) && LinkFree(ta, rel)
    ensures LinkFree(tb, rel)
    decreases rel
  {
    if |rel| > 1 && tb.Dir? && rel[0] in tb.entries {
      assert p + [rel[0]] in b;
      ShrunkLinkFree(a, b, p + [rel[0]], ta.entries[rel[0]], tb.entries[rel[0]], rel[1..]);
    }
  }

  // ---- The clones ----

  const PROJECT: Name := "project"
  const HIDDEN: Name := "hidden-tests"

  predicate HttpLink(link: string) {
    "https://" <= link || "http://" <= link
  }

  /** A link that begins with one of the two schemes. */
  ghost predicate WebLink(link: string) {
    (|link| >= 7 && link[..7] == "http://") || (|link| >= 8 && link[..8] == "https://")
  }

  lemma HttpLinkIs(link: string)
    ensures HttpLink(link) <==> WebLink(link)
  {
  }

  /** Why `git clone` delivers nothing: it could not be run, ran out of time, or ended with an error. */
  datatype CloneFault = NotRun | TooLate | Refused

  /** What `git clone` does: it delivers a directory tree, or fails. */
  datatype Checkout = Delivered(tree: Tree) | Failed(fault: CloneFault)

  predicate Deliverable(c: Checkout) {
    c.Delivered? ==> c.tree.Dir? && OrdinaryTree(c.tree)
  }

  function CloneError(status: Grading.GradeStatus): Grading.GraderError {
    Grading.GraderError(Grading.Clone, status, None)
  }

  predicate IsCloneError(e: Grading.GraderError) {
    && e.stage == Grading.Clone && !e.status.IsGraded() && e.logs.None?
    && (e.status.CloneFailed? || e.status.Timeout? || e.status.InternalError?)
  }

  predicate IsMergeError(e: Grading.GraderError) {
    && e.stage == Grading.Merge && !e.status.IsGraded() && e.logs.None?
    && (e.status.MergeFailed? || e.status.InternalError?)
  }

  /** The status of a clone that does not arrive. */
  ghost function CloneStatus(link: string, c: Checkout): Grading.GradeStatus {
    if !WebLink(link) || c.Delivered? then Grading.GradeStatus.CloneFailed
    else
      match c.fault
      case NotRun => Grading.GradeStatus.InternalError
      case TooLate => Grading.GradeStatus.Timeout
      case Refused => Grading.GradeStatus.CloneFailed
  }

  ghost predicate Arrives(link: string, c: Checkout) {
    WebLink(link) && c.Delivered?
  }

  /** Room for a clone: nothing there, or an empty directory. */
  predicate Vacant(ns: NodeMap, p: Path) {
    p in ns ==> ns[p].DirNode? && ChildNames(ns, p) == {}
  }

  /** The maps agree outside `p`, over the nodes either one has. */
  predicate Agrees(a: NodeMap, b: NodeMap, p: Path) {
    forall q | q in a.Keys + b.Keys && !(p <= q) :: q in a && q in b && a[q] == b[q]
  }

  /** `git_clone`: exactly the tree delivered, or a clone error with anything at all left at `dest`. */
  method GitClone(fs: FileSystem, link: string, dest: Path, checkout: Checkout) returns (r: StageResult<()>)
    requires WellFormed(fs.nodes) && Deliverable(checkout)
    requires dest != [] && RealDir(fs.nodes, Parent(dest)) && Ordinary(dest[|dest| - 1])
    modifies fs
    ensures WellFormed(fs.nodes) && SameOutside(old(fs.nodes), fs.nodes, dest)
    ensures r.Err? ==> IsCloneError(r.error)
    ensures r.Ok? <==> Arrives(link, checkout) && Vacant(old(fs.nodes), dest)
    ensures r.Ok? ==> Holds(fs.nodes, dest, checkout.tree)
    ensures r.Err? ==> r.error.status == CloneStatus(link, checkout)
    ensures !WebLink(link) ==> fs.nodes == old(fs.nodes)
  {
    HttpLinkIs(link);
    if !HttpLink(link) {
      return Err(CloneError(Grading.GradeStatus.CloneFailed));
    }
    if checkout.Failed? {
      if checkout.fault.NotRun? {
        return Err(CloneError(Grading.GradeStatus.InternalError));
      }
      var left: NodeMap := *;
      if WellFormed(left) && Agrees(fs.nodes, left, dest) {
        fs.nodes := left;
      }
      var status := if checkout.fault.TooLate? then Grading.GradeStatus.Timeout else Grading.GradeStatus.CloneFailed;
      return Err(CloneError(status));
    }
    if !Vacant(fs.nodes, dest) {
      return Err(CloneError(Grading.GradeStatus.CloneFailed));
    }
    PlainUp(fs.nodes, Parent(dest));
    InstallHolds(fs.nodes, dest, checkout.tree);
    fs.nodes := Install(fs.nodes, dest, checkout.tree);
    return Ok(());
  }

  lemma OutsideUp(a: NodeMap, b: NodeMap, p: Path, n: Name)
    requires SameOutside(a, b, p + [n])
    ensures SameOutside(a, b, p)
  {
    forall q | !(p <= q) ensures SameAt(a, b, q) {
      assert p + [n] <= q ==> p <= q;
    }
  }

  /** A directory of the workspace stays reachable whatever happens below another entry. */
  lemma RootStays(a: NodeMap, b: NodeMap, root: Path, n: Name)
    requires WellFormed(a) && RealDir(a, root) && SameOutside(a, b, root + [n])
    ensures RealDir(b, root)
  {
    forall i | 0 <= i <= |root| && root[..i] in b ensures b[root[..i]].DirNode? {
      assert SameAt(a, b, root[..i]);
    }
    assert SameAt(a, b, root);
  }

  lemma EntryIsReal(ns: NodeMap, root: Path, n: Name)
    requires RealDir(ns, root) && Ordinary(n) && root + [n] in ns && ns[root + [n]].DirNode?
    ensures RealDir(ns, root + [n])
  {
    PlainChild(ns, root, n);
  }

  lemma SiblingStays(a: NodeMap, b: NodeMap, root: Path, m: Name, n: Name)
    requires SameOutside(a, b, root + [n]) && m != n
    ensures forall q :: root + [m] <= q ==> SameAt(a, b, q)
  {
    forall q | root + [m] <= q ensures SameAt(a, b, q) {
      Siblings(root, m, n, q[|root| + 1..]);
      assert q == root + [m] + q[|root| + 1..];
    }
  }

  lemma VacancyStays(a: NodeMap, b: NodeMap, p: Path)
    requires forall q :: p <= q ==> SameAt(a, b, q)
    ensures Vacant(a, p) == Vacant(b, p)
  {
    assert SameAt(a, b, p);
    forall n ensures n in ChildNames(a, p) <==> n in ChildNames(b, p) {
      ChildNamesAre(a, p, n);
      ChildNamesAre(b, p, n);
      assert SameAt(a, b, p + [n]);
    }
  }

  /** Both links are http(s), both clones arrive, and they are within the limit together. */
  ghost predicate Fetches(studentLink: string, testLink: string, student: Checkout, hidden: Checkout, maxBytes: nat) {
    && Arrives(studentLink, student) && Arrives(testLink, hidden)
    && SizeOf(student.tree) + SizeOf(hidden.tree) <= maxBytes
  }

  /** The status of a fetch that fails: that of the first clone that does not arrive, or a clone failure when
      the two are too large. */
  ghost function FetchStatus(studentLink: string, testLink: string, student: Checkout, hidden: Checkout):
    Grading.GradeStatus
  {
    if !Arrives(studentLink, student) then CloneStatus(studentLink, student)
    else if !Arrives(testLink, hidden) then CloneStatus(testLink, hidden)
    else Grading.GradeStatus.CloneFailed
  }

  /** A workspace with room for both clones. */
  predicate Roomy(ns: NodeMap, root: Path) {
    Vacant(ns, root + [PROJECT]) && Vacant(ns, root + [HIDDEN])
  }

  /** The maps agree but for the two checkouts. */
  ghost predicate SameBeside(a: NodeMap, b: NodeMap, root: Path) {
    forall q :: !(root + [PROJECT] <= q) && !(root + [HIDDEN] <= q) ==> SameAt(a, b, q)
  }

  lemma BesideTrans(a: NodeMap, b: NodeMap, c: NodeMap, root: Path)
    requires SameBeside(a, b, root) || SameOutside(a, b, root + [PROJECT])
    requires SameOutside(b, c, root + [PROJECT]) || SameOutside(b, c, root + [HIDDEN])
    ensures SameBeside(a, c, root)
  {
    forall q | !(root + [PROJECT] <= q) && !(root + [HIDDEN] <= q) ensures SameAt(a, c, q) {
      assert SameAt(a, b, q) && SameAt(b, c, q);
    }
  }

  /** The map with `s` as the project and `t` as the hidden checkout, and nothing else in the two. */
  function Checkouts(ns: NodeMap, root: Path, s: Tree, t: Tree): NodeMap {
    Install(Install(ns, root + [PROJECT], s), root + [HIDDEN], t)
  }

  lemma InstalledSame(a: NodeMap, b: NodeMap, p: Path, t: Tree, q: Path)
    requires WellFormed(b) && Holds(b, p, t) && p <= q
    ensures SameAt(b, Install(a, p, t), q)
  {
    InstallAt(a, p, t, q);
    HoldsSubtree(b, p, t, q[|p|..]);
    assert q == p + q[|p|..];
  }

  lemma CheckoutsAre(a: NodeMap, b: NodeMap, root: Path, s: Tree, t: Tree)
    requires WellFormed(b) && SameBeside(a, b, root)
    requires Holds(b, root + [PROJECT], s) && Holds(b, root + [HIDDEN], t)
    ensures b == Checkouts(a, root, s, t)
  {
    var project, tests := root + [PROJECT], root + [HIDDEN];
    forall q ensures SameAt(b, Checkouts(a, root, s, t), q) {
      if tests <= q {
        InstalledSame(Install(a, project, s), b, tests, t, q);
      } else {
        InstallAt(Install(a, project, s), tests, t, q);
        if project <= q {
          InstalledSame(a, b, project, s, q);
        } else {
          InstallAt(a, project, s, q);
          assert SameAt(a, b, q);
        }
      }
    }
    SameMaps(b, Checkouts(a, root, s, t));
  }

  /** The first clone, into the empty directory that is removed before. */
  method FetchStudent(fs: FileSystem, root: Path, link: string, student: Checkout) returns (r: StageResult<()>)
    requires WellFormed(fs.nodes) && RealDir(fs.nodes, root) && Deliverable(student)
    modifies fs
    ensures WellFormed(fs.nodes) && SameOutside(old(fs.nodes), fs.nodes, root + [PROJECT]) && RealDir(fs.nodes, root)
    ensures r.Err? ==> IsCloneError(r.error)
    ensures r.Ok? ==> Arrives(link, student) && Holds(fs.nodes, root + [PROJECT], student.tree)
    ensures r.Err? ==> r.error.status == CloneStatus(link, student)
    ensures Arrives(link, student) && Vacant(old(fs.nodes), root + [PROJECT]) ==> r.Ok?
  {
    var project := root + [PROJECT];
    ghost var n0 := fs.nodes;
    LocatePlain(n0, root, PROJECT, false);
    fs.RemoveDir(project);
    ghost var n1 := fs.nodes;
    assert n1 == n0 || project !in n1 by { assert project <= project; }
    assert SameOutside(n0, n1, project);
    RootStays(n0, n1, root, PROJECT);
    assert Parent(project) == root;
    r := GitClone(fs, link, project, student);
    OutsideTrans(n0, n1, fs.nodes, project);
    RootStays(n1, fs.nodes, root, PROJECT);
  }

  /** The two checkouts and the size gate. */
  method FetchBoth(fs: FileSystem, root: Path, studentLink: string, testLink: string, maxBytes: nat,
                   student: Checkout, hidden: Checkout)
    returns (r: StageResult<()>)
    requires WellFormed(fs.nodes) && RealDir(fs.nodes, root) && Deliverable(student) && Deliverable(hidden)
    modifies fs
    ensures WellFormed(fs.nodes) && SameOutside(old(fs.nodes), fs.nodes, root) && RealDir(fs.nodes, root)
    ensures r.Err? ==> IsCloneError(r.error)
    ensures r.Ok? ==>
              && Arrives(studentLink, student) && Arrives(testLink, hidden)
              && RealDir(fs.nodes, root + [PROJECT]) && Holds(fs.nodes, root + [PROJECT], student.tree)
              && RealDir(fs.nodes, root + [HIDDEN]) && Holds(fs.nodes, root + [HIDDEN], hidden.tree)
    ensures r.Ok? ==> SameBeside(old(fs.nodes), fs.nodes, root)
    ensures r.Ok? ==> Visible(fs.faulty, root + [PROJECT], student.tree)
                      + Visible(fs.faulty, root + [HIDDEN], hidden.tree) <= maxBytes
    ensures r.Ok? && fs.Reliable(root) ==> SizeOf(student.tree) + SizeOf(hidden.tree) <= maxBytes
    ensures Roomy(old(fs.nodes), root) && Fetches(studentLink, testLink, student, hidden, maxBytes) ==> r.Ok?
    ensures Roomy(old(fs.nodes), root) && r.Err? ==>
              r == Err(CloneError(FetchStatus(studentLink, testLink, student, hidden)))
  {
    var project, tests := root + [PROJECT], root + [HIDDEN];
    ghost var n0 := fs.nodes;
    r := FetchStudent(fs, root, studentLink, student);
    ghost var n1 := fs.nodes;
    OutsideUp(n0, n1, root, PROJECT);
    if r.Err? {
      return;
    }
    SiblingStays(n0, n1, root, HIDDEN, PROJECT);
    VacancyStays(n0, n1, tests);
    assert Parent(tests) == root;
    r := GitClone(fs, testLink, tests, hidden);
    ghost var n2 := fs.nodes;
    OutsideUp(n1, n2, root, HIDDEN);
    OutsideTrans(n0, n1, n2, root);
    RootStays(n1, n2, root, HIDDEN);
    if r.Err? {
      return;
    }
    SiblingStays(n1, n2, root, PROJECT, HIDDEN);
    HoldsFrame(n1, n2, project, student.tree);
    EntryIsReal(n2, root, PROJECT);
    EntryIsReal(n2, root, HIDDEN);
    BelowRoot(fs, root);
    BesideTrans(n0, n1, n2, root);
    var a := DirSize(fs, project, student.tree);
    var b := DirSize(fs, tests, hidden.tree);
    if a + b > maxBytes {
      return Err(CloneError(Grading.GradeStatus.CloneFailed));
    }
    r := Ok(());
  }

  lemma BelowRoot(fs: FileSystem, root: Path)
    ensures fs.Reliable(root) ==> forall n :: fs.Reliable(root + [n])
  {
    if fs.Reliable(root) {
      forall n, q | root + [n] <= q ensures q !in fs.faulty { assert root <= root + [n] <= q; }
    }
  }

  lemma WithinRoot(n0: NodeMap, a: NodeMap, b: NodeMap, root: Path, n: Name)
    requires WellFormed(a) && RealDir(a, root) && SameOutside(n0, a, root) && SameOutside(a, b, root + [n])
    ensures SameOutside(n0, b, root) && RealDir(b, root)
  {
    OutsideUp(a, b, root, n);
    OutsideTrans(n0, a, b, root);
    RootStays(a, b, root, n);
  }

  /** The state the merge starts from. */
  lemma GitGone(n0: NodeMap, n1: NodeMap, n2: NodeMap, root: Path, student: Tree, s: Tree, t: Tree, rels: seq<Path>)
    requires WellFormed(n1) && WellFormed(n2) && RealDir(n1, root) && SameBeside(n0, n1, root)
    requires SameOutside(n0, n1, root) && SameOutside(n1, n2, root + [PROJECT]) && Shrunk(n1, n2)
    requires Holds(n1, root + [PROJECT], student) && Holds(n2, root + [PROJECT], s)
    requires RealDir(n1, root + [HIDDEN]) && Holds(n1, root + [HIDDEN], t)
    ensures n2 == Checkouts(n0, root, s, t) && SameOutside(n0, n2, root) && RealDir(n2, root)
    ensures RealDir(n2, root + [HIDDEN]) && Holds(n2, root + [HIDDEN], t)
    ensures SafePaths(student, rels) ==> SafePaths(s, rels)
    ensures SizeOf(Merge(s, t, rels)) <= SizeOf(s) + SizeOf(t)
  {
    Entries(root);
    WithinRoot(n0, n1, n2, root, PROJECT);
    ConfinedBeside(n1, n2, root + [PROJECT], root + [HIDDEN], t);
    BesideTrans(n0, n1, n2, root);
    CheckoutsAre(n0, n2, root, s, t);
    MergeSize(s, t, rels);
    forall i | 0 <= i < |rels| && SafePath(student, rels[i]) ensures SafePath(s, rels[i]) {
      ShrunkLinkFree(n1, n2, root + [PROJECT], student, s, rels[i]);
    }
  }

  lemma HiddenDropped(n0: NodeMap, n2: NodeMap, n3: NodeMap, n4: NodeMap, root: Path, s: Tree, t: Tree, rels: seq<Path>)
    requires WellFormed(n3) && SameOutside(n3, n4, root + [HIDDEN])
    ensures SameOutside(n0, n3, root) && RealDir(n3, root) ==> SameOutside(n0, n4, root) && RealDir(n4, root)
    ensures Holds(n3, root + [PROJECT], Merge(s, t, rels)) ==> Holds(n4, root + [PROJECT], Merge(s, t, rels))
    ensures KeptWhereSpared(n2, n3, root + [PROJECT], root + [HIDDEN], t, rels) ==>
              KeptWhereSpared(n2, n4, root + [PROJECT], root + [HIDDEN], t, rels)
  {
    var project := root + [PROJECT];
    if SameOutside(n0, n3, root) && RealDir(n3, root) { WithinRoot(n0, n3, n4, root, HIDDEN); }
    SiblingStays(n3, n4, root, PROJECT, HIDDEN);
    if Holds(n3, project, Merge(s, t, rels)) { HoldsFrame(n3, n4, project, Merge(s, t, rels)); }
    forall i | 0 <= i < |rels| ensures InPlace(n3, project, t, rels[i]) <==> InPlace(n4, project, t, rels[i]) {
      forall q | project + rels[i] <= q ensures SameAt(n3, n4, q) { assert project <= q; }
      HoldsOptFrame(n3, n4, project + rels[i], Subtree(Sanitise(t), rels[i]));
    }
  }

  lemma Entries(root: Path)
    ensures Diverge(root + [HIDDEN], root + [PROJECT])
    ensures Parent(root + [PROJECT]) == root
  {
    assert (root + [HIDDEN])[|root|] != (root + [PROJECT])[|root|];
  }

  /** The merge step, on the workspace's own two directories. */
  method MergeIn(fs: FileSystem, root: Path, purgePaths: seq<Path>, ghost s: Tree, ghost t: Tree)
    returns (r: StageResult<()>)
    requires WellFormed(fs.nodes)
    requires RealDir(fs.nodes, root + [PROJECT]) && Holds(fs.nodes, root + [PROJECT], s)
    requires RealDir(fs.nodes, root + [HIDDEN]) && Holds(fs.nodes, root + [HIDDEN], t)
    modifies fs
    ensures WellFormed(fs.nodes)
    ensures r.Err? ==> r.error == Grading.GraderError(Grading.GradeStage.Merge, Grading.GradeStatus.MergeFailed, None)
    ensures Plain(fs.nodes, root)
    ensures Contained(old(fs.nodes), root + [PROJECT], purgePaths) ==>
              && SameOutside(old(fs.nodes), fs.nodes, root + [PROJECT])
              && root + [HIDDEN] in fs.nodes && fs.nodes[root + [HIDDEN]].DirNode?
    ensures r.Ok? && OrdinaryRels(purgePaths) ==>
              KeptWhereSpared(old(fs.nodes), fs.nodes, root + [PROJECT], root + [HIDDEN], t, purgePaths)
    ensures SafePaths(s, purgePaths) ==>
              && Inside(old(fs.nodes), root + [PROJECT], purgePaths)
              && (r.Ok? ==> Holds(fs.nodes, root + [PROJECT], Merge(s, t, purgePaths)))
    ensures Inside(old(fs.nodes), root + [PROJECT], purgePaths) && fs.Reliable(root) ==> r.Ok?
  {
    var project, tests := root + [PROJECT], root + [HIDDEN];
    ghost var n0 := fs.nodes;
    Entries(root);
    HoldsUnique(n0, project, s, TreeAt(n0, project));
    HoldsUnique(n0, tests, t, TreeAt(n0, tests));
    BelowRoot(fs, root);
    r := MergeTrees(fs, project, tests, purgePaths);
    PlainUp(n0, tests);
    if Contained(n0, project, purgePaths) {
      DivergeBelow(tests, project, tests, project);
      assert SameAt(n0, fs.nodes, tests);
    }
  }

  /** The last step: the hidden checkout goes before anything runs. */
  method DropHidden(fs: FileSystem, root: Path) returns (r: StageResult<()>)
    requires WellFormed(fs.nodes) && Plain(fs.nodes, root)
    modifies fs
    ensures WellFormed(fs.nodes) && SameOutside(old(fs.nodes), fs.nodes, root + [HIDDEN])
    ensures Plain(fs.nodes, root)
    ensures r.Ok? ==> root + [HIDDEN] !in fs.nodes
    ensures r.Err? ==> r.error == Grading.GraderError(Grading.GradeStage.Merge, Grading.GradeStatus.InternalError, None)
    ensures root + [HIDDEN] in old(fs.nodes) && old(fs.nodes)[root + [HIDDEN]].DirNode? && fs.Reliable(root) ==> r.Ok?
  {
    ghost var n0 := fs.nodes;
    LocatePlain(n0, root, HIDDEN, false);
    BelowRoot(fs, root);
    if root + [HIDDEN] in n0 { assert Parent(root + [HIDDEN]) == root; }
    var removed := fs.RemoveDirAll(root + [HIDDEN]);
    assert SameOutside(n0, fs.nodes, root + [HIDDEN]);
    ConfinedPlain(n0, fs.nodes, root, HIDDEN);
    r := if removed then Ok(()) else Err(Grading.GraderError(Grading.Merge, Grading.InternalError, None));
  }

  /** Dropping `.git` takes a directory or a symlink of that name and keeps a plain file; trees that are the same
      but for it have the same entry under every other name. */
  lemma GitDroppedIs(t: Tree, s: Tree)
    requires t.Dir? && s.Dir?
    ensures var d := GitDropped(t);
            && d.Dir? && SameButGit(t, d)
            && (".git" in d.entries <==> ".git" in t.entries && t.entries[".git"].File?)
            && (".git" in d.entries ==> d == t)
    ensures SameButGit(t, s) <==> forall n :: n != ".git" ==> Child(t.entries, n) == Child(s.entries, n)
  {
    SameButOne(t.entries, s.entries, ".git");
  }

  lemma SameButOne(a: map<Name, Tree>, b: map<Name, Tree>, g: Name)
    ensures a - {g} == b - {g} <==> forall n :: n != g ==> Child(a, n) == Child(b, n)
  {
    if forall n :: n != g ==> Child(a, n) == Child(b, n) {
      forall n ensures Child(a - {g}, n) == Child(b - {g}, n) {
        if n != g { assert Child(a, n) == Child(b, n); }
      }
      MapsFromChildren(a - {g}, b - {g});
    }
    if a - {g} == b - {g} {
      forall n | n != g ensures Child(a, n) == Child(b, n) { assert Child(a - {g}, n) == Child(b - {g}, n); }
    }
  }

  /** `remove_dir_all(project/.git)` with its error ignored. */
  method DropGit(fs: FileSystem, root: Path, ghost fetched: Tree) returns (ghost s: Tree)
    requires WellFormed(fs.nodes) && RealDir(fs.nodes, root + [PROJECT]) && Holds(fs.nodes, root + [PROJECT], fetched)
    modifies fs
    ensures WellFormed(fs.nodes) && SameOutside(old(fs.nodes), fs.nodes, root + [PROJECT])
    ensures Shrunk(old(fs.nodes), fs.nodes)
    ensures RealDir(fs.nodes, root + [PROJECT]) && Holds(fs.nodes, root + [PROJECT], s)
    ensures SizeOf(s) <= SizeOf(fetched) && SameButGit(fetched, s)
    ensures fs.Reliable(root + [PROJECT]) ==> s == GitDropped(fetched)
  {
    var project := root + [PROJECT];
    ghost var n0 := fs.nodes;
    LocatePlain(n0, project, GIT, false);
    assert project <= project + [GIT] <= project + [GIT];
    var removed := fs.RemoveDirAll(project + [GIT]);
    ghost var n1 := fs.nodes;
    GitKept(n0, n1, project);
    s := TreeAt(n1, project);
    GitRemoved(n0, n1, project, fetched, s);
  }

  lemma GitKept(a: NodeMap, b: NodeMap, p: Path)
    requires WellFormed(a) && RealDir(a, p) && Thinned(a, b, p + [GIT])
    ensures SameOutside(a, b, p + [GIT]) && SameOutside(a, b, p) && RealDir(b, p) && Shrunk(a, b)
  {
    assert SameOutside(a, b, p + [GIT]);
    OutsideUp(a, b, p, GIT);
    RootStays(a, b, p, GIT);
  }

  /** The student tree once some or all of its `.git` is gone. */
  lemma GitRemoved(a: NodeMap, b: NodeMap, p: Path, fetched: Tree, s: Tree)
    requires WellFormed(a) && WellFormed(b) && RealDir(a, p) && Holds(a, p, fetched) && Holds(b, p, s)
    requires SameOutside(a, b, p + [GIT]) && Shrunk(a, b)
    ensures SizeOf(s) <= SizeOf(fetched) && SameButGit(fetched, s)
    ensures p + [GIT] in a && !a[p + [GIT]].FileNode? && p + [GIT] !in b ==> s == GitDropped(fetched)
    ensures (p + [GIT] !in a || a[p + [GIT]].FileNode?) && b == a ==> s == GitDropped(fetched)
  {
    var git := p + [GIT];
    PlainUp(a, p);
    HoldsChild(a, p, fetched.entries, GIT);
    ShrunkSize(a, b, p, fetched, s);
    var left := if git in b then Some(TreeAt(b, git)) else None;
    HoldsReplace(a, b, p, GIT, fetched.entries, left);
    var es := if left.Some? then fetched.entries[GIT := left.value] else fetched.entries - {GIT};
    HoldsUnique(b, p, s, Dir(es));
    assert es - {GIT} == fetched.entries - {GIT};
    if b == a { HoldsUnique(b, p, s, fetched); }
  }

  // ---- The whole preparation ----

  /** Both clones, the size gate and the removal of `.git`: the map the merge starts from. */
  method FetchAndStrip(fs: FileSystem, root: Path, studentLink: string, testLink: string,
                       ghost purgePaths: seq<Path>, maxBytes: nat, student: Checkout, hidden: Checkout)
    returns (r: StageResult<()>, ghost s: Tree)
    requires WellFormed(fs.nodes) && RealDir(fs.nodes, root) && Deliverable(student) && Deliverable(hidden)
    modifies fs
    ensures WellFormed(fs.nodes) && SameOutside(old(fs.nodes), fs.nodes, root) && RealDir(fs.nodes, root)
    ensures r.Err? ==> IsCloneError(r.error)
    ensures r.Err? && Roomy(old(fs.nodes), root) ==>
              r == Err(CloneError(FetchStatus(studentLink, testLink, student, hidden)))
    ensures r.Ok? ==>
              && Arrives(studentLink, student) && Arrives(testLink, hidden)
              && SameButGit(student.tree, s) && (fs.Reliable(root) ==> s == GitDropped(student.tree))
              && Visible(fs.faulty, root + [PROJECT], student.tree)
                 + Visible(fs.faulty, root + [HIDDEN], hidden.tree) <= maxBytes
    ensures r.Ok? ==>
              && fs.nodes == Checkouts(old(fs.nodes), root, s, hidden.tree)
              && RealDir(fs.nodes, root + [PROJECT]) && Holds(fs.nodes, root + [PROJECT], s)
              && RealDir(fs.nodes, root + [HIDDEN]) && Holds(fs.nodes, root + [HIDDEN], hidden.tree)
              && (SafePaths(student.tree, purgePaths) ==> SafePaths(s, purgePaths))
    ensures r.Ok? && fs.Reliable(root) ==>
              && SizeOf(student.tree) + SizeOf(hidden.tree) <= maxBytes
              && SizeOf(Merge(s, hidden.tree, purgePaths)) <= maxBytes
    ensures Roomy(old(fs.nodes), root) && fs.Reliable(root) ==>
              (r.Ok? <==> Fetches(studentLink, testLink, student, hidden, maxBytes))
  {
    ghost var n0 := fs.nodes;
    s := Dir(map[]);
    r := FetchBoth(fs, root, studentLink, testLink, maxBytes, student, hidden);
    if r.Err? {
      return;
    }
    ghost var n1 := fs.nodes;
    s := DropGit(fs, root, student.tree);
    BelowRoot(fs, root);
    GitGone(n0, n1, fs.nodes, root, student.tree, s, hidden.tree, purgePaths);
  }

  /** The merge and the removal of the hidden checkout. */
  method MergeAndDrop(fs: FileSystem, root: Path, purgePaths: seq<Path>, ghost s: Tree, ghost t: Tree)
    returns (r: StageResult<()>)
    requires WellFormed(fs.nodes) && RealDir(fs.nodes, root)
    requires RealDir(fs.nodes, root + [PROJECT]) && Holds(fs.nodes, root + [PROJECT], s)
    requires RealDir(fs.nodes, root + [HIDDEN]) && Holds(fs.nodes, root + [HIDDEN], t)
    modifies fs
    ensures WellFormed(fs.nodes) && Plain(fs.nodes, root)
    ensures r.Err? ==> IsMergeError(r.error)
    ensures r.Ok? ==> root + [HIDDEN] !in fs.nodes
    ensures SafePaths(s, purgePaths) ==>
              && Inside(old(fs.nodes), root + [PROJECT], purgePaths)
              && (r.Ok? ==> Holds(fs.nodes, root + [PROJECT], Merge(s, t, purgePaths)))
    ensures Contained(old(fs.nodes), root + [PROJECT], purgePaths) ==>
              SameOutside(old(fs.nodes), fs.nodes, root) && RealDir(fs.nodes, root)
    ensures r.Ok? && OrdinaryRels(purgePaths) ==>
              KeptWhereSpared(old(fs.nodes), fs.nodes, root + [PROJECT], root + [HIDDEN], t, purgePaths)
    ensures Inside(old(fs.nodes), root + [PROJECT], purgePaths) && fs.Reliable(root) ==> r.Ok?
  {
    ghost var n2 := fs.nodes;
    r := MergeIn(fs, root, purgePaths, s, t);
    ghost var n3 := fs.nodes;
    if Contained(n2, root + [PROJECT], purgePaths) { WithinRoot(n2, n2, n3, root, PROJECT); }
    if r.Err? {
      return;
    }
    r := DropHidden(fs, root);
    HiddenDropped(n2, n2, n3, fs.nodes, root, s, t, purgePaths);
  }

  /** `prepare_project`. `student` and `hidden` are what the clones deliver; the tree `s` that is merged is
      the student's after `.git` was removed, so that the merge starts from `Checkouts(.., s, hidden.tree)`.
      The stages are recorded as they are entered. */
  method PrepareProject(fs: FileSystem, root: Path, studentLink: string, testLink: string, purgePaths: seq<Path>,
                        maxBytes: nat, student: Checkout, hidden: Checkout)
    returns (r: StageResult<()>, stages: seq<Grading.GradeStage>, ghost s: Tree)
    requires WellFormed(fs.nodes) && RealDir(fs.nodes, root) && Deliverable(student) && Deliverable(hidden)
    modifies fs
    ensures WellFormed(fs.nodes) && Plain(fs.nodes, root)
    ensures stages == [Grading.Clone] || stages == [Grading.Clone, Grading.Merge]
    ensures r.Err? ==> Grading.StoppedAt(stages, r.error)
    ensures r.Ok? ==> |stages| == 2 && root + [HIDDEN] !in fs.nodes
    ensures |stages| == 1 ==> SameOutside(old(fs.nodes), fs.nodes, root) && RealDir(fs.nodes, root)
    ensures |stages| == 2 ==>
              && Arrives(studentLink, student) && Arrives(testLink, hidden)
              && SameButGit(student.tree, s) && (fs.Reliable(root) ==> s == GitDropped(student.tree))
              && Visible(fs.faulty, root + [PROJECT], student.tree)
                 + Visible(fs.faulty, root + [HIDDEN], hidden.tree) <= maxBytes
    ensures |stages| == 1 ==> r.Err? && IsCloneError(r.error)
    ensures |stages| == 1 && Roomy(old(fs.nodes), root) ==>
              r == Err(CloneError(FetchStatus(studentLink, testLink, student, hidden)))
    ensures |stages| == 2 && r.Err? ==> IsMergeError(r.error)
    ensures |stages| == 2 && SafePaths(student.tree, purgePaths) ==>
              && Inside(Checkouts(old(fs.nodes), root, s, hidden.tree), root + [PROJECT], purgePaths)
              && (r.Ok? ==> Holds(fs.nodes, root + [PROJECT], Merge(s, hidden.tree, purgePaths)))
    ensures |stages| == 2 ==>
              (Contained(Checkouts(old(fs.nodes), root, s, hidden.tree), root + [PROJECT], purgePaths) ==>
                 SameOutside(old(fs.nodes), fs.nodes, root) && RealDir(fs.nodes, root))
    ensures r.Ok? && OrdinaryRels(purgePaths) ==>
              KeptWhereSpared(Checkouts(old(fs.nodes), root, s, hidden.tree), fs.nodes, root + [PROJECT],
                              root + [HIDDEN], hidden.tree, purgePaths)
    ensures r.Ok? && fs.Reliable(root) ==>
              && SizeOf(student.tree) + SizeOf(hidden.tree) <= maxBytes
              && SizeOf(Merge(s, hidden.tree, purgePaths)) <= maxBytes
    ensures Roomy(old(fs.nodes), root) && fs.Reliable(root) ==>
              (|stages| == 2 <==> Fetches(studentLink, testLink, student, hidden, maxBytes))
    ensures |stages| == 2 && Inside(Checkouts(old(fs.nodes), root, s, hidden.tree), root + [PROJECT], purgePaths) ==>
              (fs.Reliable(root) ==> r.Ok?)
  {
    ghost var n0 := fs.nodes;
    stages := [Grading.Clone];
    r, s := FetchAndStrip(fs, root, studentLink, testLink, purgePaths, maxBytes, student, hidden);
    if r.Err? {
      return;
    }
    ghost var n2 := fs.nodes;
    stages := [Grading.Clone, Grading.Merge];
    r := MergeAndDrop(fs, root, purgePaths, s, hidden.tree);
    if Contained(n2, root + [PROJECT], purgePaths) { OutsideTrans(n0, n2, fs.nodes, root); }
  }
}
