/** A filesystem as a flat map from resolved paths to nodes, with the path walk that follows symbolic
    links in every component but the last, and the trees that sit inside such a map. */
module Nodes {
  import opened Wrappers
  import opened Trees

  datatype Node =
    | FileNode(bytes: Bytes)
    | LinkNode(absolute: bool, target: Path)
    | DirNode

  type NodeMap = map<Path, Node>

  /** The number of links one walk may follow before it fails, path_resolution(7) on Linux. */
  const MAX_LINKS: nat := 40

  predicate Ordinary(n: Name) {
    n != "." && n != ".."
  }

  predicate OrdinaryPath(p: Path) {
    forall i :: 0 <= i < |p| ==> Ordinary(p[i])
  }

  function Parent(p: Path): Path {
    if p == [] then [] else p[..|p| - 1]
  }

  /** Every node but the root sits in a directory under an ordinary name. */
  predicate WellFormed(ns: NodeMap) {
    && [] in ns && ns[[]].DirNode?
    && forall p {:trigger Parent(p)} :: p in ns && p != [] ==>
         Ordinary(p[|p| - 1]) && Parent(p) in ns && ns[Parent(p)].DirNode?
  }

  /** Where the walk over `rest` from the directory `base` ends; `None` is a missing component, a
      component that is not a directory, or too many links. The place itself may hold nothing. */
  function Walk(ns: NodeMap, base: Path, rest: Path, links: nat, followLast: bool): Option<Path>
    decreases links, |rest|
  {
    if rest == [] then Some(base)
    else if base !in ns || !ns[base].DirNode? then None
    else if rest[0] == "." then Walk(ns, base, rest[1..], links, followLast)
    else if rest[0] == ".." then Walk(ns, Parent(base), rest[1..], links, followLast)
    else
      var here := base + [rest[0]];
      if here in ns && ns[here].LinkNode? && (|rest| > 1 || followLast) then
        if links == 0 then None
        else Walk(ns, if ns[here].absolute then [] else base, ns[here].target + rest[1..], links - 1, followLast)
      else if |rest| == 1 then Some(here)
      else Walk(ns, here, rest[1..], links, followLast)
  }

  function Locate(ns: NodeMap, p: Path, followLast: bool): Option<Path> {
    Walk(ns, [], p, MAX_LINKS, followLast)
  }

  /** What `symlink_metadata` looks at. */
  function Lstat(ns: NodeMap, p: Path): Option<Node> {
    match Locate(ns, p, false)
    case None => None
    case Some(q) => if q in ns then Some(ns[q]) else None
  }

  function RemoveTree(ns: NodeMap, p: Path): NodeMap {
    map q | q in ns && !(p <= q) :: ns[q]
  }

  /** Where the operating system finds what a purge path names, if anything is there. */
  function PurgePlace(ns: NodeMap, project: Path, rel: Path): Option<Path> {
    match Locate(ns, project + rel, false)
    case None => None
    case Some(q) => if q in ns then Some(q) else None
  }

  /** The purge of one path of the project. */
  function PurgeNodes(ns: NodeMap, project: Path, rel: Path): NodeMap {
    match PurgePlace(ns, project, rel)
    case None => ns
    case Some(q) => RemoveTree(ns, q)
  }

  function PurgeAllNodes(ns: NodeMap, project: Path, rels: seq<Path>): NodeMap
    decreases |rels|
  {
    if rels == [] then ns else PurgeAllNodes(PurgeNodes(ns, project, rels[0]), project, rels[1..])
  }

  function ChildNames(ns: NodeMap, p: Path): set<Name> {
    set q | q in ns.Keys && |q| == |p| + 1 && p <= q :: q[|p|]
  }

  lemma ChildNamesAre(ns: NodeMap, p: Path, n: Name)
    ensures n in ChildNames(ns, p) <==> p + [n] in ns
  {
    if n in ChildNames(ns, p) {
      var q :| q in ns.Keys && |q| == |p| + 1 && p <= q && q[|p|] == n;
      assert q == p + [n];
    }
    if p + [n] in ns {
      assert (p + [n])[|p|] == n;
    }
  }

  // ---- Plain paths: walks that meet no link ----

  /** No component of `p` that exists is anything but a directory. */
  ghost predicate Plain(ns: NodeMap, p: Path) {
    && OrdinaryPath(p)
    && forall i {:trigger p[..i]} :: 0 <= i <= |p| && p[..i] in ns ==> ns[p[..i]].DirNode?
  }

  ghost predicate RealDir(ns: NodeMap, p: Path) {
    Plain(ns, p) && p in ns
  }

  lemma {:induction false} AncestorsExist(ns: NodeMap, p: Path, i: nat)
    requires WellFormed(ns) && p in ns && i < |p|
    ensures p[..i] in ns && ns[p[..i]].DirNode?
    decreases |p|
  {
    assert Parent(p) in ns;
    if i < |p| - 1 {
      AncestorsExist(ns, Parent(p), i);
      assert Parent(p)[..i] == p[..i];
    }
  }

  lemma PrefixExists(ns: NodeMap, q: Path, p: Path)
    requires WellFormed(ns) && q in ns && p <= q
    ensures p in ns && (p != q ==> ns[p].DirNode?)
  {
    assert p == q[..|p|];
    if |p| < |q| { AncestorsExist(ns, q, |p|); } else { assert p == q; }
  }

  lemma {:induction false} WalkPlain(ns: NodeMap, p: Path, i: nat, n: Name, links: nat, followLast: bool)
    requires WellFormed(ns) && Plain(ns, p) && i <= |p| && Ordinary(n)
    requires followLast ==> p + [n] !in ns || !ns[p + [n]].LinkNode?
    ensures Walk(ns, p[..i], (p + [n])[i..], links, followLast) == if p in ns then Some(p + [n]) else None
    decreases |p| - i
  {
    var rest := (p + [n])[i..];
    if i == |p| {
      assert p[..i] == p && rest == [n];
    } else {
      assert p[..i] + [rest[0]] == p[..i + 1] && rest[1..] == (p + [n])[i + 1..];
      if p[..i] in ns {
        WalkPlain(ns, p, i + 1, n, links, followLast);
      } else if p in ns {
        AncestorsExist(ns, p, i);
      }
    }
  }

  /** A path below a plain directory names itself, and nothing when that directory is missing. */
  lemma LocatePlain(ns: NodeMap, p: Path, n: Name, followLast: bool)
    requires WellFormed(ns) && Plain(ns, p) && Ordinary(n)
    requires followLast ==> p + [n] !in ns || !ns[p + [n]].LinkNode?
    ensures Locate(ns, p + [n], followLast) == if p in ns then Some(p + [n]) else None
  {
    WalkPlain(ns, p, 0, n, MAX_LINKS, followLast);
    assert p[..0] == [] && (p + [n])[0..] == p + [n];
  }

  lemma LocatePlainDir(ns: NodeMap, p: Path)
    requires WellFormed(ns) && Plain(ns, p)
    ensures p in ns ==> Locate(ns, p, true) == Some(p)
    ensures p !in ns && Locate(ns, p, true).Some? ==> Locate(ns, p, true).value == p
  {
    if p != [] {
      var d, n := Parent(p), p[|p| - 1];
      assert p == d + [n];
      assert Plain(ns, d) by {
        forall i | 0 <= i <= |d| && d[..i] in ns ensures ns[d[..i]].DirNode? { assert d[..i] == p[..i]; }
      }
      assert p[..|p|] == p;
      LocatePlain(ns, d, n, true);
    }
  }

  lemma PlainChild(ns: NodeMap, p: Path, n: Name)
    requires Plain(ns, p) && Ordinary(n)
    requires p + [n] in ns ==> ns[p + [n]].DirNode?
    ensures Plain(ns, p + [n])
  {
    var c := p + [n];
    forall i | 0 <= i <= |c| && c[..i] in ns ensures ns[c[..i]].DirNode? {
      if i <= |p| { assert c[..i] == p[..i]; } else { assert c[..i] == c; }
    }
  }

  /** Neither path can be below the other. */
  ghost predicate Diverge(p: Path, q: Path) {
    exists i :: 0 <= i < |p| && i < |q| && p[i] != q[i]
  }

  lemma DivergeBelow(p: Path, q: Path, p': Path, q': Path)
    requires Diverge(p, q) && p <= p' && q <= q'
    ensures Diverge(p', q') && !(p <= q') && !(q <= p') && !(p' <= q') && !(q' <= p')
  {
    var i :| 0 <= i < |p| && i < |q| && p[i] != q[i];
    assert p'[i] == p[i] && q'[i] == q[i];
  }

  // ---- Trees inside the map ----

  /** The nodes at and below `p` are exactly the tree `t`. */
  ghost predicate Holds(ns: NodeMap, p: Path, t: Tree)
    decreases t
  {
    p in ns &&
    match t
    case File(bytes) => ns[p] == FileNode(bytes)
    case Link(absolute, target) => ns[p] == LinkNode(absolute, target)
    case Dir(es) =>
      && ns[p] == DirNode
      && (forall n :: p + [n] in ns <==> n in es)
      && (forall n | n in es :: Holds(ns, p + [n], es[n]))
  }

  ghost predicate HoldsOpt(ns: NodeMap, p: Path, t: Option<Tree>) {
    match t
    case None => p !in ns
    case Some(x) => Holds(ns, p, x)
  }

  ghost predicate SameAt(a: NodeMap, b: NodeMap, q: Path) {
    (q in a <==> q in b) && (q in a ==> a[q] == b[q])
  }

  lemma SameMaps(a: NodeMap, b: NodeMap)
    requires forall q :: SameAt(a, b, q)
    ensures a == b
  {
    forall q ensures (q in a <==> q in b) && (q in a ==> a[q] == b[q]) {
      assert SameAt(a, b, q);
    }
  }

  /** The two maps agree everywhere except at and below `p`. */
  ghost predicate SameOutside(a: NodeMap, b: NodeMap, p: Path) {
    forall q :: !(p <= q) ==> SameAt(a, b, q)
  }

  /** Outside `p` nothing is lost or altered, and all that may be new is a missing directory on the
      way to `p`. */
  ghost predicate Confined(a: NodeMap, b: NodeMap, p: Path) {
    forall q :: !(p <= q) ==> SameAt(a, b, q) || (q !in a && q in b && b[q] == DirNode && q <= p)
  }

  lemma {:induction false} HoldsFrame(a: NodeMap, b: NodeMap, p: Path, t: Tree)
    requires Holds(a, p, t)
    requires forall q :: p <= q ==> SameAt(a, b, q)
    ensures Holds(b, p, t)
    decreases t
  {
    assert SameAt(a, b, p);
    if t.Dir? {
      forall n ensures SameAt(a, b, p + [n]) {}
      forall n | n in t.entries ensures Holds(b, p + [n], t.entries[n]) {
        HoldsFrame(a, b, p + [n], t.entries[n]);
      }
    }
  }

  /** Putting another tree at one child of a directory. */
  lemma HoldsReplace(a: NodeMap, b: NodeMap, p: Path, n: Name, es: map<Name, Tree>, c: Option<Tree>)
    requires Holds(a, p, Dir(es)) && SameOutside(a, b, p + [n]) && HoldsOpt(b, p + [n], c)
    ensures Holds(b, p, Dir(if c.Some? then es[n := c.value] else es - {n}))
  {
    var es' := if c.Some? then es[n := c.value] else es - {n};
    assert SameAt(a, b, p);
    forall m ensures p + [m] in b <==> m in es' {
      if m != n { Siblings(p, m, n, []); assert SameAt(a, b, p + [m]); }
    }
    forall m | m in es' ensures Holds(b, p + [m], es'[m]) {
      if m != n {
        forall q | p + [m] <= q ensures SameAt(a, b, q) {
          Siblings(p, m, n, q[|p| + 1..]);
          assert q == p + [m] + q[|p| + 1..];
        }
        HoldsFrame(a, b, p + [m], es[m]);
      }
    }
  }

  lemma Siblings(p: Path, m: Name, n: Name, rest: Path)
    requires m != n
    ensures !(p + [n] <= p + [m] + rest)
  {
    assert (p + [m] + rest)[|p|] == m && (p + [n])[|p|] == n;
  }

  lemma HoldsChild(ns: NodeMap, p: Path, es: map<Name, Tree>, n: Name)
    requires Holds(ns, p, Dir(es))
    ensures HoldsOpt(ns, p + [n], Child(es, n))
  {
  }

  ghost function Below(ns: NodeMap, p: Path): set<Path> {
    set q | q in ns.Keys && p <= q
  }

  lemma BelowShrinks(ns: NodeMap, p: Path, n: Name)
    requires p in ns
    ensures Below(ns, p + [n]) < Below(ns, p)
  {
    assert p in Below(ns, p) && p !in Below(ns, p + [n]);
    forall q | q in Below(ns, p + [n]) ensures q in Below(ns, p) {
      assert p <= p + [n] <= q;
    }
  }

  /** The tree at a path of a well-formed map. */
  ghost function TreeAt(ns: NodeMap, p: Path): (t: Tree)
    requires WellFormed(ns) && p in ns
    ensures Holds(ns, p, t)
    decreases Below(ns, p)
  {
    match ns[p]
    case FileNode(bytes) => File(bytes)
    case LinkNode(absolute, target) => Link(absolute, target)
    case DirNode =>
      assert forall n :: n in ChildNames(ns, p) <==> p + [n] in ns by {
        forall n ensures n in ChildNames(ns, p) <==> p + [n] in ns { ChildNamesAre(ns, p, n); }
      }
      Dir(map n | n in ChildNames(ns, p) ::
            BelowShrinks(ns, p, n);
            TreeAt(ns, p + [n]))
  }

  lemma {:induction false} HoldsUnique(ns: NodeMap, p: Path, a: Tree, b: Tree)
    requires Holds(ns, p, a) && Holds(ns, p, b)
    ensures a == b
    decreases a
  {
    if a.Dir? {
      assert a.entries.Keys == b.entries.Keys by {
        forall n ensures n in a.entries <==> n in b.entries {
          assert p + [n] in ns <==> n in a.entries;
          assert p + [n] in ns <==> n in b.entries;
        }
      }
      forall n | n in a.entries ensures a.entries[n] == b.entries[n] {
        HoldsUnique(ns, p + [n], a.entries[n], b.entries[n]);
      }
    }
  }

  // ---- Putting a tree into the map ----

  /** Every name in the tree is ordinary. */
  predicate OrdinaryTree(t: Tree) {
    match t
    case Dir(es) => forall n | n in es :: Ordinary(n) && OrdinaryTree(es[n])
    case _ => true
  }

  function NodeOf(t: Tree): Node {
    match t
    case File(bytes) => FileNode(bytes)
    case Link(absolute, target) => LinkNode(absolute, target)
    case Dir(_) => DirNode
  }

  function Paths(t: Tree): set<Path> {
    match t
    case Dir(es) => {[]} + set n, q | n in es && q in Paths(es[n]) :: [n] + q
    case _ => {[]}
  }

  lemma {:induction false} PathsAre(t: Tree, q: Path)
    ensures q in Paths(t) <==> Subtree(t, q).Some?
    decreases t
  {
    if q != [] && t.Dir? {
      assert q == [q[0]] + q[1..];
      if q[0] in t.entries { PathsAre(t.entries[q[0]], q[1..]); }
      if q in Paths(t) {
        var n, r :| n in t.entries && r in Paths(t.entries[n]) && q == [n] + r;
        assert n == q[0] && r == q[1..];
      }
    }
  }

  lemma BelowParent(q: Path, r: Path)
    requires r != [] && q <= Parent(r)
    ensures q <= r
  {
    assert Parent(r) == r[..|r| - 1];
  }

  /** The map with `t` and nothing else at and below `p`. */
  function Install(ns: NodeMap, p: Path, t: Tree): NodeMap {
    RemoveTree(ns, p) +
    map q | q in (set r | r in Paths(t) :: p + r) ::
      (PathsAre(t, q[|p|..]); assert q == p + q[|p|..]; NodeOf(Subtree(t, q[|p|..]).value))
  }

  lemma InstallAt(ns: NodeMap, p: Path, t: Tree, q: Path)
    ensures !(p <= q) ==> SameAt(ns, Install(ns, p, t), q)
    ensures p <= q ==>
              (q in Install(ns, p, t) <==> Subtree(t, q[|p|..]).Some?)
              && (q in Install(ns, p, t) ==> Install(ns, p, t)[q] == NodeOf(Subtree(t, q[|p|..]).value))
  {
    if p <= q {
      assert q == p + q[|p|..];
      PathsAre(t, q[|p|..]);
    }
    forall r | r in Paths(t) ensures p <= p + r {}
  }

  lemma {:induction false} SubtreeParent(t: Tree, q: Path)
    requires OrdinaryTree(t) && q != [] && Subtree(t, q).Some?
    ensures Ordinary(q[|q| - 1]) && Subtree(t, Parent(q)).Some? && Subtree(t, Parent(q)).value.Dir?
    decreases q
  {
    if |q| > 1 {
      SubtreeParent(t.entries[q[0]], q[1..]);
      assert Parent(q)[1..] == Parent(q[1..]);
    }
  }

  lemma SubtreeOne(t: Tree, n: Name)
    requires t.Dir?
    ensures Subtree(t, [n]).Some? <==> n in t.entries
  {
    assert [n][1..] == [];
  }

  lemma {:induction false} HungHolds(b: NodeMap, p: Path, t: Tree)
    requires forall q :: p <= q ==> (q in b <==> Subtree(t, q[|p|..]).Some?)
    requires forall q :: p <= q && q in b ==> b[q] == NodeOf(Subtree(t, q[|p|..]).value)
    ensures Holds(b, p, t)
    decreases t
  {
    assert p <= p && p[|p|..] == [];
    if t.Dir? {
      forall n ensures p + [n] in b <==> n in t.entries {
        assert p <= p + [n] && (p + [n])[|p|..] == [n];
        SubtreeOne(t, n);
      }
      forall n | n in t.entries ensures Holds(b, p + [n], t.entries[n]) {
        forall q | p + [n] <= q ensures p <= q && Subtree(t, q[|p|..]) == Subtree(t.entries[n], q[|p + [n]|..]) {
          assert p <= p + [n] <= q;
          assert q[|p|..][0] == n && q[|p|..][1..] == q[|p + [n]|..];
        }
        HungHolds(b, p + [n], t.entries[n]);
      }
    }
  }

  lemma InstallForm(ns: NodeMap, p: Path, t: Tree, r: Path)
    requires WellFormed(ns) && OrdinaryTree(t)
    requires p != [] && Parent(p) in ns && ns[Parent(p)].DirNode? && Ordinary(p[|p| - 1])
    requires r in Install(ns, p, t) && r != []
    ensures var b := Install(ns, p, t);
            Ordinary(r[|r| - 1]) && Parent(r) in b && b[Parent(r)].DirNode?
  {
    InstallAt(ns, p, t, r);
    InstallAt(ns, p, t, Parent(r));
    if p <= r && r != p {
      var q := r[|p|..];
      assert r == p + q && Parent(r) == p + Parent(q);
      SubtreeParent(t, q);
      assert Parent(r)[|p|..] == Parent(q);
    } else if r == p {
      assert |Parent(p)| < |p|;
    } else if p <= Parent(r) {
      BelowParent(p, r);
    }
  }

  /** Installing a tree under an existing directory keeps the form and leaves exactly that tree there. */
  lemma InstallHolds(ns: NodeMap, p: Path, t: Tree)
    requires WellFormed(ns) && OrdinaryTree(t)
    requires p != [] && Parent(p) in ns && ns[Parent(p)].DirNode? && Ordinary(p[|p| - 1])
    ensures WellFormed(Install(ns, p, t)) && Holds(Install(ns, p, t), p, t)
    ensures SameOutside(ns, Install(ns, p, t), p)
  {
    var b := Install(ns, p, t);
    forall q ensures !(p <= q) ==> SameAt(ns, b, q) { InstallAt(ns, p, t, q); }
    forall r | r in b && r != []
      ensures Ordinary(r[|r| - 1]) && Parent(r) in b && b[Parent(r)].DirNode?
    {
      InstallForm(ns, p, t, r);
    }
    assert !(p <= []) && SameAt(ns, b, []);
    InstalledTree(ns, p, t);
  }

  lemma InstalledTree(ns: NodeMap, p: Path, t: Tree)
    ensures Holds(Install(ns, p, t), p, t)
  {
    var b := Install(ns, p, t);
    forall q | p <= q
      ensures (q in b <==> Subtree(t, q[|p|..]).Some?) && (q in b ==> b[q] == NodeOf(Subtree(t, q[|p|..]).value))
    {
      InstallAt(ns, p, t, q);
    }
    HungHolds(b, p, t);
  }
}
