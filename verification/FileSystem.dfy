/** The mutable filesystem that the merge works on. Each operation resolves its path through symbolic
    links as the operating system does. The places in `faulty` are those where an operation may fail, at
    any time and with its work half done; a metadata lookup never fails on a node that exists. */
module FileSystems {
  import opened Wrappers
  import opened Trees
  import opened Nodes

  datatype MkdirResult = Created | NotFound | Refused

  /** `b` is `a` less some of the nodes at and below `p`. */
  predicate Thinned(a: NodeMap, b: NodeMap, p: Path) {
    && (forall q | q in b :: q in a && b[q] == a[q])
    && (forall q | q in a && !(p <= q) :: q in b)
  }

  /** Every node of `a` is kept, and all that `b` adds is directories on the way to `p`. */
  ghost predicate GrownTowards(a: NodeMap, b: NodeMap, p: Path) {
    forall q :: SameAt(a, b, q) || (q !in a && q in b && b[q] == DirNode && q <= p)
  }

  /** Somewhere an operation can act: a node, or a free name in a directory. */
  ghost predicate Place(ns: NodeMap, q: Path, followLast: bool) {
    && (q in ns || (q != [] && Ordinary(q[|q| - 1]) && Parent(q) in ns && ns[Parent(q)].DirNode?))
    && (followLast && q in ns ==> !ns[q].LinkNode?)
  }

  /** Every node of `a` is kept, and all that `b` adds is directories. */
  ghost predicate OnlyDirsAdded(a: NodeMap, b: NodeMap) {
    forall q :: SameAt(a, b, q) || (q !in a && q in b && b[q] == DirNode)
  }

  /** Following every link, the path ends at a directory. */
  ghost predicate LeadsToDir(ns: NodeMap, p: Path) {
    var q := Locate(ns, p, true);
    q.Some? && q.value in ns && ns[q.value].DirNode?
  }

  /** A walk that found its way still does once a free place holds a directory. */
  lemma {:induction false} WalkPastNew(ns: NodeMap, base: Path, rest: Path, links: nat, x: Path)
    requires x !in ns && Walk(ns, base, rest, links, false) == Some(x)
    ensures rest != [] ==> Walk(ns[x := DirNode], base, rest, links, true) == Some(x)
    decreases links, |rest|
  {
    if rest != [] {
      var here := base + [rest[0]];
      if rest[0] == "." {
        WalkPastNew(ns, base, rest[1..], links, x);
      } else if rest[0] == ".." {
        WalkPastNew(ns, Parent(base), rest[1..], links, x);
      } else if here in ns && ns[here].LinkNode? && |rest| > 1 {
        WalkPastNew(ns, if ns[here].absolute then [] else base, ns[here].target + rest[1..], links - 1, x);
      } else if |rest| > 1 {
        WalkPastNew(ns, here, rest[1..], links, x);
      }
    }
  }

  lemma CreatedLeads(ns: NodeMap, p: Path)
    requires WellFormed(ns) && Locate(ns, p, false).Some? && Locate(ns, p, false).value !in ns
    ensures LeadsToDir(ns[Locate(ns, p, false).value := DirNode], p)
  {
    WalkPastNew(ns, [], p, MAX_LINKS, Locate(ns, p, false).value);
  }

  lemma {:induction false} WalkPlace(ns: NodeMap, base: Path, rest: Path, links: nat, followLast: bool)
    requires WellFormed(ns)
    requires rest == [] ==> base in ns && ns[base].DirNode?
    ensures var q := Walk(ns, base, rest, links, followLast); q.Some? ==> Place(ns, q.value, followLast)
    decreases links, |rest|
  {
    if rest != [] && base in ns && ns[base].DirNode? {
      var here := base + [rest[0]];
      if rest[0] == "." {
        WalkPlace(ns, base, rest[1..], links, followLast);
      } else if rest[0] == ".." {
        WalkPlace(ns, Parent(base), rest[1..], links, followLast);
      } else if here in ns && ns[here].LinkNode? && (|rest| > 1 || followLast) {
        if links > 0 {
          WalkPlace(ns, if ns[here].absolute then [] else base, ns[here].target + rest[1..], links - 1, followLast);
        }
      } else if |rest| > 1 {
        WalkPlace(ns, here, rest[1..], links, followLast);
      } else {
        assert Parent(here) == base;
      }
    }
  }

  lemma LocatePlace(ns: NodeMap, p: Path, followLast: bool)
    requires WellFormed(ns)
    ensures Locate(ns, p, followLast).Some? ==> Place(ns, Locate(ns, p, followLast).value, followLast)
  {
    WalkPlace(ns, [], p, MAX_LINKS, followLast);
  }

  lemma RemoveKeepsForm(ns: NodeMap, q: Path)
    requires WellFormed(ns) && q != []
    ensures WellFormed(RemoveTree(ns, q))
  {
    var b := RemoveTree(ns, q);
    forall r | r in b && r != []
      ensures Ordinary(r[|r| - 1]) && Parent(r) in b && b[Parent(r)].DirNode?
    {
      assert Parent(r) in ns && ns[Parent(r)].DirNode?;
      if q <= Parent(r) { BelowParent(q, r); }
    }
    assert !(q <= []);
  }

  /** A new directory, or new bytes for a file, where an operation can act. */
  lemma PutKeepsForm(ns: NodeMap, q: Path, node: Node)
    requires WellFormed(ns) && Place(ns, q, false)
    requires if q in ns then ns[q].FileNode? && node.FileNode? else true
    ensures WellFormed(ns[q := node])
  {
    var b := ns[q := node];
    forall r | r in b && r != []
      ensures Ordinary(r[|r| - 1]) && Parent(r) in b && b[Parent(r)].DirNode?
    {
      if r != q { assert Parent(r) in ns && ns[Parent(r)].DirNode?; }
      assert |Parent(r)| < |r|;
    }
  }

  class FileSystem {
    var nodes: NodeMap
    const faulty: iset<Path>

    constructor (nodes: NodeMap, faulty: iset<Path>)
      ensures this.nodes == nodes && this.faulty == faulty
    {
      this.nodes := nodes;
      this.faulty := faulty;
    }

    /** No operation fails at or below `p`. */
    ghost predicate Reliable(p: Path) {
      forall q :: p <= q ==> q !in faulty
    }

    method SymlinkMetadata(p: Path) returns (meta: Option<Node>)
      ensures meta == Lstat(nodes, p)
    {
      meta := Lstat(nodes, p);
    }

    /** `remove_dir_all`: unlinks a symlink, removes a directory with all it holds, refuses a file. */
    method RemoveDirAll(p: Path) returns (ok: bool)
      requires WellFormed(nodes)
      modifies this
      ensures WellFormed(nodes)
      ensures var q := Locate(old(nodes), p, false);
              if q.None? || q.value !in old(nodes) || old(nodes)[q.value].FileNode? then
                !ok && nodes == old(nodes)
              else if ok then nodes == RemoveTree(old(nodes), q.value)
              else Thinned(old(nodes), nodes, q.value)
      ensures var q := Locate(old(nodes), p, false);
              (q.Some? && q.value != [] && q.value in old(nodes) && !old(nodes)[q.value].FileNode?
               && Reliable(q.value)) ==> ok
    {
      var q := Locate(nodes, p, false);
      if q.None? || q.value !in nodes || nodes[q.value].FileNode? {
        return false;
      }
      var kept: NodeMap, fault: bool := *, *;
      if q.value == [] || (fault && exists r :: r in nodes && q.value <= r && r in faulty) {
        if WellFormed(kept) && Thinned(nodes, kept, q.value) {
          nodes := kept;
        }
        return false;
      }
      RemoveKeepsForm(nodes, q.value);
      nodes := RemoveTree(nodes, q.value);
      return true;
    }

    /** `remove_file`: unlinks whatever is not a directory. */
    method RemoveFile(p: Path) returns (ok: bool)
      requires WellFormed(nodes)
      modifies this
      ensures WellFormed(nodes)
      ensures var q := Locate(old(nodes), p, false);
              if ok then q.Some? && q.value in old(nodes) && !old(nodes)[q.value].DirNode? &&
                         nodes == RemoveTree(old(nodes), q.value)
              else nodes == old(nodes)
      ensures var q := Locate(old(nodes), p, false);
              q.Some? && q.value in old(nodes) && !old(nodes)[q.value].DirNode? && q.value !in faulty ==> ok
    {
      var q := Locate(nodes, p, false);
      var fault: bool := *;
      if q.None? || q.value !in nodes || nodes[q.value].DirNode? || (fault && q.value in faulty) {
        return false;
      }
      RemoveKeepsForm(nodes, q.value);
      nodes := RemoveTree(nodes, q.value);
      return true;
    }

    /** `remove_dir`: only a directory without entries goes. */
    method RemoveDir(p: Path)
      requires WellFormed(nodes)
      modifies this
      ensures WellFormed(nodes)
      ensures nodes == old(nodes) ||
              (Locate(old(nodes), p, false).Some? &&
               nodes == RemoveTree(old(nodes), Locate(old(nodes), p, false).value))
      ensures var q := Locate(old(nodes), p, false);
              (q.Some? && q.value != [] && q.value in old(nodes) && old(nodes)[q.value].DirNode?
               && ChildNames(old(nodes), q.value) == {} && q.value !in faulty) ==>
                nodes == RemoveTree(old(nodes), q.value)
    {
      var q := Locate(nodes, p, false);
      var fault: bool := *;
      if q.Some? && q.value != [] && q.value in nodes && nodes[q.value].DirNode?
         && ChildNames(nodes, q.value) == {} && !(fault && q.value in faulty) {
        RemoveKeepsForm(nodes, q.value);
        nodes := RemoveTree(nodes, q.value);
      }
    }

    /** `read_dir`: the names of a directory, in no particular order. */
    method ReadDir(p: Path) returns (names: Option<seq<Name>>)
      requires WellFormed(nodes)
      ensures names.Some? ==>
                var q := Locate(nodes, p, true);
                && q.Some? && q.value in nodes && nodes[q.value].DirNode?
                && (set n | n in names.value) == ChildNames(nodes, q.value)
                && (forall i, j :: 0 <= i < j < |names.value| ==> names.value[i] != names.value[j])
      ensures var q := Locate(nodes, p, true);
              q.Some? && q.value in nodes && nodes[q.value].DirNode? && q.value !in faulty ==> names.Some?
    {
      var q := Locate(nodes, p, true);
      var fault: bool := *;
      if q.None? || q.value !in nodes || !nodes[q.value].DirNode? || (fault && q.value in faulty) {
        return None;
      }
      var left := ChildNames(nodes, q.value);
      var listed: seq<Name> := [];
      while left != {}
        invariant (set n | n in listed) + left == ChildNames(nodes, q.value)
        invariant forall i :: 0 <= i < |listed| ==> listed[i] !in left
        invariant forall i, j :: 0 <= i < j < |listed| ==> listed[i] != listed[j]
        decreases left
      {
        var n :| n in left;
        listed, left := listed + [n], left - {n};
      }
      return Some(listed);
    }

    /** Whether an entry that was listed can be read. */
    method EntryReadable(dir: Path, name: Name) returns (ok: bool)
      ensures dir + [name] !in faulty ==> ok
    {
      var fault: bool := *;
      ok := !(fault && dir + [name] in faulty);
    }

    method Mkdir(p: Path) returns (r: MkdirResult)
      requires WellFormed(nodes)
      modifies this
      ensures WellFormed(nodes)
      ensures var q := Locate(old(nodes), p, false);
              match r
              case Created => q.Some? && q.value !in old(nodes) && nodes == old(nodes)[q.value := DirNode]
              case NotFound => q.None? && nodes == old(nodes)
              case Refused => q.Some? && nodes == old(nodes) && (q.value in old(nodes) || q.value in faulty)
    {
      var q := Locate(nodes, p, false);
      if q.None? {
        return NotFound;
      }
      LocatePlace(nodes, p, false);
      var fault: bool := *;
      if q.value in nodes || (fault && q.value in faulty) {
        return Refused;
      }
      PutKeepsForm(nodes, q.value, DirNode);
      nodes := nodes[q.value := DirNode];
      return Created;
    }

    /** `symlink`: a new link where nothing is, any error ignored. */
    method Symlink(p: Path, absolute: bool, target: Path)
      requires WellFormed(nodes)
      modifies this
      ensures WellFormed(nodes)
      ensures var q := Locate(old(nodes), p, false);
              nodes == old(nodes) ||
              (q.Some? && q.value !in old(nodes) && nodes == old(nodes)[q.value := LinkNode(absolute, target)])
      ensures var q := Locate(old(nodes), p, false);
              q.Some? && q.value !in old(nodes) && q.value !in faulty ==>
                nodes == old(nodes)[q.value := LinkNode(absolute, target)]
    {
      var q := Locate(nodes, p, false);
      LocatePlace(nodes, p, false);
      var fault: bool := *;
      if q.Some? && q.value !in nodes && !(fault && q.value in faulty) {
        PutKeepsForm(nodes, q.value, LinkNode(absolute, target));
        nodes := nodes[q.value := LinkNode(absolute, target)];
      }
    }

    method IsDir(p: Path) returns (yes: bool)
      ensures yes <==> Locate(nodes, p, true).Some? && Locate(nodes, p, true).value in nodes &&
                       nodes[Locate(nodes, p, true).value].DirNode?
    {
      var q := Locate(nodes, p, true);
      yes := q.Some? && q.value in nodes && nodes[q.value].DirNode?;
    }

    method IsFile(p: Path) returns (yes: bool)
      ensures yes <==> Locate(nodes, p, true).Some? && Locate(nodes, p, true).value in nodes &&
                       nodes[Locate(nodes, p, true).value].FileNode?
    {
      var q := Locate(nodes, p, true);
      yes := q.Some? && q.value in nodes && nodes[q.value].FileNode?;
    }

    /** `read`: the bytes of the regular file the path leads to. */
    method Read(p: Path) returns (bytes: Option<Bytes>)
      ensures var q := Locate(nodes, p, true);
              bytes.Some? ==> q.Some? && q.value in nodes && nodes[q.value] == FileNode(bytes.value)
      ensures var q := Locate(nodes, p, true);
              q.Some? && q.value in nodes && nodes[q.value].FileNode? && q.value !in faulty ==> bytes.Some?
    {
      var q := Locate(nodes, p, true);
      var fault: bool := *;
      if q.None? || q.value !in nodes || !nodes[q.value].FileNode? || (fault && q.value in faulty) {
        return None;
      }
      return Some(nodes[q.value].bytes);
    }

    /** `create_dir_all`: a directory that is already there, even behind a link, is a success; a missing
        parent is created first. */
    method CreateDirAll(p: Path) returns (ok: bool)
      requires WellFormed(nodes)
      modifies this
      ensures WellFormed(nodes)
      ensures OnlyDirsAdded(old(nodes), nodes)
      ensures ok ==> LeadsToDir(nodes, p)
      ensures Plain(old(nodes), p) ==>
                Plain(nodes, p) && GrownTowards(old(nodes), nodes, p) && (ok ==> p in nodes)
      ensures Plain(old(nodes), p) && (forall q :: q <= p && q !in old(nodes) ==> q !in faulty) ==> ok
      decreases |p|
    {
      var r := Mkdir(p);
      ghost var first := nodes;
      PlainLocates(old(nodes), p);
      if r.Created? {
        CreatedLeads(old(nodes), p);
        PlainGrows(old(nodes), nodes, p);
        return true;
      }
      if r.Refused? {
        ok := IsDir(p);
        PlainIsDir(nodes, p);
        return;
      }
      if p == [] {
        return false;
      }
      ok := CreateDirAll(Parent(p));
      PlainParent(old(nodes), nodes, p);
      if !ok {
        return;
      }
      ghost var made := nodes;
      PlainLocates(made, p);
      r := Mkdir(p);
      if r.Created? {
        CreatedLeads(made, p);
        PlainGrows(made, nodes, p);
        return true;
      }
      ok := IsDir(p);
      PlainIsDir(nodes, p);
    }

    /** `std::fs::copy`: both paths are followed; the target is created or truncated, and a failure may
        leave any bytes in it. */
    method Copy(from: Path, to: Path) returns (ok: bool)
      requires WellFormed(nodes)
      modifies this
      ensures WellFormed(nodes)
      ensures var f, q := Locate(old(nodes), from, true), Locate(old(nodes), to, true);
              if ok then
                f.Some? && q.Some? && f.value in old(nodes) && old(nodes)[f.value].FileNode? &&
                (q.value in old(nodes) ==> old(nodes)[q.value].FileNode?) &&
                nodes == old(nodes)[q.value := old(nodes)[f.value]]
              else
                nodes == old(nodes) ||
                (q.Some? && (q.value in old(nodes) ==> old(nodes)[q.value].FileNode?) &&
                 exists part :: nodes == old(nodes)[q.value := FileNode(part)])
      ensures var f, q := Locate(old(nodes), from, true), Locate(old(nodes), to, true);
              (f.Some? && q.Some? && f.value in old(nodes) && old(nodes)[f.value].FileNode?
               && (q.value in old(nodes) ==> old(nodes)[q.value].FileNode?)
               && f.value !in faulty && q.value !in faulty) ==> ok
    {
      var f, q := Locate(nodes, from, true), Locate(nodes, to, true);
      if f.None? || q.None? || f.value !in nodes || !nodes[f.value].FileNode?
         || (q.value in nodes && nodes[q.value].DirNode?) {
        return false;
      }
      LocatePlace(nodes, to, true);
      var fault: bool, begun: bool := *, *;
      ok := !(fault && (f.value in faulty || q.value in faulty));
      if !ok && !begun {
        return;
      }
      if ok {
        PutKeepsForm(nodes, q.value, nodes[f.value]);
        nodes := nodes[q.value := nodes[f.value]];
      } else {
        var part: Bytes := *;
        PutKeepsForm(nodes, q.value, FileNode(part));
        nodes := nodes[q.value := FileNode(part)];
      }
    }
  }

  // ---- Plain paths under these operations ----

  lemma PlainUp(ns: NodeMap, p: Path)
    requires Plain(ns, p)
    ensures Plain(ns, Parent(p))
    ensures p in ns ==> ns[p].DirNode?
  {
    assert p[..|p|] == p;
    var d := Parent(p);
    forall i | 0 <= i <= |d| && d[..i] in ns ensures ns[d[..i]].DirNode? { assert d[..i] == p[..i]; }
  }

  lemma PlainLocates(ns: NodeMap, p: Path)
    requires WellFormed(ns)
    ensures Plain(ns, p) && p != [] ==>
              Locate(ns, p, false) == if Parent(p) in ns then Some(p) else None
    ensures p == [] ==> Locate(ns, p, false) == Some([])
  {
    if Plain(ns, p) && p != [] {
      PlainUp(ns, p);
      assert p == Parent(p) + [p[|p| - 1]];
      LocatePlain(ns, Parent(p), p[|p| - 1], false);
    }
  }

  lemma PlainIsDir(ns: NodeMap, p: Path)
    requires WellFormed(ns)
    ensures Plain(ns, p) ==> (p in ns <==> Locate(ns, p, true).Some? && Locate(ns, p, true).value in ns &&
                                           ns[Locate(ns, p, true).value].DirNode?)
  {
    if Plain(ns, p) {
      PlainUp(ns, p);
      LocatePlainDir(ns, p);
    }
  }

  lemma PlainGrows(a: NodeMap, b: NodeMap, p: Path)
    ensures Plain(a, p) && GrownTowards(a, b, p) ==> Plain(b, p)
  {
    if Plain(a, p) && GrownTowards(a, b, p) {
      forall i | 0 <= i <= |p| && p[..i] in b ensures b[p[..i]].DirNode? {
        assert SameAt(a, b, p[..i]) || b[p[..i]] == DirNode;
      }
    }
  }

  lemma PlainParent(a: NodeMap, b: NodeMap, p: Path)
    requires p != []
    ensures Plain(a, p) ==> Plain(a, Parent(p))
    ensures Plain(a, p) && GrownTowards(a, b, Parent(p)) ==> GrownTowards(a, b, p) && Plain(b, p)
  {
    if Plain(a, p) {
      PlainUp(a, p);
      if GrownTowards(a, b, Parent(p)) {
        assert Parent(p) <= p;
        forall q ensures SameAt(a, b, q) || (q !in a && q in b && b[q] == DirNode && q <= p) {
          assert SameAt(a, b, q) || q <= Parent(p);
        }
        PlainGrows(a, b, p);
      }
    }
  }
}
