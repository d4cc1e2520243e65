/** crates/grader_lib/src/workspace.rs, `overlay_copy`: one tree laid over another in place, against the
    pure overlay of Trees. */
module Workspaces {
  import opened Wrappers
  import opened Trees
  import opened Nodes
  import opened FileSystems
  import Grading

  type StageResult<T> = Result<T, Grading.GraderError>

  function MergeFailure(): Grading.GraderError {
    Grading.GraderError(Grading.Merge, Grading.MergeFailed, None)
  }

  // ---- Frames ----

  lemma ConfinedTrans(a: NodeMap, b: NodeMap, c: NodeMap, p: Path)
    requires Confined(a, b, p) && Confined(b, c, p)
    ensures Confined(a, c, p)
  {
    forall q | !(p <= q) ensures SameAt(a, c, q) || (q !in a && q in c && c[q] == DirNode && q <= p) {
      assert SameAt(a, b, q) || (q !in a && q in b && b[q] == DirNode && q <= p);
      assert SameAt(b, c, q) || (q !in b && q in c && c[q] == DirNode && q <= p);
    }
  }

  lemma ConfinedUp(a: NodeMap, b: NodeMap, p: Path, n: Name)
    requires Confined(a, b, p + [n])
    ensures Confined(a, b, p)
  {
    forall q | !(p <= q) ensures SameAt(a, b, q) || (q !in a && q in b && b[q] == DirNode && q <= p) {
      assert p + [n] <= q ==> p <= q;
      assert q <= p + [n] ==> q <= p;
    }
  }

  lemma ProperPrefixExists(a: NodeMap, p: Path, n: Name, q: Path)
    requires WellFormed(a) && p in a && q <= p + [n] && q != p + [n]
    ensures q in a
  {
    assert q <= p;
    PrefixExists(a, p, q);
  }

  /** When the directory exists, confinement to one of its entries leaves everything else as it was. */
  lemma ConfinedReal(a: NodeMap, b: NodeMap, p: Path, n: Name)
    requires WellFormed(a) && p in a && Confined(a, b, p + [n])
    ensures SameOutside(a, b, p + [n])
  {
    var c := p + [n];
    forall q | !(c <= q) ensures SameAt(a, b, q) {
      assert c <= c;
      if q <= c { ProperPrefixExists(a, p, n, q); }
    }
  }

  /** A tree beside the confined path, and the way to it, are untouched. */
  lemma ConfinedBeside(a: NodeMap, b: NodeMap, p: Path, src: Path, t: Tree)
    requires Confined(a, b, p) && Diverge(src, p)
    requires Plain(a, src) && src in a && Holds(a, src, t)
    ensures Plain(b, src) && src in b && Holds(b, src, t)
  {
    forall q | src <= q ensures SameAt(a, b, q) {
      DivergeBelow(src, p, q, p);
    }
    HoldsFrame(a, b, src, t);
    forall i | 0 <= i <= |src| && src[..i] in b ensures b[src[..i]].DirNode? {
      assert src[..i] <= src;
      assert !(p <= src) by { DivergeBelow(src, p, src, p); }
      assert SameAt(a, b, src[..i]) || b[src[..i]] == DirNode;
    }
  }

  lemma ConfinedPlain(a: NodeMap, b: NodeMap, p: Path, n: Name)
    requires Plain(a, p) && Confined(a, b, p + [n])
    ensures Plain(b, p)
  {
    forall i | 0 <= i <= |p| && p[..i] in b ensures b[p[..i]].DirNode? {
      assert !(p + [n] <= p[..i]);
    }
  }

  // ---- The copy ----

  /** The directories the copy goes from and to: reached without a link, neither below the other. The
      target may be missing. */
  ghost predicate Ready(ns: NodeMap, src: Path, dst: Path) {
    WellFormed(ns) && Diverge(src, dst) && Plain(ns, src) && src in ns && Plain(ns, dst)
  }

  lemma StillReady(a: NodeMap, b: NodeMap, src: Path, dst: Path, n: Name, t: Tree)
    requires Ready(a, src, dst) && Confined(a, b, dst + [n]) && WellFormed(b) && Holds(a, src + [n], t)
    ensures Ready(b, src, dst) && Holds(b, src + [n], t)
  {
    DivergeBelow(src, dst, src, dst + [n]);
    DivergeBelow(src, dst, src + [n], dst + [n]);
    ConfinedPlain(a, b, dst, n);
    ConfinedBeside(a, b, dst + [n], src, TreeAt(a, src));
    forall q | src + [n] <= q ensures SameAt(a, b, q) {
      DivergeBelow(src + [n], dst + [n], q, dst + [n]);
    }
    HoldsFrame(a, b, src + [n], t);
  }

  /** Remove what is in the way at `dst/name`. */
  method Clear(fs: FileSystem, dst: Path, name: Name, isDir: bool) returns (ok: bool)
    requires WellFormed(fs.nodes) && Plain(fs.nodes, dst) && Ordinary(name)
    modifies fs
    ensures WellFormed(fs.nodes) && Confined(old(fs.nodes), fs.nodes, dst + [name])
    ensures ok ==> dst + [name] !in fs.nodes
    ensures !ok && !isDir ==> fs.nodes == old(fs.nodes)
    ensures dst in old(fs.nodes) && dst + [name] in old(fs.nodes) && fs.Reliable(dst + [name]) ==>
              (isDir == old(fs.nodes)[dst + [name]].DirNode? ==> ok)
  {
    LocatePlain(fs.nodes, dst, name, false);
    if isDir {
      ok := fs.RemoveDirAll(dst + [name]);
    } else {
      ok := fs.RemoveFile(dst + [name]);
    }
    assert dst in old(fs.nodes) ==> Thinned(old(fs.nodes), fs.nodes, dst + [name]);
  }

  lemma ClashCountsForNothing(s: Tree, t: Tree)
    requires !t.Link? && (s.Link? || s.Dir? != t.Dir?)
    ensures Overlay(Some(s), t) == Overlay(None, t)
  {
  }

  lemma ConfinedNow(a: NodeMap, p: Path)
    ensures Confined(a, a, p)
  {
  }

  /** One turn of the loop of `overlay_copy`: the entry `name` of `src`, whose tree is `t`, laid over
      whatever (`s`) the same name is in `dst`. */
  method OverlayEntry(fs: FileSystem, src: Path, dst: Path, name: Name, ghost s: Option<Tree>, ghost t: Tree)
    returns (r: StageResult<()>)
    requires Ready(fs.nodes, src, dst) && Ordinary(name)
    requires Holds(fs.nodes, src + [name], t) && HoldsOpt(fs.nodes, dst + [name], s)
    modifies fs
    ensures r.Err? ==> r.error == MergeFailure()
    ensures WellFormed(fs.nodes) && Confined(old(fs.nodes), fs.nodes, dst + [name])
    ensures r.Ok? ==>
              HoldsOpt(fs.nodes, dst + [name], if t.Link? then s else Some(Overlay(s, t)))
    ensures dst in old(fs.nodes) && fs.Reliable(src) && fs.Reliable(dst) ==> r.Ok?
    decreases t, 4
  {
    var from, to := src + [name], dst + [name];
    ghost var n0, s1 := fs.nodes, s;
    LocatePlain(n0, src, name, false);
    LocatePlain(n0, dst, name, false);
    assert Parent(to) == dst;
    ConfinedNow(n0, to);

    var meta := fs.SymlinkMetadata(from);
    if meta.None? {
      return Err(MergeFailure());
    }
    if meta.value.LinkNode? {
      return Ok(());
    }
    var existing := fs.SymlinkMetadata(to);
    if existing.Some? {
      var clash := existing.value.LinkNode? || existing.value.DirNode? != meta.value.DirNode?;
      if clash {
        var removed := Clear(fs, dst, name, existing.value.DirNode?);
        if !removed {
          return Err(MergeFailure());
        }
        ClashCountsForNothing(s.value, t);
        s1 := None;
      }
    }
    ghost var n1 := fs.nodes;
    StillReady(n0, n1, src, dst, name, t);
    if meta.value.DirNode? {
      r := PlaceDir(fs, src, dst, name, s1, t);
    } else {
      r := PlaceFile(fs, src, dst, name, t);
    }
    ConfinedTrans(n0, n1, fs.nodes, to);
  }

  /** After `create_dir_all` the directory holds what it held, or nothing when it is new. */
  lemma FoundDirectory(a: NodeMap, b: NodeMap, dst: Path, n: Name, s: Option<Tree>, found: Tree)
    requires WellFormed(a) && HoldsOpt(a, dst + [n], s) && (s.Some? ==> s.value.Dir?)
    requires GrownTowards(a, b, dst + [n]) && Plain(b, dst + [n]) && Holds(b, dst + [n], found)
    ensures EntriesOf(Some(found)) == EntriesOf(s)
  {
    var to := dst + [n];
    PlainUp(b, to);
    if s.Some? {
      GrownBelow(a, b, to);
      HoldsFrame(a, b, to, s.value);
      HoldsUnique(b, to, s.value, found);
    } else {
      forall m ensures to + [m] !in b {
        assert Parent(to + [m]) == to;
        assert SameAt(a, b, to + [m]);
      }
      assert found.Dir?;
      assert forall m :: m in found.entries ==> to + [m] in b;
      assert found.entries == map[];
    }
  }

  lemma GrownBelow(a: NodeMap, b: NodeMap, p: Path)
    requires GrownTowards(a, b, p) && p in a
    ensures forall q :: p <= q ==> SameAt(a, b, q)
  {
    forall q | p <= q ensures SameAt(a, b, q) {
      if q <= p { assert q == p; }
    }
  }

  /** The tree `m` at `p`, or nothing when there is no entry to put there and there was nothing before. */
  ghost predicate Stands(n0: NodeMap, ns: NodeMap, p: Path, m: Tree) {
    if p in ns then Holds(ns, p, m) else p !in n0 && m == Dir(map[])
  }

  /** `overlay_copy`: the tree `t` at `src` laid over what is at `dst` (`s`, or nothing), in place. Nothing
      outside `dst` is altered on any exit, and success leaves exactly the pure overlay. */
  method OverlayCopy(fs: FileSystem, src: Path, dst: Path, ghost s: Option<Tree>, ghost t: Tree)
    returns (r: StageResult<()>)
    requires WellFormed(fs.nodes) && Diverge(src, dst) && Plain(fs.nodes, src) && Plain(fs.nodes, dst)
    requires src in fs.nodes ==> Holds(fs.nodes, src, t)
    requires HoldsOpt(fs.nodes, dst, s)
    modifies fs
    ensures r.Err? ==> r.error == MergeFailure()
    ensures WellFormed(fs.nodes) && Confined(old(fs.nodes), fs.nodes, dst)
    ensures r.Ok? ==> Plain(fs.nodes, dst)
    ensures r.Ok? ==> src in old(fs.nodes) && Stands(old(fs.nodes), fs.nodes, dst, Overlay(s, t))
    ensures src in old(fs.nodes) && dst in old(fs.nodes) && fs.Reliable(src) && fs.Reliable(dst) ==> r.Ok?
    decreases t, 2
  {
    ghost var n0 := fs.nodes;
    LocatePlainDir(n0, src);
    PlainUp(n0, src);
    assert src <= src;
    ConfinedNow(n0, dst);
    var entries := fs.ReadDir(src);
    if entries.None? {
      return Err(MergeFailure());
    }
    var names := entries.value;
    ListingIsComplete(n0, src, t.entries, names);
    NothingCopied(n0, src, dst, s, t.entries, names);
    r := CopyListed(fs, src, dst, names, s, t);
    if r.Ok? { AllCopied(n0, fs.nodes, src, dst, s, t.entries, names); }
  }

  /** The loop of `overlay_copy` over the names of a directory. */
  method CopyListed(fs: FileSystem, src: Path, dst: Path, names: seq<Name>, ghost s: Option<Tree>, ghost t: Tree)
    returns (r: StageResult<()>)
    requires t.Dir? && Listing(t.entries, names)
    requires Progress(fs.nodes, fs.nodes, src, dst, s, t.entries, Seen(names, 0))
    modifies fs
    ensures r.Err? ==> r.error == MergeFailure()
    ensures WellFormed(fs.nodes) && Confined(old(fs.nodes), fs.nodes, dst)
    ensures r.Ok? ==> Progress(old(fs.nodes), fs.nodes, src, dst, s, t.entries, Seen(names, |names|))
    ensures dst in old(fs.nodes) && fs.Reliable(src) && fs.Reliable(dst) ==> r.Ok?
    decreases t, 1
  {
    ghost var n0, te := fs.nodes, t.entries;
    var i := 0;
    while i < |names|
      invariant 0 <= i <= |names|
      invariant Progress(n0, fs.nodes, src, dst, s, te, Seen(names, i))
    {
      r := NextEntry(fs, src, dst, names, i, n0, s, te, t);
      if r.Err? {
        return;
      }
      i := i + 1;
    }
    r := Ok(());
  }

  /** A directory listing: every entry once, under ordinary names. */
  ghost predicate Listing(te: map<Name, Tree>, names: seq<Name>) {
    && (forall n :: n in te <==> n in names)
    && (forall n :: n in te ==> Ordinary(n))
    && (forall j, k :: 0 <= j < k < |names| ==> names[j] != names[k])
  }

  lemma NothingCopied(ns: NodeMap, src: Path, dst: Path, s: Option<Tree>, te: map<Name, Tree>, names: seq<Name>)
    requires Ready(ns, src, dst) && Holds(ns, src, Dir(te)) && HoldsOpt(ns, dst, s)
    ensures Progress(ns, ns, src, dst, s, te, Seen(names, 0))
  {
    assert Seen(names, 0) == {};
    NoProgress(ns, src, dst, s, te);
  }

  lemma AllCopied(n0: NodeMap, ns: NodeMap, src: Path, dst: Path, s: Option<Tree>, te: map<Name, Tree>,
                  names: seq<Name>)
    requires Progress(n0, ns, src, dst, s, te, Seen(names, |names|)) && Listing(te, names)
    ensures Stands(n0, ns, dst, Overlay(s, Dir(te)))
  {
    assert names[..|names|] == names;
    assert Seen(names, |names|) == te.Keys;
    OverlayOnAll(s, te, te.Keys);
  }

  ghost function Seen(names: seq<Name>, i: nat): set<Name>
    requires i <= |names|
  {
    set n | n in names[..i]
  }

  lemma SeenGrows(te: map<Name, Tree>, names: seq<Name>, i: nat)
    requires i < |names| && Listing(te, names)
    ensures names[i] in te && Ordinary(names[i])
    ensures names[i] !in Seen(names, i) && Seen(names, i + 1) == Seen(names, i) + {names[i]}
  {
    assert names[..i + 1] == names[..i] + [names[i]];
  }

  /** Where the loop stands once the entries in `done` have been copied. */
  ghost predicate Progress(n0: NodeMap, ns: NodeMap, src: Path, dst: Path, s: Option<Tree>, te: map<Name, Tree>,
                           done: set<Name>)
  {
    && Ready(ns, src, dst) && Holds(ns, src, Dir(te)) && Confined(n0, ns, dst)
    && Stands(n0, ns, dst, Dir(OverlayOn(EntriesOf(s), te, done)))
  }

  lemma NoProgress(ns: NodeMap, src: Path, dst: Path, s: Option<Tree>, te: map<Name, Tree>)
    requires Ready(ns, src, dst) && Holds(ns, src, Dir(te)) && HoldsOpt(ns, dst, s)
    ensures Progress(ns, ns, src, dst, s, te, {})
  {
    PlainUp(ns, dst);
    OverlayOnAll(s, te, te.Keys);
    ConfinedNow(ns, dst);
  }

  /** One entry of the listing, which may turn out unreadable. */
  method NextEntry(fs: FileSystem, src: Path, dst: Path, names: seq<Name>, i: nat, ghost n0: NodeMap,
                   ghost s: Option<Tree>, ghost te: map<Name, Tree>, ghost t: Tree)
    returns (r: StageResult<()>)
    requires i < |names| && Listing(te, names) && t == Dir(te)
    requires Progress(n0, fs.nodes, src, dst, s, te, Seen(names, i))
    modifies fs
    ensures r.Err? ==> r.error == MergeFailure()
    ensures WellFormed(fs.nodes) && Confined(n0, fs.nodes, dst)
    ensures r.Ok? ==> Progress(n0, fs.nodes, src, dst, s, te, Seen(names, i + 1))
    ensures dst in n0 && fs.Reliable(src) && fs.Reliable(dst) ==> r.Ok?
    decreases t, 0
  {
    var name := names[i];
    var readable := fs.EntryReadable(src, name);
    if !readable {
      return Err(MergeFailure());
    }
    ghost var n1, done := fs.nodes, Seen(names, i);
    SeenGrows(te, names, i);
    if name == GIT {
      OverlayOnStep(EntriesOf(s), te, done, name);
      return Ok(());
    }
    ghost var sc := if dst + [name] in n1 then Some(TreeAt(n1, dst + [name])) else None;
    r := OverlayEntry(fs, src, dst, name, sc, te[name]);
    EntryFrame(n0, n1, fs.nodes, src, dst, name, Dir(te));
    if r.Ok? { EntryDone(n0, n1, fs.nodes, dst, name, EntriesOf(s), te, done, sc); }
  }

  lemma EntryFrame(n0: NodeMap, a: NodeMap, b: NodeMap, src: Path, dst: Path, n: Name, t: Tree)
    requires Ready(a, src, dst) && Holds(a, src, t) && Confined(n0, a, dst)
    requires Confined(a, b, dst + [n]) && WellFormed(b)
    ensures Ready(b, src, dst) && Holds(b, src, t) && Confined(n0, b, dst)
  {
    DivergeBelow(src, dst, src, dst + [n]);
    ConfinedBeside(a, b, dst + [n], src, t);
    ConfinedPlain(a, b, dst, n);
    ConfinedUp(a, b, dst, n);
    ConfinedTrans(n0, a, b, dst);
  }

  lemma EntryDone(n0: NodeMap, a: NodeMap, b: NodeMap, dst: Path, n: Name, se: map<Name, Tree>,
                  te: map<Name, Tree>, done: set<Name>, sc: Option<Tree>)
    requires WellFormed(a) && WellFormed(b) && Stands(n0, a, dst, Dir(OverlayOn(se, te, done)))
    requires n in te && n !in done && n != GIT
    requires HoldsOpt(a, dst + [n], sc) && Confined(a, b, dst + [n])
    requires HoldsOpt(b, dst + [n], if te[n].Link? then sc else Some(Overlay(sc, te[n])))
    ensures Stands(n0, b, dst, Dir(OverlayOn(se, te, done + {n})))
  {
    var es := OverlayOn(se, te, done);
    OverlayOnStep(se, te, done, n);
    var c := if te[n].Link? then sc else Some(Overlay(sc, te[n]));
    assert Parent(dst + [n]) == dst;
    if dst in a {
      HoldsChild(a, dst, es, n);
      if sc.Some? { HoldsUnique(a, dst + [n], sc.value, es[n]); }
      assert sc == Child(se, n);
      ConfinedReal(a, b, dst, n);
      HoldsReplace(a, b, dst, n, es, c);
    } else {
      FirstEntry(a, b, dst, n, c);
    }
    assert (if c.Some? then es[n := c.value] else es - {n}) == OverlayOn(se, te, done + {n});
  }

  /** An entry copied into a directory that was not there. */
  lemma FirstEntry(a: NodeMap, b: NodeMap, dst: Path, n: Name, c: Option<Tree>)
    requires WellFormed(a) && WellFormed(b) && dst !in a && Confined(a, b, dst + [n]) && HoldsOpt(b, dst + [n], c)
    ensures var es := if c.Some? then map[n := c.value] else map[];
            if dst in b then Holds(b, dst, Dir(es)) else es == map[]
  {
    assert Parent(dst + [n]) == dst;
    if dst in b {
      assert b[dst] == DirNode;
      forall m | m != n ensures dst + [m] !in b {
        assert Parent(dst + [m]) == dst;
        Siblings(dst, m, n, []);
        assert (dst + [m])[|dst|] == m && (dst + [n])[|dst|] == n;
      }
    }
  }

  lemma ListingIsComplete(ns: NodeMap, src: Path, te: map<Name, Tree>, names: seq<Name>)
    requires WellFormed(ns) && Holds(ns, src, Dir(te)) && (set n | n in names) == ChildNames(ns, src)
    requires forall j, k :: 0 <= j < k < |names| ==> names[j] != names[k]
    ensures Listing(te, names)
  {
    assert forall n :: n in names <==> n in set k | k in names;
    forall n ensures n in ChildNames(ns, src) <==> n in te {
      ChildNamesAre(ns, src, n);
    }
    forall n | n in te ensures Ordinary(n) {
      assert src + [n] in ns && Parent(src + [n]) == src && (src + [n])[|src|] == n;
    }
  }

  lemma OnlyItself(ns: NodeMap, p: Path, n: Name)
    requires WellFormed(ns) && p in ns
    ensures forall q :: q <= p + [n] && q !in ns ==> q == p + [n]
    ensures p <= p + [n]
  {
    forall q | q <= p + [n] && q !in ns ensures q == p + [n] {
      if q != p + [n] { ProperPrefixExists(ns, p, n, q); }
    }
  }

  /** The directory arm of the loop body. */
  method PlaceDir(fs: FileSystem, src: Path, dst: Path, name: Name, ghost s: Option<Tree>, ghost t: Tree)
    returns (r: StageResult<()>)
    requires Ready(fs.nodes, src, dst) && Ordinary(name) && t.Dir?
    requires Holds(fs.nodes, src + [name], t)
    requires HoldsOpt(fs.nodes, dst + [name], s)
    requires dst + [name] in fs.nodes ==> fs.nodes[dst + [name]].DirNode?
    modifies fs
    ensures r.Err? ==> r.error == MergeFailure()
    ensures WellFormed(fs.nodes) && Confined(old(fs.nodes), fs.nodes, dst + [name])
    ensures r.Ok? ==> Holds(fs.nodes, dst + [name], Overlay(s, t))
    ensures dst in old(fs.nodes) && fs.Reliable(src) && fs.Reliable(dst) ==> r.Ok?
    decreases t, 3
  {
    var from, to := src + [name], dst + [name];
    ghost var n0 := fs.nodes;
    PlainChild(n0, dst, name);
    if dst in n0 { OnlyItself(n0, dst, name); }
    var made := fs.CreateDirAll(to);
    ghost var n1 := fs.nodes;
    assert Confined(n0, n1, to);
    if !made {
      return Err(MergeFailure());
    }
    StillReady(n0, n1, src, dst, name, t);
    PlainChild(n1, src, name);
    DivergeBelow(src, dst, from, to);
    ghost var found := TreeAt(n1, to);
    FoundDirectory(n0, n1, dst, name, s, found);
    r := OverlayCopy(fs, from, to, Some(found), t);
    ConfinedTrans(n0, n1, fs.nodes, to);
    assert EntriesOf(s) == EntriesOf(Some(found)) ==> Overlay(s, t) == Overlay(Some(found), t);
  }

  /** The file arm of the loop body. */
  method PlaceFile(fs: FileSystem, src: Path, dst: Path, name: Name, ghost t: Tree)
    returns (r: StageResult<()>)
    requires Ready(fs.nodes, src, dst) && Ordinary(name) && t.File?
    requires Holds(fs.nodes, src + [name], t)
    requires dst + [name] in fs.nodes ==> fs.nodes[dst + [name]].FileNode?
    modifies fs
    ensures r.Err? ==> r.error == MergeFailure()
    ensures WellFormed(fs.nodes) && Confined(old(fs.nodes), fs.nodes, dst + [name])
    ensures r.Ok? ==> Holds(fs.nodes, dst + [name], t)
    ensures dst in old(fs.nodes) && fs.Reliable(src) && fs.Reliable(dst) ==> r.Ok?
  {
    ghost var n0 := fs.nodes;
    var _ := Clear(fs, dst, name, false);
    ghost var n1 := fs.nodes;
    StillReady(n0, n1, src, dst, name, t);
    var copied := CopyInto(fs, src, dst, name, t);
    ConfinedTrans(n0, n1, fs.nodes, dst + [name]);
    r := if copied then Ok(()) else Err(MergeFailure());
  }

  method CopyInto(fs: FileSystem, src: Path, dst: Path, name: Name, ghost t: Tree) returns (ok: bool)
    requires Ready(fs.nodes, src, dst) && Ordinary(name) && t.File?
    requires Holds(fs.nodes, src + [name], t)
    requires dst + [name] in fs.nodes ==> fs.nodes[dst + [name]].FileNode?
    modifies fs
    ensures WellFormed(fs.nodes) && SameOutside(old(fs.nodes), fs.nodes, dst + [name])
    ensures ok ==> Holds(fs.nodes, dst + [name], t)
    ensures dst in old(fs.nodes) && fs.Reliable(src) && fs.Reliable(dst) ==> ok
  {
    LocatePlain(fs.nodes, src, name, true);
    LocatePlain(fs.nodes, dst, name, true);
    ok := fs.Copy(src + [name], dst + [name]);
  }
}
