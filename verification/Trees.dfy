/** Finite directory trees and the pure meaning of the merge of crates/grader_lib/src/workspace.rs:
    what a student checkout becomes once the purge paths are gone and the hidden tests lie on top. */
module Trees {
  import opened Wrappers

  type Name = string
  type Path = seq<Name>
  type Bytes = seq<bv8>

  datatype Tree =
    | File(bytes: Bytes)
    | Link(absolute: bool, target: Path)
    | Dir(entries: map<Name, Tree>)

  const GIT: Name := ".git"

  /** An entry of the hidden checkout that the copy does not skip. */
  predicate Copied(es: map<Name, Tree>, n: Name) {
    n in es && n != GIT && !es[n].Link?
  }

  function Child(es: map<Name, Tree>, n: Name): Option<Tree> {
    if n in es then Some(es[n]) else None
  }

  function EntriesOf(s: Option<Tree>): map<Name, Tree> {
    if s.Some? && s.value.Dir? then s.value.entries else map[]
  }

  /** `t` laid over whatever `s` is. */
  function Overlay(s: Option<Tree>, t: Tree): Tree
    decreases t
  {
    match t
    case File(_) => t
    case Link(_, _) => t
    case Dir(te) =>
      var se := EntriesOf(s);
      Dir(map n | n in se.Keys + te.Keys && (n in se || Copied(te, n)) ::
            if Copied(te, n) then Overlay(Child(se, n), te[n]) else se[n])
  }

  /** The overlay of the entries named in `done` only: what the loop has produced so far. */
  function OverlayOn(se: map<Name, Tree>, te: map<Name, Tree>, done: set<Name>): map<Name, Tree> {
    map n | n in se.Keys + te.Keys && (n in se || (Copied(te, n) && n in done)) ::
      if Copied(te, n) && n in done then Overlay(Child(se, n), te[n]) else se[n]
  }

  /** The student tree without one relative path. */
  function Purge(s: Tree, rel: Path): Tree
    decreases rel
  {
    if !s.Dir? || rel == [] || rel[0] !in s.entries then s
    else if |rel| == 1 then Dir(s.entries - {rel[0]})
    else Dir(s.entries[rel[0] := Purge(s.entries[rel[0]], rel[1..])])
  }

  function PurgeAll(s: Tree, rels: seq<Path>): Tree
    decreases |rels|
  {
    if rels == [] then s else PurgeAll(Purge(s, rels[0]), rels[1..])
  }

  function Merge(s: Tree, t: Tree, rels: seq<Path>): Tree {
    Overlay(Some(PurgeAll(s, rels)), t)
  }

  /** The checkout after `remove_dir_all` of its `.git`, which refuses a plain file. */
  function GitDropped(s: Tree): Tree {
    if s.Dir? && GIT in s.entries && !s.entries[GIT].File? then Dir(s.entries - {GIT}) else s
  }

  predicate SameButGit(a: Tree, b: Tree) {
    a.Dir? && b.Dir? && a.entries - {GIT} == b.entries - {GIT}
  }

  // ---- Reference reading: what a path names ----

  function Subtree(t: Tree, q: Path): Option<Tree>
    decreases q
  {
    if q == [] then Some(t)
    else if t.Dir? && q[0] in t.entries then Subtree(t.entries[q[0]], q[1..])
    else None
  }

  /** A node without its children. */
  function Strip(t: Tree): Tree {
    if t.Dir? then Dir(map[]) else t
  }

  function NodeAt(t: Tree, q: Path): Option<Tree> {
    match Subtree(t, q)
    case None => None
    case Some(x) => Some(Strip(x))
  }

  /** The hidden checkout minus `.git` entries and symlinks at every depth. */
  function Sanitise(t: Tree): Tree {
    match t
    case File(_) => t
    case Link(_, _) => t
    case Dir(te) => Dir(map n | n in te && Copied(te, n) :: Sanitise(te[n]))
  }

  /** Some proper prefix of `q` is a regular file in `t`. */
  predicate FileAbove(t: Tree, q: Path)
    decreases q
  {
    q != [] && (t.File? || (t.Dir? && q[0] in t.entries && FileAbove(t.entries[q[0]], q[1..])))
  }

  predicate UnderAny(rels: seq<Path>, q: Path) {
    exists i :: 0 <= i < |rels| && rels[i] <= q
  }

  predicate Proper(rels: seq<Path>) {
    forall i :: 0 <= i < |rels| ==> rels[i] != []
  }

  // ---- The pure merge read pointwise ----

  /** The overlay node by node: the sanitised hidden node where there is one, nothing below a hidden
      file, and otherwise exactly the student's node. */
  lemma {:induction false} OverlayAt(s: Option<Tree>, t: Tree, q: Path)
    requires !t.Link?
    ensures NodeAt(Overlay(s, t), q) ==
            if Subtree(Sanitise(t), q).Some? then NodeAt(Sanitise(t), q)
            else if FileAbove(Sanitise(t), q) || s.None? then None
            else NodeAt(s.value, q)
    decreases q
  {
    if q != [] && t.Dir? {
      var n, se := q[0], EntriesOf(s);
      if Copied(t.entries, n) {
        OverlayAt(Child(se, n), t.entries[n], q[1..]);
      }
    }
  }

  lemma {:induction false} PurgeAt(s: Tree, rel: Path, q: Path)
    requires rel != []
    ensures NodeAt(Purge(s, rel), q) == if rel <= q then None else NodeAt(s, q)
    decreases rel
  {
    if s.Dir? && rel[0] in s.entries && q != [] && q[0] == rel[0] {
      if |rel| == 1 {
        assert rel == q[..1];
      } else {
        PurgeAt(s.entries[rel[0]], rel[1..], q[1..]);
        assert rel[1..] <= q[1..] <==> rel <= q by {
          assert rel == [rel[0]] + rel[1..] && q == [q[0]] + q[1..];
        }
      }
    }
  }

  lemma {:induction false} PurgeAllAt(s: Tree, rels: seq<Path>, q: Path)
    requires Proper(rels)
    ensures NodeAt(PurgeAll(s, rels), q) == if UnderAny(rels, q) then None else NodeAt(s, q)
    decreases rels
  {
    if rels != [] {
      PurgeAt(s, rels[0], q);
      PurgeAllAt(Purge(s, rels[0]), rels[1..], q);
      if UnderAny(rels, q) && !(rels[0] <= q) {
        var i :| 0 <= i < |rels| && rels[i] <= q;
        assert rels[1..][i - 1] <= q;
      }
    }
  }

  lemma MergeAt(s: Tree, t: Tree, rels: seq<Path>, q: Path)
    requires !t.Link? && Proper(rels)
    ensures NodeAt(Merge(s, t, rels), q) ==
            if Subtree(Sanitise(t), q).Some? then NodeAt(Sanitise(t), q)
            else if FileAbove(Sanitise(t), q) || UnderAny(rels, q) then None
            else NodeAt(s, q)
  {
    OverlayAt(Some(PurgeAll(s, rels)), t, q);
    PurgeAllAt(s, rels, q);
  }

  lemma NodeBelow(t: Tree, n: Name, q: Path)
    requires t.Dir?
    ensures NodeAt(t, [n] + q) == if n in t.entries then NodeAt(t.entries[n], q) else None
  {
    assert ([n] + q)[1..] == q;
  }

  lemma MapsFromChildren(a: map<Name, Tree>, b: map<Name, Tree>)
    requires forall n :: Child(a, n) == Child(b, n)
    ensures a == b
  {
    forall n ensures (n in a <==> n in b) && (n in a ==> a[n] == b[n]) {
      assert Child(a, n) == Child(b, n);
    }
  }

  /** Two trees with the same node at every path are the same tree. */
  lemma {:induction false} SameNodes(a: Tree, b: Tree)
    requires forall q :: NodeAt(a, q) == NodeAt(b, q)
    ensures a == b
    decreases a
  {
    assert NodeAt(a, []) == NodeAt(b, []);
    if a.Dir? {
      forall n ensures Child(a.entries, n) == Child(b.entries, n) {
        NodeBelow(a, n, []);
        NodeBelow(b, n, []);
        assert NodeAt(a, [n] + []) == NodeAt(b, [n] + []);
        if n in a.entries {
          forall q ensures NodeAt(a.entries[n], q) == NodeAt(b.entries[n], q) {
            NodeBelow(a, n, q);
            NodeBelow(b, n, q);
            assert NodeAt(a, [n] + q) == NodeAt(b, [n] + q);
          }
          SameNodes(a.entries[n], b.entries[n]);
        }
      }
      MapsFromChildren(a.entries, b.entries);
    }
  }

  lemma {:induction false} SubtreeAt(t: Tree, p: Path, q: Path)
    ensures Subtree(t, p + q) == match Subtree(t, p) case None => None case Some(x) => Subtree(x, q)
    decreases p
  {
    if p == [] {
      assert p + q == q;
    } else {
      assert (p + q)[1..] == p[1..] + q;
      if t.Dir? && p[0] in t.entries { SubtreeAt(t.entries[p[0]], p[1..], q); }
    }
  }

  // ---- What the merge guarantees ----

  /** Two trees with the same node at and below a path have the same subtree there. */
  lemma SubtreeFromNodes(a: Tree, b: Tree, r: Path)
    requires forall q :: NodeAt(a, r + q) == NodeAt(b, r + q)
    ensures Subtree(a, r) == Subtree(b, r)
  {
    assert r + [] == r;
    assert NodeAt(a, r + []) == NodeAt(b, r + []);
    if Subtree(a, r).Some? {
      forall q ensures NodeAt(Subtree(a, r).value, q) == NodeAt(Subtree(b, r).value, q) {
        assert NodeAt(a, r + q) == NodeAt(b, r + q);
        SubtreeAt(a, r, q);
        SubtreeAt(b, r, q);
      }
      SameNodes(Subtree(a, r).value, Subtree(b, r).value);
    }
  }

  /** Where the student tree has nothing, the overlay is the sanitised hidden subtree, or nothing when the
      hidden repository has none. */
  lemma HiddenWhereAbsent(s: Option<Tree>, t: Tree, rel: Path)
    requires !t.Link? && (s.Some? ==> Subtree(s.value, rel).None?)
    ensures Subtree(Overlay(s, t), rel) == Subtree(Sanitise(t), rel)
  {
    forall q ensures NodeAt(Overlay(s, t), rel + q) == NodeAt(Sanitise(t), rel + q) {
      OverlayAt(s, t, rel + q);
      if s.Some? { SubtreeAt(s.value, rel, q); }
    }
    SubtreeFromNodes(Overlay(s, t), Sanitise(t), rel);
  }

  // ---- Purging the hidden tree itself ----

  /** Purging at `x` takes nothing from `h` at or below `r`. */
  predicate Apart(h: Tree, x: Path, r: Path) {
    (r <= x ==> Subtree(h, x).None?) && (x <= r ==> Subtree(h, r).None?)
  }

  lemma NothingUnder(h: Tree, p: Path, q: Path)
    requires p <= q && Subtree(h, p).None?
    ensures Subtree(h, q).None?
  {
    SubtreeAt(h, p, q[|p|..]);
    assert p + q[|p|..] == q;
  }

  lemma ApartKeeps(h: Tree, xs: seq<Path>, r: Path, q: Path)
    requires Proper(xs) && forall i :: 0 <= i < |xs| ==> Apart(h, xs[i], r)
    ensures NodeAt(PurgeAll(h, xs), r + q) == NodeAt(h, r + q)
  {
    PurgeAllAt(h, xs, r + q);
    if UnderAny(xs, r + q) {
      var i :| 0 <= i < |xs| && xs[i] <= r + q;
      assert Apart(h, xs[i], r);
      if |r| <= |xs[i]| {
        assert r == (r + q)[..|r|] == xs[i][..|r|];
        NothingUnder(h, xs[i], r + q);
      } else {
        assert xs[i] == (r + q)[..|xs[i]|] == r[..|xs[i]|];
        NothingUnder(h, r, r + q);
      }
    }
  }

  /** A tree keeps exactly its subtree at `r` under a list of purges if and only if each of them is apart. */
  lemma PurgedApartIff(h: Tree, xs: seq<Path>, r: Path)
    requires Proper(xs)
    ensures Subtree(PurgeAll(h, xs), r) == Subtree(h, r) <==> forall i :: 0 <= i < |xs| ==> Apart(h, xs[i], r)
  {
    var b := PurgeAll(h, xs);
    if forall i :: 0 <= i < |xs| ==> Apart(h, xs[i], r) {
      forall q ensures NodeAt(b, r + q) == NodeAt(h, r + q) { ApartKeeps(h, xs, r, q); }
      SubtreeFromNodes(b, h, r);
    } else if Subtree(b, r) == Subtree(h, r) {
      var i :| 0 <= i < |xs| && !Apart(h, xs[i], r);
      var x := xs[i];
      PurgeAllAt(h, xs, x);
      PurgeAllAt(h, xs, r);
      assert x <= x;
      if r <= x {
        assert x == r + x[|r|..];
        SubtreeAt(b, r, x[|r|..]);
        SubtreeAt(h, r, x[|r|..]);
      }
    }
  }

  lemma {:induction false} SanitisePurge(t: Tree, rel: Path)
    ensures Sanitise(Purge(t, rel)) == Purge(Sanitise(t), rel)
    decreases rel
  {
    if t.Dir? && rel != [] && rel[0] in t.entries {
      if |rel| > 1 { SanitisePurge(t.entries[rel[0]], rel[1..]); }
      assert Sanitise(Purge(t, rel)).entries == Purge(Sanitise(t), rel).entries;
    }
  }

  lemma {:induction false} SanitisePurgeAll(t: Tree, rels: seq<Path>)
    ensures Sanitise(PurgeAll(t, rels)) == PurgeAll(Sanitise(t), rels)
    decreases rels
  {
    if rels != [] {
      SanitisePurge(t, rels[0]);
      SanitisePurgeAll(Purge(t, rels[0]), rels[1..]);
    }
  }

  // ---- The promise of the merge ----

  /** The hidden suite is authoritative: a purged path holds exactly the sanitised hidden subtree
      there, or nothing when the hidden repository has none. */
  lemma HiddenSuiteIsAuthoritative(s: Tree, t: Tree, rels: seq<Path>, i: nat)
    requires !t.Link? && Proper(rels) && i < |rels|
    ensures Subtree(Merge(s, t, rels), rels[i]) == Subtree(Sanitise(t), rels[i])
  {
    PurgeAllAt(s, rels, rels[i]);
    assert rels[i] <= rels[i];
    HiddenWhereAbsent(Some(PurgeAll(s, rels)), t, rels[i]);
  }

  /** Nothing a student puts below a purged path can reach the merged project. */
  lemma PurgedContentIsIrrelevant(s1: Tree, s2: Tree, t: Tree, rels: seq<Path>)
    requires !t.Link? && Proper(rels)
    requires forall q :: !UnderAny(rels, q) ==> NodeAt(s1, q) == NodeAt(s2, q)
    ensures Merge(s1, t, rels) == Merge(s2, t, rels)
  {
    forall q ensures NodeAt(Merge(s1, t, rels), q) == NodeAt(Merge(s2, t, rels), q) {
      MergeAt(s1, t, rels, q);
      MergeAt(s2, t, rels, q);
    }
    SameNodes(Merge(s1, t, rels), Merge(s2, t, rels));
  }

  /** Merging the same hidden tests into the result again changes nothing. */
  lemma MergeIsIdempotent(s: Tree, t: Tree, rels: seq<Path>)
    requires !t.Link? && Proper(rels)
    ensures Merge(Merge(s, t, rels), t, rels) == Merge(s, t, rels)
  {
    var m := Merge(s, t, rels);
    forall q ensures NodeAt(Merge(m, t, rels), q) == NodeAt(m, q) {
      MergeAt(m, t, rels, q);
      MergeAt(s, t, rels, q);
    }
    SameNodes(Merge(m, t, rels), m);
  }

  /** No entry called `.git` and no symlink ever arrives from the hidden checkout: every such node of
      the result was the student's. */
  lemma OnlyStudentLinksSurvive(s: Tree, t: Tree, rels: seq<Path>, q: Path)
    requires !t.Link? && Proper(rels)
    requires NodeAt(Merge(s, t, rels), q).Some?
    requires NodeAt(Merge(s, t, rels), q).value.Link? || GIT in q
    ensures NodeAt(Merge(s, t, rels), q) == NodeAt(s, q) && !UnderAny(rels, q)
  {
    MergeAt(s, t, rels, q);
    if Subtree(Sanitise(t), q).Some? { SanitisedIsClean(t, q); }
  }

  lemma {:induction false} SanitisedIsClean(t: Tree, q: Path)
    requires !t.Link? && Subtree(Sanitise(t), q).Some?
    ensures !Subtree(Sanitise(t), q).value.Link? && GIT !in q
    decreases q
  {
    if q != [] {
      SanitisedIsClean(t.entries[q[0]], q[1..]);
      assert q == [q[0]] + q[1..];
    }
  }

  /** Sanitising drops exactly what lies at or below an entry called `.git` or a symlink, and alters nothing
      else. */
  lemma {:induction false} SanitiseIs(t: Tree, q: Path)
    requires !t.Link?
    ensures Subtree(Sanitise(t), q).Some? <==> Subtree(t, q).Some? && !Subtree(t, q).value.Link? && ".git" !in q
    ensures Subtree(Sanitise(t), q).Some? ==> NodeAt(Sanitise(t), q) == NodeAt(t, q)
    decreases q
  {
    if q != [] {
      assert q == [q[0]] + q[1..];
      if t.Dir? && q[0] in t.entries {
        if t.entries[q[0]].Link? {
          assert q[1..] == [] ==> Subtree(t, q) == Some(t.entries[q[0]]);
        } else {
          SanitiseIs(t.entries[q[0]], q[1..]);
        }
      }
    }
  }

  /** Which entries the loop has handled, in whichever order, is all that matters to its result. */
  lemma OverlayOnStep(se: map<Name, Tree>, te: map<Name, Tree>, done: set<Name>, n: Name)
    requires n in te && n !in done
    ensures OverlayOn(se, te, done + {n}) ==
            if Copied(te, n) then OverlayOn(se, te, done)[n := Overlay(Child(se, n), te[n])]
            else OverlayOn(se, te, done)
    ensures Child(OverlayOn(se, te, done), n) == Child(se, n)
  {
  }

  lemma OverlayOnAll(s: Option<Tree>, te: map<Name, Tree>, done: set<Name>)
    requires done == te.Keys
    ensures Dir(OverlayOn(EntriesOf(s), te, done)) == Overlay(s, Dir(te))
    ensures OverlayOn(EntriesOf(s), te, {}) == EntriesOf(s)
  {
    assert OverlayOn(EntriesOf(s), te, {}) == EntriesOf(s);
    assert OverlayOn(EntriesOf(s), te, done) == Overlay(s, Dir(te)).entries;
  }

  /** The loop's work on one directory when the listing comes in the order `names`. */
  function CopyInOrder(acc: map<Name, Tree>, te: map<Name, Tree>, names: seq<Name>): map<Name, Tree>
    decreases |names|
  {
    if names == [] then acc
    else
      var n := names[0];
      CopyInOrder(if Copied(te, n) then acc[n := Overlay(Child(acc, n), te[n])] else acc, te, names[1..])
  }

  lemma {:induction false} CopyInOrderOn(se: map<Name, Tree>, te: map<Name, Tree>, done: set<Name>, names: seq<Name>)
    requires forall i :: 0 <= i < |names| ==> names[i] in te && names[i] !in done
    requires forall i, j :: 0 <= i < j < |names| ==> names[i] != names[j]
    ensures CopyInOrder(OverlayOn(se, te, done), te, names) == OverlayOn(se, te, done + set n | n in names)
    decreases |names|
  {
    if names == [] {
      assert done + (set n | n in names) == done;
    } else {
      OverlayOnStep(se, te, done, names[0]);
      CopyInOrderOn(se, te, done + {names[0]}, names[1..]);
      assert names == [names[0]] + names[1..];
      assert done + (set n | n in names) == done + {names[0]} + set n | n in names[1..];
    }
  }

  /** Confluence: whatever order the directory listing has, the copied directory is the same. */
  lemma AnyListingOrder(s: Option<Tree>, te: map<Name, Tree>, names: seq<Name>)
    requires (set n | n in names) == te.Keys
    requires forall i, j :: 0 <= i < j < |names| ==> names[i] != names[j]
    ensures Dir(CopyInOrder(EntriesOf(s), te, names)) == Overlay(s, Dir(te))
  {
    forall i | 0 <= i < |names| ensures names[i] in te {
      assert names[i] in set n | n in names;
    }
    CopyInOrderOn(EntriesOf(s), te, {}, names);
    assert {} + (set n | n in names) == te.Keys;
    OverlayOnAll(s, te, te.Keys);
  }

  // ---- Sizes ----

  ghost function Total(m: map<Name, nat>): nat
    decreases |m|
  {
    if m == map[] then 0
    else var n :| n in m; m[n] + Total(m - {n})
  }

  lemma {:induction false} TotalSplit(m: map<Name, nat>, k: Name)
    requires k in m
    ensures Total(m) == m[k] + Total(m - {k})
    decreases |m|
  {
    var n :| n in m && Total(m) == m[n] + Total(m - {n});
    if n != k {
      TotalSplit(m - {n}, k);
      TotalSplit(m - {k}, n);
      assert m - {n} - {k} == m - {k} - {n};
    }
  }

  /** The sum over a map bounded entry by entry by two other maps. */
  lemma {:induction false} TotalBound(m: map<Name, nat>, a: map<Name, nat>, b: map<Name, nat>)
    requires forall n :: n in m ==> m[n] <= (if n in a then a[n] else 0) + (if n in b then b[n] else 0)
    ensures Total(m) <= Total(a) + Total(b)
    decreases |m|
  {
    if m != map[] {
      var n :| n in m;
      TotalSplit(m, n);
      if n in a { TotalSplit(a, n); }
      if n in b { TotalSplit(b, n); }
      TotalBound(m - {n}, a - {n}, b - {n});
      assert n !in a ==> a - {n} == a;
      assert n !in b ==> b - {n} == b;
    }
  }

  /** Bytes in regular files, symlinks not counted. */
  ghost function SizeOf(t: Tree): nat {
    match t
    case File(bytes) => |bytes|
    case Link(_, _) => 0
    case Dir(es) => Total(map n | n in es :: SizeOf(es[n]))
  }

  ghost function Sizes(es: map<Name, Tree>): map<Name, nat> {
    map n | n in es :: SizeOf(es[n])
  }

  lemma {:induction false} OverlaySize(s: Option<Tree>, t: Tree)
    ensures SizeOf(Overlay(s, t)) <= (if s.Some? then SizeOf(s.value) else 0) + SizeOf(t)
    decreases t
  {
    if t.Dir? {
      var se, te := EntriesOf(s), t.entries;
      var me := Overlay(s, t).entries;
      forall n | n in me
        ensures Sizes(me)[n] <= (if n in se then Sizes(se)[n] else 0) + (if n in te then Sizes(te)[n] else 0)
      {
        if Copied(te, n) { OverlaySize(Child(se, n), te[n]); }
      }
      TotalBound(Sizes(me), Sizes(se), Sizes(te));
      assert Sizes(map[]) == map[];
    }
  }

  lemma {:induction false} PurgeSize(s: Tree, rel: Path)
    ensures SizeOf(Purge(s, rel)) <= SizeOf(s)
    decreases rel
  {
    if s.Dir? && rel != [] && rel[0] in s.entries {
      if |rel| > 1 { PurgeSize(s.entries[rel[0]], rel[1..]); }
      TotalBound(Sizes(Purge(s, rel).entries), Sizes(s.entries), map[]);
    }
  }

  lemma {:induction false} PurgeAllSize(s: Tree, rels: seq<Path>)
    ensures SizeOf(PurgeAll(s, rels)) <= SizeOf(s)
    decreases rels
  {
    if rels != [] {
      PurgeSize(s, rels[0]);
      PurgeAllSize(Purge(s, rels[0]), rels[1..]);
    }
  }

  /** The merged project is never larger than the two checkouts the size gate summed. */
  lemma MergeSize(s: Tree, t: Tree, rels: seq<Path>)
    ensures SizeOf(Merge(s, t, rels)) <= SizeOf(s) + SizeOf(t)
  {
    OverlaySize(Some(PurgeAll(s, rels)), t);
    PurgeAllSize(s, rels);
  }
}
