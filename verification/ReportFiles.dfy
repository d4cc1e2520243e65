/** The report files of a workspace: `resolve_reports` of crates/grader_lib/src/scheduler.rs and `xml_files_in`
    of crates/grader_lib/src/junit.rs. */
module ReportFiles {
  import opened Wrappers
  import opened Trees
  import opened Nodes
  import opened FileSystems
  import opened Junit
  import opened Reports

  /** A file the runner was told to write, or a directory it drops `*.xml` files in, from the workspace root. */
  datatype ReportLocation = InFile(path: Path) | InDir(path: Path)

  /** What the bytes of a file decode to, for those that are text. */
  type Lexer = imap<Bytes, seq<Event>>

  // ---- The order of the files ----

  /** File names in the order of their characters. */
  predicate Before(a: Name, b: Name) {
    b != "" && (a == "" || a[0] < b[0] || (a[0] == b[0] && Before(a[1..], b[1..])))
  }

  /** A proper prefix comes first, and otherwise the smaller of the first two characters that differ. */
  lemma {:induction false} BeforeIs(a: Name, b: Name)
    ensures Before(a, b) <==> a < b || exists k :: 0 <= k < |a| && k < |b| && a[..k] == b[..k] && a[k] < b[k]
    decreases |a|
  {
    if a != "" && b != "" && a[0] == b[0] {
      BeforeIs(a[1..], b[1..]);
      assert a == [a[0]] + a[1..] && b == [b[0]] + b[1..];
      assert a < b <==> a[1..] < b[1..];
      if k :| 0 <= k < |a[1..]| && k < |b[1..]| && a[1..][..k] == b[1..][..k] && a[1..][k] < b[1..][k] {
        assert a[..k + 1] == [a[0]] + a[1..][..k] && b[..k + 1] == [b[0]] + b[1..][..k];
        assert a[k + 1] < b[k + 1];
      }
      if k :| 0 <= k < |a| && k < |b| && a[..k] == b[..k] && a[k] < b[k] {
        assert k > 0 && a[1..][..k - 1] == a[..k][1..] && b[1..][..k - 1] == b[..k][1..];
        assert a[1..][k - 1] < b[1..][k - 1];
      }
    } else if a != "" && b != "" {
      if a[0] < b[0] { assert a[..0] == b[..0]; }
      forall k | 0 < k < |a| && k < |b| ensures a[..k] != b[..k] { assert a[..k][0] != b[..k][0]; }
    }
  }

  lemma {:induction false} BeforeIsTotal(a: Name, b: Name)
    ensures a == b || Before(a, b) || Before(b, a)
    ensures !(Before(a, b) && Before(b, a)) && !Before(a, a)
    decreases |a|
  {
    if a != "" && b != "" && a[0] == b[0] {
      BeforeIsTotal(a[1..], b[1..]);
      assert a == [a[0]] + a[1..] && b == [b[0]] + b[1..];
    }
    if a != "" { BeforeIsTotal(a[1..], a[1..]); }
  }

  lemma {:induction false} BeforeIsTransitive(a: Name, b: Name, c: Name)
    requires Before(a, b) && Before(b, c)
    ensures Before(a, c)
    decreases |a|
  {
    if a != "" && a[0] == b[0] == c[0] { BeforeIsTransitive(a[1..], b[1..], c[1..]); }
  }

  ghost predicate Ascending(names: seq<Name>) {
    forall i, j :: 0 <= i < j < |names| ==> Before(names[i], names[j])
  }

  function Insert(names: seq<Name>, n: Name): seq<Name> {
    if names == [] || Before(n, names[0]) then [n] + names else [names[0]] + Insert(names[1..], n)
  }

  lemma {:induction false} InsertIs(names: seq<Name>, n: Name)
    requires Ascending(names) && n !in names
    ensures Ascending(Insert(names, n))
    ensures forall m :: m in Insert(names, n) <==> m == n || m in names
    decreases |names|
  {
    var r := Insert(names, n);
    if names != [] {
      BeforeIsTotal(n, names[0]);
      if Before(n, names[0]) {
        forall j | 0 < j < |r| ensures Before(n, r[j]) {
          if j > 1 { BeforeIsTransitive(n, names[0], names[j - 1]); }
        }
      } else {
        InsertIs(names[1..], n);
        assert names == [names[0]] + names[1..];
        forall j | 0 < j < |r| ensures Before(names[0], r[j]) {
          assert r[j] in Insert(names[1..], n);
        }
      }
    }
  }

  /** Two ascending lists of the same names are the same list. */
  lemma {:induction false} AscendingIsUnique(a: seq<Name>, b: seq<Name>)
    requires Ascending(a) && Ascending(b) && forall n :: n in a <==> n in b
    ensures a == b
    decreases |a|
  {
    assert b != [] ==> b[0] in b;
    if a != [] {
      assert a[0] in b;
      assert b[0] in a;
      BeforeIsTotal(a[0], b[0]);
      forall n ensures n in a[1..] <==> n in b[1..] {
        Rest(a, n);
        Rest(b, n);
      }
      AscendingIsUnique(a[1..], b[1..]);
      assert a == [a[0]] + a[1..] && b == [b[0]] + b[1..];
    }
  }

  lemma Rest(a: seq<Name>, n: Name)
    requires Ascending(a) && a != []
    ensures n in a[1..] <==> n in a && n != a[0]
  {
    BeforeIsTotal(a[0], a[0]);
    assert a == [a[0]] + a[1..];
    forall i | 0 < i < |a| ensures a[i] != a[0] {
      assert Before(a[0], a[i]);
    }
  }

  ghost function Sorted(names: set<Name>): (r: seq<Name>)
    ensures Ascending(r) && forall n :: n in r <==> n in names
    decreases |names|
  {
    if names == {} then []
    else
      var n :| n in names;
      InsertIs(Sorted(names - {n}), n);
      Insert(Sorted(names - {n}), n)
  }

  // ---- Which files ----

  /** The extension is `xml`; a name that only starts with its dot has none. */
  predicate XmlName(n: Name) {
    |n| > 4 && n[|n| - 4..] == ".xml"
  }

  /** The reports of a directory, whatever kind of node bears the name. */
  function XmlNames(ns: NodeMap, dir: Path): set<Name> {
    var q := Locate(ns, dir, true);
    if q.Some? && q.value in ns && ns[q.value].DirNode? then set n | n in ChildNames(ns, q.value) && XmlName(n) else {}
  }

  function Under(dir: Path, names: seq<Name>): seq<Path> {
    seq(|names|, i requires 0 <= i < |names| => dir + [names[i]])
  }

  /** The report files of a workspace, in order. */
  ghost function Found(ns: NodeMap, root: Path, report: ReportLocation): seq<Path> {
    match report
    case InFile(path) =>
      var q := Locate(ns, root + path, true);
      if q.Some? && q.value in ns && ns[q.value].FileNode? then [root + path] else []
    case InDir(path) => Under(root + path, Sorted(XmlNames(ns, root + path)))
  }

  function Content(ns: NodeMap, lex: Lexer, p: Path): ReportFile {
    var q := Locate(ns, p, true);
    if q.Some? && q.value in ns && ns[q.value].FileNode? && ns[q.value].bytes in lex then Some(lex[ns[q.value].bytes])
    else None
  }

  function Contents(ns: NodeMap, lex: Lexer, paths: seq<Path>): seq<ReportFile> {
    seq(|paths|, i requires 0 <= i < |paths| => Content(ns, lex, paths[i]))
  }

  /** The reports of a workspace as the reader finds them. */
  ghost function ReportsIn(ns: NodeMap, root: Path, report: ReportLocation, lex: Lexer): seq<ReportFile> {
    Contents(ns, lex, Found(ns, root, report))
  }

  /** No place that has to be read is faulty. */
  ghost predicate Legible(faulty: iset<Path>, ns: NodeMap, root: Path, report: ReportLocation) {
    && (var d := Locate(ns, root + report.path, true); d.Some? ==> d.value !in faulty)
    && (report.InDir? ==> forall n: Name :: root + report.path + [n] !in faulty)
    && (forall p :: p in Found(ns, root, report) ==>
                      var q := Locate(ns, p, true); q.Some? ==> q.value !in faulty)
  }

  /** `paths` is some of the report files, each once and in order. */
  ghost predicate SomeOf(ns: NodeMap, root: Path, report: ReportLocation, paths: seq<Path>) {
    match report
    case InFile(_) => paths == [] || paths == Found(ns, root, report)
    case InDir(path) =>
      exists names :: Ascending(names) && (forall n :: n in names ==> n in XmlNames(ns, root + path)) &&
                      paths == Under(root + path, names)
  }

  // ---- Finding and reading them ----

  /** `xml_files_in`: a directory that cannot be read has no files, and an entry that cannot be read ends the
      listing. */
  method XmlFilesIn(fs: FileSystem, dir: Path) returns (names: seq<Name>)
    requires WellFormed(fs.nodes)
    ensures Ascending(names) && forall n :: n in names ==> n in XmlNames(fs.nodes, dir)
    ensures var d := Locate(fs.nodes, dir, true);
            (d.Some? ==> d.value !in fs.faulty) && (forall n: Name :: dir + [n] !in fs.faulty) ==>
              names == Sorted(XmlNames(fs.nodes, dir))
  {
    names := [];
    var entries := fs.ReadDir(dir);
    if entries.None? {
      return;
    }
    var i := 0;
    while i < |entries.value|
      invariant 0 <= i <= |entries.value|
      invariant Ascending(names)
      invariant forall n :: n in names <==> n in entries.value[..i] && XmlName(n)
    {
      var n := entries.value[i];
      var readable := fs.EntryReadable(dir, n);
      if !readable {
        break;
      }
      assert entries.value[..i + 1] == entries.value[..i] + [n];
      if XmlName(n) {
        InsertIs(names, n);
        names := Insert(names, n);
      }
      i := i + 1;
    }
    ListedAreFound(fs.nodes, dir, entries.value, i, names);
  }

  lemma ListedAreFound(ns: NodeMap, dir: Path, listed: seq<Name>, i: nat, names: seq<Name>)
    requires i <= |listed| && Ascending(names) && forall n :: n in names <==> n in listed[..i] && XmlName(n)
    requires var d := Locate(ns, dir, true);
             d.Some? && d.value in ns && ns[d.value].DirNode? && (set n | n in listed) == ChildNames(ns, d.value)
    ensures forall n :: n in names ==> n in XmlNames(ns, dir)
    ensures i == |listed| ==> names == Sorted(XmlNames(ns, dir))
  {
    forall n ensures n in listed <==> n in ChildNames(ns, Locate(ns, dir, true).value) {
      assert n in listed <==> n in set m | m in listed;
    }
    if i == |listed| {
      assert listed[..i] == listed;
      AscendingIsUnique(names, Sorted(XmlNames(ns, dir)));
    }
  }

  /** `resolve_reports`. */
  method ResolveReports(fs: FileSystem, root: Path, report: ReportLocation) returns (paths: seq<Path>)
    requires WellFormed(fs.nodes)
    ensures SomeOf(fs.nodes, root, report, paths)
    ensures Legible(fs.faulty, fs.nodes, root, report) ==> paths == Found(fs.nodes, root, report)
  {
    match report
    case InFile(path) =>
      var there := fs.IsFile(root + path);
      paths := if there then [root + path] else [];
    case InDir(path) =>
      var names := XmlFilesIn(fs, root + path);
      paths := Under(root + path, names);
  }

  /** The content of a file, or nothing when its place is faulty. */
  ghost predicate ReadOrFailed(fs: FileSystem, lex: Lexer, p: Path, file: ReportFile)
    reads fs
  {
    file == Content(fs.nodes, lex, p) ||
    (file.None? && var q := Locate(fs.nodes, p, true); q.Some? && q.value in fs.faulty)
  }

  /** Every report file read; `None` for one that cannot be read as text. */
  method ReadReports(fs: FileSystem, paths: seq<Path>, lex: Lexer) returns (files: seq<ReportFile>)
    ensures |files| == |paths|
    ensures forall i :: 0 <= i < |paths| ==> ReadOrFailed(fs, lex, paths[i], files[i])
  {
    files := [];
    var i := 0;
    while i < |paths|
      invariant 0 <= i <= |paths| && |files| == i
      invariant forall j :: 0 <= j < i ==> ReadOrFailed(fs, lex, paths[j], files[j])
    {
      var bytes := fs.Read(paths[i]);
      files := files + [if bytes.Some? && bytes.value in lex then Some(lex[bytes.value]) else None];
      i := i + 1;
    }
  }

  lemma {:induction false} CollectedWereRead(files: seq<ReportFile>)
    requires Collect(files).Ok?
    ensures forall i :: 0 <= i < |files| ==> files[i].Some?
    decreases |files|
  {
    if files != [] {
      CollectedWereRead(files[1..]);
      assert files == [files[0]] + files[1..];
    }
  }

  /** What is read without an error is what the files hold. */
  lemma CollectedIsContent(fs: FileSystem, lex: Lexer, paths: seq<Path>, files: seq<ReportFile>)
    requires |files| == |paths| && forall i :: 0 <= i < |paths| ==> ReadOrFailed(fs, lex, paths[i], files[i])
    ensures Collect(files).Ok? ==> files == Contents(fs.nodes, lex, paths)
    ensures (forall p :: p in paths ==> var q := Locate(fs.nodes, p, true); q.Some? ==> q.value !in fs.faulty) ==>
              files == Contents(fs.nodes, lex, paths)
  {
    if Collect(files).Ok? { CollectedWereRead(files); }
  }

  // ---- A report that was committed ----

  /** Every component of a node's path is ordinary, and all on the way are directories. */
  lemma {:induction false} NodeIsPlain(ns: NodeMap, p: Path)
    requires WellFormed(ns) && p in ns && p != []
    ensures Plain(ns, Parent(p)) && Parent(p) in ns && OrdinaryPath(p)
    decreases |p|
  {
    var d := Parent(p);
    assert d in ns;
    if d != [] { NodeIsPlain(ns, d); }
    forall i | 0 <= i < |p| ensures Ordinary(p[i]) {
      if i < |d| { assert d[i] == p[i]; }
    }
    forall i | 0 <= i <= |d| && d[..i] in ns ensures ns[d[..i]].DirNode? {
      PrefixExists(ns, p, d[..i]);
    }
  }

  /** A regular file with a report's name in a report directory is one of the reports. */
  lemma FileIsFound(ns: NodeMap, root: Path, report: ReportLocation, n: Name, bytes: Bytes, lex: Lexer)
    requires WellFormed(ns) && report.InDir? && report.path != [] && XmlName(n)
    requires root + report.path + [n] in ns && ns[root + report.path + [n]] == FileNode(bytes)
    ensures var p := root + report.path + [n];
            p in Found(ns, root, report) && Content(ns, lex, p) == if bytes in lex then Some(lex[bytes]) else None
  {
    var dir := root + report.path;
    var p := dir + [n];
    assert Parent(p) == dir;
    NodeIsPlain(ns, p);
    LocatePlainDir(ns, dir);
    PlainUp(ns, dir);
    LocatePlain(ns, dir, n, true);
    ChildNamesAre(ns, dir, n);
    var names := Sorted(XmlNames(ns, dir));
    assert n in names;
    var i :| 0 <= i < |names| && names[i] == n;
    assert Found(ns, root, report)[i] == p;
  }
}
