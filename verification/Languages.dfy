/** crates/grader_lib/src/languages.rs: the paths each language purges, which of them can meet a symlink on
    the way, and where each language leaves its reports. */
module Languages {
  import opened Wrappers
  import opened Trees
  import opened Nodes
  import opened Purging
  import opened Merging
  import opened ReportFiles

  datatype TaskLanguage = Javascript | Py | Java

  function PurgeList(language: TaskLanguage): seq<Path> {
    match language
    case Javascript => [["tests"], ["test"], ["__tests__"]]
    case Py => [["tests"], ["test"]]
    case Java => [["src", "test"]]
  }

  predicate SrcIsLink(s: Tree) {
    s.Dir? && "src" in s.entries && s.entries["src"].Link?
  }

  /** The one-component lists are safe for every checkout, the Java list exactly when `src` is not a
      symlink. */
  lemma PurgePathsSafety(language: TaskLanguage, s: Tree)
    ensures Proper(PurgeList(language)) && OrdinaryRels(PurgeList(language))
    ensures SafePaths(s, PurgeList(language)) <==> !(language.Java? && SrcIsLink(s))
  {
    var rels := PurgeList(language);
    if language.Java? {
      assert rels[0] == ["src", "test"] && ["src", "test"][1..] == ["test"];
      assert SafePaths(s, rels) <==> SafePath(s, ["src", "test"]);
    }
  }

  /** None of the lists can reach the project directory itself. */
  lemma PurgeStaysBelowProject(language: TaskLanguage, ns: NodeMap, root: Path)
    requires Contained(ns, root + ["project"], PurgeList(language)) && root + ["project"] in ns
    ensures Inside(ns, root + ["project"], PurgeList(language))
  {
    PurgePathsSafety(language, Dir(map[]));
    ContainedIsInside(ns, root + ["project"], PurgeList(language));
  }

  // ---- What the merge means for each language ----

  /** At or below a directory of tests. */
  predicate IsTestPath(language: TaskLanguage, q: Path) {
    match language
    case Javascript => q != [] && q[0] in {"tests", "test", "__tests__"}
    case Py => q != [] && q[0] in {"tests", "test"}
    case Java => |q| >= 2 && q[0] == "src" && q[1] == "test"
  }

  /** `m` holds at `r` what the hidden tree has there, less `.git` and symlinks. */
  ghost predicate SuiteAt(m: Tree, t: Tree, r: Path) {
    Subtree(m, r) == Subtree(Sanitise(t), r)
  }

  /** `m` is a merge of the hidden tree `t` into the student's `s`: the test directories are the hidden ones,
      and a student node outside them stays where the hidden tree has nothing in its way. */
  ghost predicate Suited(language: TaskLanguage, m: Tree, s: Tree, t: Tree) {
    && (match language
        case Javascript => SuiteAt(m, t, ["tests"]) && SuiteAt(m, t, ["test"]) && SuiteAt(m, t, ["__tests__"])
        case Py => SuiteAt(m, t, ["tests"]) && SuiteAt(m, t, ["test"])
        case Java => SuiteAt(m, t, ["src", "test"]))
    && (forall q :: !IsTestPath(language, q) && Subtree(Sanitise(t), q).None? && !FileAbove(Sanitise(t), q) ==>
                      NodeAt(m, q) == NodeAt(s, q))
  }

  lemma UnderTests(language: TaskLanguage, q: Path)
    ensures UnderAny(PurgeList(language), q) <==> IsTestPath(language, q)
  {
    var rels := PurgeList(language);
    if IsTestPath(language, q) {
      var i := if language.Java? || q[0] == "tests" then 0 else if q[0] == "test" then 1 else 2;
      assert rels[i] == if language.Java? then ["src", "test"] else [q[0]];
      assert rels[i] <= q;
    }
  }

  /** The merge with the purge list of a language replaces exactly its test directories. */
  lemma MergeIsSuited(language: TaskLanguage, s: Tree, t: Tree)
    requires !t.Link?
    ensures Suited(language, Merge(s, t, PurgeList(language)), s, t)
  {
    var rels := PurgeList(language);
    PurgePathsSafety(language, s);
    HiddenSuiteIsAuthoritative(s, t, rels, 0);
    if !language.Java? { HiddenSuiteIsAuthoritative(s, t, rels, 1); }
    if language.Javascript? { HiddenSuiteIsAuthoritative(s, t, rels, 2); }
    forall q | !IsTestPath(language, q) && Subtree(Sanitise(t), q).None? && !FileAbove(Sanitise(t), q)
      ensures NodeAt(Merge(s, t, rels), q) == NodeAt(s, q)
    {
      UnderTests(language, q);
      MergeAt(s, t, rels, q);
    }
  }

  // ---- Reports ----

  const SUREFIRE: Path := ["target", "surefire-reports"]

  function ReportOf(language: TaskLanguage): ReportLocation {
    match language
    case Javascript => InFile(["out", "junit.xml"])
    case Py => InFile(["out", "junit.xml"])
    case Java => InDir(["project"] + SUREFIRE)
  }

  /** The reports of a workspace by language: the one file that the runner writes into `out`, or every entry of
      Maven's report directory whose name ends in `.xml` behind another character. */
  lemma ReportsAre(language: TaskLanguage, ns: NodeMap, root: Path, p: Path)
    ensures !language.Java? ==>
              (p in Found(ns, root, ReportOf(language)) <==>
                 p == root + ["out", "junit.xml"] && (var q := Locate(ns, p, true);
                                                      q.Some? && q.value in ns && ns[q.value].FileNode?))
    ensures language.Java? ==>
              (p in Found(ns, root, ReportOf(language)) <==>
                 exists n :: InSurefire(ns, root + ["project", "target", "surefire-reports"], n)
                             && p == root + ["project", "target", "surefire-reports"] + [n])
  {
    if language.Java? {
      var dir := root + ["project", "target", "surefire-reports"];
      assert ["project"] + SUREFIRE == ["project", "target", "surefire-reports"];
      var q, names := Locate(ns, dir, true), Sorted(XmlNames(ns, dir));
      forall n ensures n in names <==> InSurefire(ns, dir, n) {
        if q.Some? { ChildNamesAre(ns, q.value, n); }
      }
      if p in Found(ns, root, ReportOf(language)) {
        var i :| 0 <= i < |names| && p == dir + [names[i]];
      }
      if n :| InSurefire(ns, dir, n) && p == dir + [n] {
        var i :| 0 <= i < |names| && names[i] == n;
        assert Found(ns, root, ReportOf(language))[i] == p;
      }
    }
  }

  ghost predicate InSurefire(ns: NodeMap, dir: Path, n: Name) {
    var q := Locate(ns, dir, true);
    && q.Some? && q.value in ns && ns[q.value].DirNode? && q.value + [n] in ns
    && |n| > 4 && n[|n| - 4..] == ".xml"
  }

  /** Maven's report directory is never purged: a report file of the student's own repository is in the merged
      project unless the hidden repository has something there, and is read with the others for as long as the
      run leaves it there. */
  lemma CommittedReportIsFound(ns: NodeMap, root: Path, s: Tree, t: Tree, n: Name, bytes: Bytes, lex: Lexer)
    requires WellFormed(ns) && !t.Link? && |n| > 4 && n[|n| - 4..] == ".xml"
    requires Holds(ns, root + ["project"], Merge(s, t, PurgeList(Java)))
    requires NodeAt(s, ["target", "surefire-reports", n]) == Some(File(bytes))
    requires Subtree(Sanitise(t), ["target", "surefire-reports", n]).None?
    requires !FileAbove(Sanitise(t), ["target", "surefire-reports", n])
    ensures var p := root + ["project", "target", "surefire-reports", n];
            && p in Found(ns, root, ReportOf(Java))
            && Content(ns, lex, p) == if bytes in lex then Some(lex[bytes]) else None
  {
    var q, project := SUREFIRE + [n], root + ["project"];
    var m := Merge(s, t, PurgeList(Java));
    assert q == ["target", "surefire-reports", n];
    assert root + ["project", "target", "surefire-reports", n] == project + q;
    MergeIsSuited(Java, s, t);
    HoldsSubtree(ns, project, m, q);
    assert project + q == root + (["project"] + SUREFIRE) + [n] == project + SUREFIRE + [n];
    FileIsFound(ns, root, ReportOf(Java), n, bytes, lex);
  }
}
