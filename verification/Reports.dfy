/** crates/grader_lib/src/junit.rs, `collect_reports`, and the grade as a statement about report trees. */
module Reports {
  import opened Wrappers
  import opened Grading
  import opened Junit
  import opened JunitTrees
  import opened JunitProperties

  /** A report file as the reader finds it: its events, or `None` when it cannot be read. */
  type ReportFile = Option<seq<Event>>

  function ReportError(): GraderError {
    GraderError(Report, RunFailed, None)
  }

  function Collect(files: seq<ReportFile>): Result<seq<TestCaseResult>, GraderError>
    decreases |files|
  {
    if files == [] then Ok([])
    else if files[0].None? then Err(ReportError())
    else
      match Parse(files[0].value)
      case Err(_) => Err(ReportError())
      case Ok(cases) =>
        match Collect(files[1..])
        case Err(e) => Err(e)
        case Ok(rest) => Ok(cases + rest)
  }

  lemma {:induction false} CollectConcat(a: seq<ReportFile>, b: seq<ReportFile>)
    ensures Collect(a + b) == match Collect(a)
                              case Err(e) => Err(e)
                              case Ok(x) => (match Collect(b) case Err(e) => Err(e) case Ok(y) => Ok(x + y))
    decreases |a|
  {
    if a == [] {
      assert a + b == b;
      if Collect(b).Ok? { assert [] + Collect(b).value == Collect(b).value; }
    } else {
      assert (a + b)[1..] == a[1..] + b;
      CollectConcat(a[1..], b);
      if Collect(a).Ok? && Collect(b).Ok? {
        var first, rest, y := Parse(a[0].value).value, Collect(a[1..]).value, Collect(b).value;
        assert first + (rest + y) == (first + rest) + y;
      }
    }
  }

  /** Every file could be read, and none has a reader error in it. */
  ghost predicate Readable(files: seq<ReportFile>) {
    forall i :: 0 <= i < |files| ==> files[i].Some? && Malformed !in files[i].value
  }

  /** The cases fall into consecutive parts, one for each file, and each part is what the parser makes of it. */
  ghost predicate InTurn(files: seq<ReportFile>, cases: seq<TestCaseResult>) {
    exists cut: seq<nat> :: CutsInTurn(files, cases, cut)
  }

  ghost predicate CutsInTurn(files: seq<ReportFile>, cases: seq<TestCaseResult>, cut: seq<nat>) {
    && |cut| == |files| + 1 && cut[0] == 0 && cut[|files|] == |cases|
    && forall i :: 0 <= i < |files| ==> IsPart(files[i], cases, cut[i], cut[i + 1])
  }

  ghost predicate IsPart(file: ReportFile, cases: seq<TestCaseResult>, from: nat, to: nat) {
    from <= to <= |cases| && file.Some? && cases[from..to] == Run(INITIAL, file.value).cases
  }

  /** Some file has a case in it. */
  ghost predicate AnyCases(files: seq<ReportFile>) {
    exists i :: 0 <= i < |files| && files[i].Some? && Run(INITIAL, files[i].value).cases != []
  }

  lemma CutOneMore(files: seq<ReportFile>, cases: seq<TestCaseResult>, cut: seq<nat>, file: ReportFile)
    requires CutsInTurn(files, cases, cut) && file.Some?
    ensures var more := Run(INITIAL, file.value).cases;
            CutsInTurn(files + [file], cases + more, cut + [|cases + more|])
  {
    var more := Run(INITIAL, file.value).cases;
    var files', cases', cut' := files + [file], cases + more, cut + [|cases + more|];
    forall i | 0 <= i < |files'| ensures IsPart(files'[i], cases', cut'[i], cut'[i + 1]) {
      if i < |files| {
        assert IsPart(files[i], cases, cut[i], cut[i + 1]);
        assert cases'[cut[i]..cut[i + 1]] == cases[cut[i]..cut[i + 1]];
      }
    }
  }

  lemma PartsAreEmpty(files: seq<ReportFile>, cases: seq<TestCaseResult>)
    requires InTurn(files, cases)
    ensures cases != [] <==> AnyCases(files)
  {
    var cut :| CutsInTurn(files, cases, cut);
    if cases == [] {
      forall i | 0 <= i < |files| ensures files[i].Some? && Run(INITIAL, files[i].value).cases == [] {
        assert IsPart(files[i], cases, cut[i], cut[i + 1]);
      }
    } else if !AnyCases(files) {
      CutsStay(files, cases, cut, |files|);
    }
  }

  lemma {:induction false} CutsStay(files: seq<ReportFile>, cases: seq<TestCaseResult>, cut: seq<nat>, i: nat)
    requires CutsInTurn(files, cases, cut) && !AnyCases(files) && i <= |files|
    ensures cut[i] == 0
    decreases i
  {
    if i > 0 {
      CutsStay(files, cases, cut, i - 1);
      assert IsPart(files[i - 1], cases, cut[i - 1], cut[i]);
    }
  }

  /** `collect_reports`: the first file that cannot be read or parsed ends it; otherwise the cases are those of
      the files one after another. */
  method CollectReports(files: seq<ReportFile>) returns (r: Result<seq<TestCaseResult>, GraderError>)
    ensures r == Collect(files)
    ensures r.Ok? <==> Readable(files)
    ensures r.Ok? ==> InTurn(files, r.value) && (r.value != [] <==> AnyCases(files))
    ensures r.Err? ==> r.error == GraderError(GradeStage.Report, GradeStatus.RunFailed, None)
  {
    var all: seq<TestCaseResult> := [];
    ghost var cut: seq<nat> := [0];
    var i := 0;
    while i < |files|
      invariant 0 <= i <= |files|
      invariant Collect(files[..i]) == Ok(all)
      invariant Readable(files[..i]) && CutsInTurn(files[..i], all, cut)
    {
      CollectConcat(files[..i], files[i..]);
      assert files[..i] + files[i..] == files && files[i..][0] == files[i];
      if files[i].None? {
        return Err(ReportError());
      }
      var cases := ParseJunitXml(files[i].value);
      if cases.Err? {
        return Err(ReportError());
      }
      CollectConcat(files[..i], [files[i]]);
      CutOneMore(files[..i], all, cut, files[i]);
      assert files[..i + 1] == files[..i] + [files[i]];
      assert Collect([files[i]]) == Ok(cases.value + []) && cases.value + [] == cases.value;
      all := all + cases.value;
      cut := cut + [|all|];
      i := i + 1;
    }
    assert files[..i] == files;
    PartsAreEmpty(files, all);
    r := Ok(all);
  }

  /** What the method finds holds of the specification function. */
  lemma {:induction false} CollectMeaning(files: seq<ReportFile>)
    ensures Collect(files).Ok? <==> Readable(files)
    ensures Collect(files).Ok? ==> InTurn(files, Collect(files).value)
    ensures Collect(files).Err? ==> Collect(files).error == GraderError(GradeStage.Report, GradeStatus.RunFailed, None)
    decreases |files|
  {
    if files == [] {
      assert CutsInTurn(files, [], [0]);
    } else {
      var front, last := files[..|files| - 1], files[|files| - 1];
      assert files == front + [last];
      CollectMeaning(front);
      CollectConcat(front, [last]);
      assert [last][1..] == [];
      if Collect(files).Ok? {
        var x := Collect(front).value;
        var cut :| CutsInTurn(front, x, cut);
        CutOneMore(front, x, cut, last);
        assert Run(INITIAL, last.value).cases + [] == Run(INITIAL, last.value).cases;
      }
    }
  }

  // ---- The grade of report trees ----

  function Files(docs: seq<seq<Xml>>): seq<ReportFile> {
    seq(|docs|, i requires 0 <= i < |docs| => Some(FlattenAll(docs[i])))
  }

  function OutcomesIn(xs: seq<Xml>): seq<TestOutcome> {
    seq(|xs|, i requires 0 <= i < |xs| => OutcomeIn(xs[i]))
  }

  /** The verdicts of the innermost `testcase` elements of all reports, in order. */
  function TreeOutcomes(docs: seq<seq<Xml>>): seq<TestOutcome>
    decreases |docs|
  {
    if docs == [] then [] else OutcomesIn(InnermostAll(docs[0])) + TreeOutcomes(docs[1..])
  }

  lemma OutcomesRead(cases: seq<TestCaseResult>, xs: seq<Xml>, settings: seq<Setting>)
    requires ReportsAll(cases, xs, settings)
    ensures Outcomes(cases) == OutcomesIn(xs)
  {
    forall i | 0 <= i < |cases| ensures Outcomes(cases)[i] == OutcomesIn(xs)[i] {
      ReportsAt(cases, xs, settings, i);
    }
  }

  lemma OutcomesConcat(a: seq<TestCaseResult>, b: seq<TestCaseResult>)
    ensures Outcomes(a + b) == Outcomes(a) + Outcomes(b)
  {
  }

  /** Collecting well-formed reports never fails, and the outcomes are those of the trees. */
  lemma {:induction false} CollectedOutcomes(docs: seq<seq<Xml>>)
    ensures Collect(Files(docs)).Ok?
    ensures Outcomes(Collect(Files(docs)).value) == TreeOutcomes(docs)
    decreases |docs|
  {
    if docs != [] {
      ParsedCasesAreInnermost(docs[0]);
      var cases := Parse(FlattenAll(docs[0])).value;
      CollectedOutcomes(docs[1..]);
      assert Files(docs)[1..] == Files(docs[1..]);
      var rest := Collect(Files(docs[1..])).value;
      OutcomesRead(cases, InnermostAll(docs[0]), SettingsAll(docs[0], None, false, false));
      OutcomesConcat(cases, rest);
    }
  }

  function GradeOf(docs: seq<seq<Xml>>): ResponsePayload {
    CollectedOutcomes(docs);
    Graded(Collect(Files(docs)).value)
  }

  /** End to end: the counts, the score and the status of a run depend only on the multiset of verdicts
      of the innermost `testcase` elements of its reports. */
  lemma GradeIsOfTheTrees(a: seq<seq<Xml>>, b: seq<seq<Xml>>)
    requires multiset(TreeOutcomes(a)) == multiset(TreeOutcomes(b))
    ensures VerdictOf(GradeOf(a)) == VerdictOf(GradeOf(b))
  {
    CollectedOutcomes(a);
    CollectedOutcomes(b);
    GradeIsOfTheOutcomes(Collect(Files(a)).value, Collect(Files(b)).value);
  }

  // ---- Reports graded together ----

  /** The innermost `testcase` elements that are not skipped. */
  function Tested(docs: seq<seq<Xml>>): nat {
    var m := multiset(TreeOutcomes(docs));
    m[TestOutcome.Passed] + m[TestOutcome.Failed] + m[Errored]
  }

  lemma GradedTrees(docs: seq<seq<Xml>>)
    ensures var r, m := GradeOf(docs), multiset(TreeOutcomes(docs));
            r.passed == m[TestOutcome.Passed] && r.failed == m[TestOutcome.Failed] + m[Errored]
    ensures Collect(Files(docs)).Ok? && Gradable(Collect(Files(docs)).value) == Tested(docs)
  {
    CollectedOutcomes(docs);
    GradedCounts(Collect(Files(docs)).value);
  }

  lemma FilesConcat(a: seq<seq<Xml>>, b: seq<seq<Xml>>)
    ensures Files(a + b) == Files(a) + Files(b)
  {
  }

  lemma GradeOfBoth(a: seq<seq<Xml>>, b: seq<seq<Xml>>)
    ensures Collect(Files(a)).Ok? && Collect(Files(b)).Ok?
    ensures GradeOf(a + b) == Graded(Collect(Files(a)).value + Collect(Files(b)).value)
  {
    CollectedOutcomes(a);
    CollectedOutcomes(b);
    FilesConcat(a, b);
    CollectConcat(Files(a), Files(b));
  }

  /** The reports of two runs graded together score between the two graded apart, in either order. */
  lemma CombinedReports(a: seq<seq<Xml>>, b: seq<seq<Xml>>)
    requires Tested(a) > 0 && Tested(b) > 0 && GradeOf(a).score <= GradeOf(b).score
    ensures GradeOf(a).score <= GradeOf(a + b).score <= GradeOf(b).score
    ensures GradeOf(a + b).score == GradeOf(b + a).score && GradeOf(a + b).status == GradeOf(b + a).status
  {
    GradedTrees(a);
    GradedTrees(b);
    GradeOfBoth(a, b);
    GradeOfBoth(b, a);
    CombinedCases(Collect(Files(a)).value, Collect(Files(b)).value);
  }

  /** Reports that only skip leave the score and the status of the others alone. */
  lemma SkippedReports(a: seq<seq<Xml>>, b: seq<seq<Xml>>)
    requires Tested(b) == 0
    ensures GradeOf(a + b).score == GradeOf(a).score && GradeOf(a + b).status == GradeOf(a).status
  {
    GradedTrees(b);
    GradeOfBoth(a, b);
    SkippedCases(Collect(Files(a)).value, Collect(Files(b)).value);
  }

  /** Skipped `testcase` elements put in or taken out anywhere in any of the reports change neither the score
      nor the status: these depend on how many innermost elements passed, failed and errored. */
  lemma SkipsDoNotCount(a: seq<seq<Xml>>, b: seq<seq<Xml>>)
    requires forall o :: o != Skipped ==> multiset(TreeOutcomes(a))[o] == multiset(TreeOutcomes(b))[o]
    ensures GradeOf(a).score == GradeOf(b).score && GradeOf(a).status == GradeOf(b).status
  {
    GradedTrees(a);
    GradedTrees(b);
    SameCountsSameGrade(Collect(Files(a)).value, Collect(Files(b)).value);
  }

  // ---- Attributes and character data cannot move a grade ----

  /** The elements of a report alone. */
  function Skeleton(x: Xml): Xml
    decreases x, 1
  {
    match x
    case Element(tag, _, children) => Element(tag, [], SkeletonAll(children))
    case SelfClosing(tag, _) => SelfClosing(tag, [])
    case _ => OtherNode
  }

  function SkeletonAll(xs: seq<Xml>): seq<Xml>
    decreases xs, 0
  {
    if xs == [] then [] else [Skeleton(xs[0])] + SkeletonAll(xs[1..])
  }

  lemma {:induction false} SkeletonKeeps(x: Xml)
    ensures HasCase(Skeleton(x)) == HasCase(x)
    ensures LastVerdict(Skeleton(x)).Some? == LastVerdict(x).Some?
    ensures LastVerdict(x).Some? ==>
              VerdictTag(LastVerdict(Skeleton(x)).value) == VerdictTag(LastVerdict(x).value)
    ensures OutcomesIn(Innermost(Skeleton(x))) == OutcomesIn(Innermost(x))
    decreases x, 1
  {
    if x.Element? { SkeletonKeepsAll(x.children); }
  }

  lemma {:induction false} SkeletonKeepsAll(xs: seq<Xml>)
    ensures AnyCase(SkeletonAll(xs)) == AnyCase(xs)
    ensures LastVerdictAll(SkeletonAll(xs)).Some? == LastVerdictAll(xs).Some?
    ensures LastVerdictAll(xs).Some? ==>
              VerdictTag(LastVerdictAll(SkeletonAll(xs)).value) == VerdictTag(LastVerdictAll(xs).value)
    ensures OutcomesIn(InnermostAll(SkeletonAll(xs))) == OutcomesIn(InnermostAll(xs))
    decreases xs, 0
  {
    if xs != [] {
      SkeletonKeeps(xs[0]);
      SkeletonKeepsAll(xs[1..]);
      assert SkeletonAll(xs)[1..] == SkeletonAll(xs[1..]);
      OutcomesInConcat(Innermost(xs[0]), InnermostAll(xs[1..]));
      OutcomesInConcat(Innermost(Skeleton(xs[0])), InnermostAll(SkeletonAll(xs[1..])));
    }
  }

  lemma OutcomesInConcat(a: seq<Xml>, b: seq<Xml>)
    ensures OutcomesIn(a + b) == OutcomesIn(a) + OutcomesIn(b)
  {
  }

  function Skeletons(docs: seq<seq<Xml>>): seq<seq<Xml>> {
    if docs == [] then [] else [SkeletonAll(docs[0])] + Skeletons(docs[1..])
  }

  lemma {:induction false} SkeletonOutcomes(docs: seq<seq<Xml>>)
    ensures TreeOutcomes(Skeletons(docs)) == TreeOutcomes(docs)
    decreases |docs|
  {
    if docs != [] {
      SkeletonKeepsAll(docs[0]);
      SkeletonOutcomes(docs[1..]);
      assert Skeletons(docs)[1..] == Skeletons(docs[1..]);
    }
  }

  /** Names, times, messages, types and character data can be dropped from every report without moving a
      count, the score or the status. */
  lemma OnlyElementsCount(docs: seq<seq<Xml>>)
    ensures VerdictOf(GradeOf(Skeletons(docs))) == VerdictOf(GradeOf(docs))
  {
    SkeletonOutcomes(docs);
    GradeIsOfTheTrees(Skeletons(docs), docs);
  }
}
