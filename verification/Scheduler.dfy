/** crates/grader_lib/src/scheduler.rs: one grading task from its workspace to its result. */
module Scheduler {
  import opened Wrappers
  import opened Trees
  import opened Nodes
  import opened FileSystems
  import opened Workspaces
  import opened Purging
  import opened Projects
  import opened Merging
  import opened Layouts
  import opened ReportFiles
  import opened Languages
  import opened Grading
  import opened Reports

  const MAX_TESTCASE_DETAIL: nat := 500

  datatype SandboxOutcome = SandboxOutcome(exitCode: int, signal: Option<int>, timedOut: bool, oomKilled: bool)
  {
    predicate Succeeded() {
      !timedOut && !oomKilled && exitCode == 0 && signal.None?
    }
  }

  /** What the sandbox does for one stage: an outcome, or `None` when our side broke, and what it makes of the
      files it finds. */
  datatype StageRun = StageRun(outcome: Option<SandboxOutcome>, leaves: imap<NodeMap, NodeMap>)

  // ---- Errors ----

  /** `stage_error`: a timeout and a memory kill come before the exit code. */
  function StageError(stage: GradeStage, outcome: SandboxOutcome): GraderError {
    GraderError(
      stage,
      if outcome.timedOut then Timeout
      else if outcome.oomKilled then MemoryLimitExceeded
      else if outcome.signal.Some? then RunFailed
      else if stage == Install then InstallFailed
      else RunFailed,
      None)
  }

  /** A timeout is reported as one whatever else happened, a memory kill next, and only an ordinary exit of
      the install stage is the fault of the install. */
  lemma StageErrorMeaning(stage: GradeStage, o: SandboxOutcome)
    ensures var e := StageError(stage, o);
            && e.stage == stage && !e.status.IsGraded()
            && (e.status == Timeout <==> o.timedOut)
            && (e.status == MemoryLimitExceeded <==> o.oomKilled && !o.timedOut)
            && (e.status == InstallFailed <==> stage == Install && !o.timedOut && !o.oomKilled && o.signal.None?)
            && (e.status == RunFailed <==> !o.timedOut && !o.oomKilled && (o.signal.Some? || stage != Install))
            && e.status != InternalError && e.logs.None?
  {
  }

  function Internal(stage: GradeStage): GraderError {
    GraderError(stage, InternalError, None)
  }

  // ---- The result ----

  function Respond(r: StageResult<seq<TestCaseResult>>): ResponsePayload {
    match r
    case Ok(cases) =>
      var g := Graded(cases);
      g.(testcases := if |cases| <= MAX_TESTCASE_DETAIL then cases else cases[..MAX_TESTCASE_DETAIL])
    case Err(e) => Failure(e)
  }

  /** A result is a grade exactly when the task ended without an error: the grade of all its cases, of which it
      lists all, or the first 500. An error gives its own status and stage, no counts and no score. */
  lemma ResponseMeaning(r: StageResult<seq<TestCaseResult>>)
    requires r.Err? ==> !r.error.status.IsGraded()
    ensures Respond(r).status in {GradeStatus.Passed, GradeStatus.PartiallyPassed, GradeStatus.Failed} <==> r.Ok?
    ensures r.Ok? ==> VerdictOf(Respond(r)) == VerdictOf(Graded(r.value)) && Respond(r).stage == Report
    ensures r.Ok? ==> Respond(r).error.None?
    ensures r.Ok? && |r.value| <= 500 ==> Respond(r).testcases == r.value
    ensures r.Ok? && |r.value| > 500 ==> |Respond(r).testcases| == 500 && Respond(r).testcases <= r.value
    ensures r.Err? ==> Respond(r) == ResponsePayload(r.error.status, r.error.stage, 0, 0, 0, 0, 0, [], Some(r.error))
  {
    if r.Ok? { StatusMeaning(r.value); } else { GradesAre(r.error.status); }
  }

  // ---- The run id ----

  predicate SafeChar(c: char) {
    'a' <= c <= 'z' || 'A' <= c <= 'Z' || '0' <= c <= '9' || c == '-' || c == '_'
  }

  function Cleaned(taskId: string): string {
    if taskId == "" then ""
    else (if SafeChar(taskId[0]) then [taskId[0]] else []) + Cleaned(taskId[1..])
  }

  /** The safe characters by code point: the ASCII letters and digits, the hyphen and the underscore. */
  lemma SafeCharIs(c: char)
    ensures var k := c as int;
            SafeChar(c) <==> 65 <= k <= 90 || 97 <= k <= 122 || 48 <= k <= 57 || k == 45 || k == 95
  {
  }

  function Take(s: string, k: nat): string {
    if |s| <= k then s else s[..k]
  }

  /** `build_run_id`, with the random identifier as a parameter. */
  function BuildRunId(taskId: string, uuid: string): string {
    var cleaned := Take(Cleaned(taskId), 40);
    (if cleaned == "" then "task" else cleaned) + "_" + Take(uuid, 12)
  }

  predicate Safe(s: string) {
    forall i :: 0 <= i < |s| ==> SafeChar(s[i])
  }

  lemma {:induction false} CleanedIsSafe(taskId: string)
    ensures Safe(Cleaned(taskId))
    decreases |taskId|
  {
    if taskId != "" { CleanedIsSafe(taskId[1..]); }
  }

  lemma RunIdEnds(taskId: string, uuid: string)
    requires |uuid| >= 12
    ensures var id := BuildRunId(taskId, uuid);
            14 <= |id| <= 53 && id[|id| - 12..] == uuid[..12] && id[|id| - 13] == '_'
  {
    var cleaned := Take(Cleaned(taskId), 40);
    var front := (if cleaned == "" then "task" else cleaned) + "_";
    assert BuildRunId(taskId, uuid) == front + uuid[..12];
  }

  lemma RunIdIsSafe(taskId: string, uuid: string)
    requires Safe(uuid) && |uuid| >= 12
    ensures Safe(BuildRunId(taskId, uuid))
  {
    CleanedIsSafe(taskId);
    var cleaned := Take(Cleaned(taskId), 40);
    var front := if cleaned == "" then "task" else cleaned;
    assert Safe(front) && Safe("_") && Safe(uuid[..12]);
    assert BuildRunId(taskId, uuid) == front + "_" + uuid[..12];
  }

  lemma {:induction false} CleanedKeeps(taskId: string)
    requires Safe(taskId)
    ensures Cleaned(taskId) == taskId
    decreases |taskId|
  {
    if taskId != "" { CleanedKeeps(taskId[1..]); }
  }

  lemma {:induction false} CleanedDrops(a: string, c: char, b: string)
    requires !SafeChar(c)
    ensures Cleaned(a + [c] + b) == Cleaned(a + b)
    decreases |a|
  {
    if a == "" {
      assert a + [c] + b == [c] + b && a + b == b && ([c] + b)[1..] == b;
    } else {
      assert (a + [c] + b)[1..] == a[1..] + [c] + b && (a + b)[1..] == a[1..] + b;
      CleanedDrops(a[1..], c, b);
    }
  }

  /** A safe task id, cut at 40 characters, leads the run id, with `task` for an empty one, and characters that are
      not safe make no difference. */
  lemma RunIdIs(taskId: string, uuid: string, a: string, c: char, b: string)
    requires |uuid| >= 12
    ensures Safe(taskId) && 0 < |taskId| <= 40 ==> BuildRunId(taskId, uuid) == taskId + "_" + uuid[..12]
    ensures Safe(taskId) && |taskId| > 40 ==> BuildRunId(taskId, uuid) == taskId[..40] + "_" + uuid[..12]
    ensures BuildRunId("", uuid) == "task_" + uuid[..12]
    ensures !SafeChar(c) ==> BuildRunId(a + [c] + b, uuid) == BuildRunId(a + b, uuid)
  {
    if Safe(taskId) { CleanedKeeps(taskId); }
    assert "task" + "_" == "task_";
    if !SafeChar(c) { CleanedDrops(a, c, b); }
  }

  /** Whatever the task id, the run id is one ordinary path component of bounded length without separators,
      and two runs with different identifiers never share it. */
  lemma RunIdIsOwn(taskId: string, uuid: string, taskId': string, uuid': string)
    requires Safe(uuid) && |uuid| == 32 && |uuid'| == 32
    ensures var id := BuildRunId(taskId, uuid);
            Safe(id) && Ordinary(id) && 14 <= |id| <= 53
    ensures uuid[..12] != uuid'[..12] ==> BuildRunId(taskId, uuid) != BuildRunId(taskId', uuid')
  {
    RunIdIsSafe(taskId, uuid);
    RunIdEnds(taskId, uuid);
    RunIdEnds(taskId', uuid');
  }

  // ---- The stages in the sandbox ----

  /** The files after a stage: whatever it does stays inside the workspace, which is still there. */
  function LeftBy(ns: NodeMap, root: Path, run: StageRun): NodeMap {
    if ns !in run.leaves then ns
    else
      var after := run.leaves[ns];
      if WellFormed(after) && Agrees(ns, after, root) && root in ns && root in after && after[root] == ns[root]
      then after
      else ns
  }

  lemma LeftByStaysInside(ns: NodeMap, root: Path, run: StageRun)
    requires WellFormed(ns)
    ensures WellFormed(LeftBy(ns, root, run)) && SameOutside(ns, LeftBy(ns, root, run), root)
    ensures SameAt(ns, LeftBy(ns, root, run), root)
  {
  }

  /** A stage may leave any files at all in the workspace. */
  lemma StageMayLeave(ns: NodeMap, after: NodeMap, root: Path, run: StageRun)
    requires WellFormed(after) && SameOutside(ns, after, root) && root in ns && SameAt(ns, after, root)
    requires ns in run.leaves && run.leaves[ns] == after
    ensures LeftBy(ns, root, run) == after
  {
    forall q | q in ns.Keys + after.Keys && !(root <= q) ensures q in ns && q in after && ns[q] == after[q] {
      assert SameAt(ns, after, q);
    }
  }

  /** The files after both stages. */
  function LeftByBoth(ns: NodeMap, root: Path, install: StageRun, test: StageRun): NodeMap {
    LeftBy(LeftBy(ns, root, install), root, test)
  }

  /** A sandboxed stage. The first one must find the hidden checkout gone. */
  method RunStage(fs: FileSystem, root: Path, stage: GradeStage, run: StageRun) returns (r: StageResult<SandboxOutcome>)
    requires WellFormed(fs.nodes) && (stage == Install ==> root + [HIDDEN] !in fs.nodes)
    modifies fs
    ensures WellFormed(fs.nodes) && SameOutside(old(fs.nodes), fs.nodes, root)
    ensures SameAt(old(fs.nodes), fs.nodes, root)
    ensures fs.nodes == LeftBy(old(fs.nodes), root, run)
    ensures run.outcome.Some? ==> r == Ok(run.outcome.value)
    ensures run.outcome.None? ==> r == Err(GraderError(stage, InternalError, None))
  {
    LeftByStaysInside(fs.nodes, root, run);
    fs.nodes := LeftBy(fs.nodes, root, run);
    r := if run.outcome.Some? then Ok(run.outcome.value) else Err(Internal(stage));
  }

  /** The install ran and ended by itself with exit code 0. */
  predicate Installed(install: StageRun) {
    && install.outcome.Some? && install.outcome.value.exitCode == 0 && install.outcome.value.signal.None?
    && !install.outcome.value.timedOut && !install.outcome.value.oomKilled
  }

  /** The tests ran and ended within the limits, whatever their exit code. */
  predicate Ended(test: StageRun) {
    test.outcome.Some? && !test.outcome.value.timedOut && !test.outcome.value.oomKilled
  }

  /** Install succeeded, the tests ended, and the reports can be read and hold at least one case. */
  ghost predicate Completes(install: StageRun, test: StageRun, reports: seq<ReportFile>) {
    Installed(install) && Ended(test) && reports != [] && Readable(reports) && AnyCases(reports)
  }

  /** The error of a sandboxed stage that failed. */
  predicate StageFails(stage: GradeStage, run: StageRun, e: GraderError) {
    && e.stage == stage && e.logs.None?
    && (run.outcome.None? ==> e.status == InternalError)
    && (run.outcome.Some? ==>
          var o := run.outcome.value;
          && (o.timedOut ==> e.status == Timeout)
          && (!o.timedOut && o.oomKilled ==> e.status == MemoryLimitExceeded)
          && (!o.timedOut && !o.oomKilled && o.signal.Some? ==> e.status == RunFailed)
          && (!o.timedOut && !o.oomKilled && o.signal.None? ==>
                e.status == if stage.Install? then InstallFailed else RunFailed))
  }

  /** Where the stages stop, and with which error. */
  predicate Halts(install: StageRun, test: StageRun, stages: seq<GradeStage>, r: StageResult<seq<TestCaseResult>>) {
    && (!Installed(install) ==>
          stages == [Clone, GradeStage.Merge, Install] && r.Err? && StageFails(Install, install, r.error))
    && (Installed(install) && !Ended(test) ==>
          stages == [Clone, GradeStage.Merge, Install, Test] && r.Err? && StageFails(Test, test, r.error))
    && (Installed(install) && Ended(test) ==>
          && stages == [Clone, GradeStage.Merge, Install, Test, Report]
          && (r.Err? ==> r.error == GraderError(Report, RunFailed, None)))
  }

  /** The cases are those of some report files of the workspace, each read whole. */
  ghost predicate GradedFrom(ns: NodeMap, root: Path, report: ReportLocation, lex: Lexer, cases: seq<TestCaseResult>) {
    exists paths :: SomeOf(ns, root, report, paths) && Collect(Contents(ns, lex, paths)) == Ok(cases)
                    && Readable(Contents(ns, lex, paths)) && InTurn(Contents(ns, lex, paths), cases)
  }

  /** The report stage: the files that are there, read and collected. */
  method GradeReports(fs: FileSystem, root: Path, report: ReportLocation, lex: Lexer)
    returns (r: StageResult<seq<TestCaseResult>>)
    requires WellFormed(fs.nodes)
    ensures r.Err? ==> r.error == GraderError(Report, RunFailed, None)
    ensures r.Ok? ==> r.value != [] && GradedFrom(fs.nodes, root, report, lex, r.value)
    ensures Legible(fs.faulty, fs.nodes, root, report) ==>
              var files := ReportsIn(fs.nodes, root, report, lex);
              && (r.Ok? <==> files != [] && Readable(files) && AnyCases(files))
              && (r.Ok? ==> Collect(files) == Ok(r.value) && InTurn(files, r.value))
  {
    var paths := ResolveReports(fs, root, report);
    if paths == [] {
      return Err(ReportError());
    }
    var files := ReadReports(fs, paths, lex);
    CollectedIsContent(fs, lex, paths, files);
    r := CollectReports(files);
    if r.Ok? && r.value == [] {
      r := Err(ReportError());
    }
  }

  /** Install, test, report, in a prepared workspace. The reports are the files that the two stages leave. */
  method RunPipeline(fs: FileSystem, root: Path, report: ReportLocation, lex: Lexer, install: StageRun, test: StageRun)
    returns (r: StageResult<seq<TestCaseResult>>, stages: seq<GradeStage>)
    requires WellFormed(fs.nodes) && root + [HIDDEN] !in fs.nodes
    modifies fs
    ensures WellFormed(fs.nodes) && SameOutside(old(fs.nodes), fs.nodes, root)
    ensures SameAt(old(fs.nodes), fs.nodes, root)
    ensures |stages| > 2 && stages <= PIPELINE
    ensures r.Err? ==> StoppedAt(stages, r.error)
    ensures r.Ok? ==> stages == PIPELINE && r.value != []
    ensures Halts(install, test, stages, r)
    ensures var last := LeftByBoth(old(fs.nodes), root, install, test);
            && (r.Ok? ==> GradedFrom(last, root, report, lex, r.value))
            && (Legible(fs.faulty, last, root, report) ==>
                  && (r.Ok? <==> Completes(install, test, ReportsIn(last, root, report, lex)))
                  && (r.Ok? ==> Collect(ReportsIn(last, root, report, lex)) == Ok(r.value)
                                && InTurn(ReportsIn(last, root, report, lex), r.value)))
  {
    r, stages := Err(Internal(Install)), PIPELINE[..3];
    ghost var n0 := fs.nodes;
    var installed := RunStage(fs, root, Install, install);
    ghost var n1 := fs.nodes;
    if installed.Err? {
      return;
    }
    if !installed.value.Succeeded() {
      return Err(StageError(Install, installed.value)), stages;
    }
    stages := PIPELINE[..4];
    var tested := RunStage(fs, root, Test, test);
    OutsideTrans(n0, n1, fs.nodes, root);
    if tested.Err? {
      return Err(tested.error), stages;
    }
    if tested.value.timedOut || tested.value.oomKilled {
      return Err(StageError(Test, tested.value)), stages;
    }
    stages := PIPELINE;
    r := GradeReports(fs, root, report, lex);
  }

  // ---- The whole task ----

  /** No purge path can meet a symlink in the student's tree. */
  predicate Unlinked(language: TaskLanguage, student: Checkout) {
    !(language.Java? && student.Delivered? && SrcIsLink(student.tree))
  }

  /** How a task that reached the sandbox ends: it stops where a stage fails, with its error; the cases are those
      of the report files in `last`, and if these can be read, it succeeds exactly when the stages complete with
      them. */
  ghost predicate Outcome(faulty: iset<Path>, last: NodeMap, root: Path, language: TaskLanguage, lex: Lexer,
                          install: StageRun, test: StageRun, stages: seq<GradeStage>,
                          r: StageResult<seq<TestCaseResult>>)
  {
    && Halts(install, test, stages, r)
    && (r.Ok? ==> GradedFrom(last, root, ReportOf(language), lex, r.value))
    && (Legible(faulty, last, root, ReportOf(language)) ==>
          && (r.Ok? <==> Completes(install, test, ReportsIn(last, root, ReportOf(language), lex)))
          && (r.Ok? ==> Collect(ReportsIn(last, root, ReportOf(language), lex)) == Ok(r.value)
                        && InTurn(ReportsIn(last, root, ReportOf(language), lex), r.value)))
  }

  lemma PlainAbove(a: NodeMap, b: NodeMap, root: Path)
    requires Plain(a, Parent(root)) && root != [] && SameOutside(a, b, root)
    ensures Plain(b, Parent(root))
  {
    assert root == Parent(root) + [root[|root| - 1]];
    ConfinedPlain(a, b, Parent(root), root[|root| - 1]);
  }

  lemma RootKept(a: NodeMap, b: NodeMap, root: Path)
    requires RealDir(a, root) && SameOutside(a, b, root) && SameAt(a, b, root)
    ensures RealDir(b, root)
  {
    forall i | 0 <= i <= |root| && root[..i] in b ensures b[root[..i]].DirNode? {
      if i == |root| { assert root[..i] == root; } else { assert SameAt(a, b, root[..i]); }
    }
  }

  lemma StartHolds(ns: NodeMap, root: Path, student: Tree, s: Tree, t: Tree, language: TaskLanguage)
    requires SameButGit(student, s)
    ensures var start := Checkouts(ns, root, s, t);
            && Holds(start, root + [PROJECT], s)
            && (Contained(start, root + [PROJECT], PurgeList(language)) ==>
                  Inside(start, root + [PROJECT], PurgeList(language)))
  {
    var project, tests := root + [PROJECT], root + [HIDDEN];
    var first := Nodes.Install(ns, project, s);
    InstalledTree(ns, project, s);
    Entries(root);
    forall q | project <= q ensures SameAt(first, Checkouts(ns, root, s, t), q) {
      DivergeBelow(tests, project, tests, q);
      InstallAt(first, tests, t, q);
    }
    HoldsFrame(first, Checkouts(ns, root, s, t), project, s);
    if Contained(Checkouts(ns, root, s, t), project, PurgeList(language)) {
      PurgeStaysBelowProject(language, Checkouts(ns, root, s, t), root);
    }
  }

  /** What holds of the merge of a task: it started from the map `start` and left `ready` to the sandbox. The
      hidden checkout is gone, and the hidden suite stands at exactly the purge paths that were spared. */
  ghost predicate Merged(start: NodeMap, ready: NodeMap, root: Path, t: Tree, rels: seq<Path>) {
    && root + ["hidden-tests"] !in ready
    && KeptWhereSpared(start, ready, root + [PROJECT], root + [HIDDEN], t, rels)
  }

  /** The project of `ready` is the pure merge onto the student tree of `start`, which replaces the test
      directories of the language and keeps what is beside them. */
  ghost predicate MergedOnto(start: NodeMap, ready: NodeMap, root: Path, language: TaskLanguage, student: Tree,
                             t: Tree)
  {
    exists s :: SameButGit(student, s) && Holds(start, root + ["project"], s)
                && Holds(ready, root + ["project"], Trees.Merge(s, t, PurgeList(language)))
                && Suited(language, Trees.Merge(s, t, PurgeList(language)), s, t)
  }

  /** Everything between creating the workspace and dropping it. The merge starts from the map
      `Checkouts(.., s, hidden.tree)` and leaves `ready` to the sandbox. */
  method GradeIn(fs: FileSystem, root: Path, language: TaskLanguage, studentLink: string, testLink: string,
                 maxBytes: nat, student: Checkout, hidden: Checkout, install: StageRun, test: StageRun, lex: Lexer)
    returns (r: StageResult<seq<TestCaseResult>>, stages: seq<GradeStage>, ghost s: Tree, ghost ready: NodeMap)
    requires WellFormed(fs.nodes) && RealDir(fs.nodes, root) && root != []
    requires Deliverable(student) && Deliverable(hidden)
    modifies fs
    ensures WellFormed(fs.nodes) && Plain(fs.nodes, Parent(root))
    ensures stages != [] && stages <= PIPELINE
    ensures r.Err? ==> StoppedAt(stages, r.error)
    ensures r.Ok? ==> stages == PIPELINE && r.value != []
    ensures |stages| > 1 ==>
              && student.Delivered? && hidden.Delivered?
              && SameButGit(student.tree, s) && (fs.Reliable(root) ==> s == GitDropped(student.tree))
    ensures |stages| > 1 && Unlinked(language, student) ==>
              Contained(Checkouts(old(fs.nodes), root, s, hidden.tree), root + [PROJECT], PurgeList(language))
    ensures (|stages| > 1 ==>
               Contained(Checkouts(old(fs.nodes), root, s, hidden.tree), root + [PROJECT], PurgeList(language))) ==>
              && SameOutside(old(fs.nodes), fs.nodes, root) && RealDir(fs.nodes, root)
              && (|stages| > 1 && fs.Reliable(root) ==> |stages| > 2)
    ensures |stages| == 1 && Roomy(old(fs.nodes), root) ==>
              r == Err(GraderError(Clone, FetchStatus(studentLink, testLink, student, hidden), None))
    ensures |stages| == 2 ==> r.Err? && IsMergeError(r.error)
    ensures Roomy(old(fs.nodes), root) && fs.Reliable(root) ==>
              (|stages| > 1 <==> Fetches(studentLink, testLink, student, hidden, maxBytes))
    ensures |stages| > 2 ==>
              var start := Checkouts(old(fs.nodes), root, s, hidden.tree);
              && Merged(start, ready, root, hidden.tree, PurgeList(language))
              && (Unlinked(language, student) ==>
                    MergedOnto(start, ready, root, language, student.tree, hidden.tree))
    ensures |stages| > 2 ==>
              Outcome(fs.faulty, LeftByBoth(ready, root, install, test), root, language, lex, install, test, stages, r)
  {
    ghost var n0 := fs.nodes;
    var purgePaths := PurgeList(language);
    PurgePathsSafety(language, if student.Delivered? then student.tree else Dir(map[]));
    var prepared, entered, merged :=
      PrepareProject(fs, root, studentLink, testLink, purgePaths, maxBytes, student, hidden);
    s, ready := merged, fs.nodes;
    ghost var start := if |entered| == 2 then Checkouts(n0, root, s, hidden.tree) else n0;
    if |entered| == 2 {
      StartHolds(n0, root, student.tree, s, hidden.tree, language);
      MergeIsSuited(language, s, hidden.tree);
    }
    PlainUp(ready, root);
    if prepared.Err? {
      return Err(prepared.error), entered, s, ready;
    }
    r, stages := RunPipeline(fs, root, ReportOf(language), lex, install, test);
    PlainAbove(ready, fs.nodes, root);
    if SameOutside(n0, ready, root) && RealDir(ready, root) {
      OutsideTrans(n0, ready, fs.nodes, root);
      RootKept(ready, fs.nodes, root);
    }
  }

  lemma SameWithout(a: NodeMap, b: NodeMap, p: Path)
    requires WellFormed(a) && WellFormed(b) && p !in a && p !in b && SameOutside(a, b, p)
    ensures a == b
  {
    NothingBelow(a, p);
    NothingBelow(b, p);
    forall q ensures SameAt(RemoveTree(a, p), RemoveTree(b, p), q) {
      if !(p <= q) { assert SameAt(a, b, q); }
    }
    SameMaps(RemoveTree(a, p), RemoveTree(b, p));
  }

  /** The clean-up of a task, its error ignored. */
  method DropWorkspace(fs: FileSystem, workRoot: Path, runId: Name) returns (dropped: bool)
    requires WellFormed(fs.nodes) && Plain(fs.nodes, workRoot) && Ordinary(runId)
    modifies fs
    ensures WellFormed(fs.nodes) && SameOutside(old(fs.nodes), fs.nodes, workRoot + [runId])
    ensures dropped ==> workRoot + [runId] !in fs.nodes
    ensures RealDir(old(fs.nodes), workRoot + [runId]) && fs.Reliable(workRoot + [runId]) ==> dropped
  {
    ghost var root, n0 := workRoot + [runId], fs.nodes;
    LocatePlain(n0, workRoot, runId, false);
    if RealDir(n0, root) {
      PrefixExists(n0, root, workRoot);
      PlainUp(n0, root);
    }
    dropped := fs.RemoveDirAll(workRoot + [runId]);
    DroppedOutside(n0, fs.nodes, root);
  }

  lemma DroppedOutside(a: NodeMap, b: NodeMap, root: Path)
    requires b == a || b == RemoveTree(a, root) || Thinned(a, b, root)
    ensures SameOutside(a, b, root)
  {
  }

  lemma BeforeAndAfter(n0: NodeMap, n1: NodeMap, n2: NodeMap, n3: NodeMap, workRoot: Path, runId: Name)
    requires WellFormed(n0) && WellFormed(n3) && workRoot + [runId] !in n0
    requires Confined(n0, n1, workRoot + [runId])
    requires SameOutside(n1, n2, workRoot + [runId]) && SameOutside(n2, n3, workRoot + [runId])
    ensures Confined(n0, n3, workRoot + [runId])
    ensures workRoot in n0 ==>
              && SameOutside(n0, n3, workRoot + [runId])
              && (workRoot + [runId] !in n3 ==> n3 == n0)
  {
    var root := workRoot + [runId];
    OutsideTrans(n1, n2, n3, root);
    forall q | !(root <= q)
      ensures SameAt(n0, n3, q) || (q !in n0 && q in n3 && n3[q] == DirNode && q <= root)
    {
      assert SameAt(n1, n3, q);
    }
    if workRoot in n0 {
      ConfinedReal(n0, n3, workRoot, runId);
      if root !in n3 { SameWithout(n0, n3, root); }
    }
  }

  /** The map the merge of a task starts from, when the workspace was fresh: the workspace as it is made, and in
      it the student's tree, less some or all of its `.git`, and the hidden tree. */
  ghost predicate Started(a: NodeMap, start: NodeMap, root: Path, student: Tree, t: Tree) {
    exists w, s :: CreatedFrom(a, w, root) && SameButGit(student, s) && start == Checkouts(w, root, s, t)
  }

  /** `grade_task`, with what the two clones deliver and what the sandbox does as inputs. The merge starts from
      the map `start` and leaves `ready` to the sandbox.
      - The stages entered are a prefix of the pipeline, an error names the last of them and is no grade, and
        success means that every stage ran and that the cases are those of the report files.
      - The sandbox finds the hidden checkout gone and the hidden suite at exactly the purge paths that the
        purge spared; without a symlink `src` in a Java checkout it finds the pure merge.
      - In a fresh workspace nothing outside it changes on any exit, if each purge path resolves inside the
        project, as it does without such a symlink; and once the workspace is dropped the filesystem is as it
        was.
      - Then, without faults, the workspace is dropped, `start` is a function of the inputs, and the task
        succeeds exactly when both clones arrive within the limit and the stages complete with the reports that
        they leave. */
  method GradeTask(fs: FileSystem, workRoot: Path, runId: Name, language: TaskLanguage, studentLink: string,
                   testLink: string, maxBytes: nat, student: Checkout, hidden: Checkout, install: StageRun,
                   test: StageRun, lex: Lexer)
    returns (r: StageResult<seq<TestCaseResult>>, stages: seq<GradeStage>, dropped: bool,
             ghost start: NodeMap, ghost ready: NodeMap)
    requires WellFormed(fs.nodes) && Plain(fs.nodes, workRoot + [runId])
    requires Deliverable(student) && Deliverable(hidden)
    modifies fs
    ensures WellFormed(fs.nodes)
    ensures stages != [] && stages <= PIPELINE
    ensures r.Err? ==> StoppedAt(stages, r.error)
    ensures r.Ok? ==> stages == PIPELINE && r.value != []
    ensures dropped ==> workRoot + [runId] !in fs.nodes
    ensures |stages| > 1 ==> student.Delivered? && hidden.Delivered?
    ensures |stages| == 1 && Fresh(old(fs.nodes), workRoot + [runId]) && Healthy(fs, workRoot + [runId]) ==>
              r == Err(GraderError(Clone, FetchStatus(studentLink, testLink, student, hidden), None))
    ensures |stages| == 2 ==> r.Err? && IsMergeError(r.error)
    ensures |stages| > 1 && Fresh(old(fs.nodes), workRoot + [runId]) ==>
              && Started(old(fs.nodes), start, workRoot + [runId], student.tree, hidden.tree)
              && (Healthy(fs, workRoot + [runId]) ==>
                    start == Checkouts(Made(old(fs.nodes), workRoot + [runId]), workRoot + [runId],
                                       GitDropped(student.tree), hidden.tree))
    ensures |stages| > 2 ==>
              && Merged(start, ready, workRoot + [runId], hidden.tree, PurgeList(language))
              && (Unlinked(language, student) ==>
                    MergedOnto(start, ready, workRoot + [runId], language, student.tree, hidden.tree))
    ensures |stages| > 2 ==>
              Outcome(fs.faulty, LeftByBoth(ready, workRoot + [runId], install, test), workRoot + [runId], language,
                      lex, install, test, stages, r)
    ensures |stages| > 1 && Unlinked(language, student) ==>
              Contained(start, workRoot + [runId, PROJECT], PurgeList(language))
    ensures Fresh(old(fs.nodes), workRoot + [runId])
            && (|stages| > 1 ==> Contained(start, workRoot + [runId, PROJECT], PurgeList(language))) ==>
              && Confined(old(fs.nodes), fs.nodes, workRoot + [runId])
              && (RealDir(old(fs.nodes), workRoot) ==>
                    && SameOutside(old(fs.nodes), fs.nodes, workRoot + [runId])
                    && (dropped ==> fs.nodes == old(fs.nodes)))
              && (Healthy(fs, workRoot + [runId]) ==>
                    && dropped
                    && (|stages| > 2 <==> Fetches(studentLink, testLink, student, hidden, maxBytes)))
  {
    var root := workRoot + [runId];
    stages, dropped := PIPELINE[..1], false;
    ghost var n0 := fs.nodes;
    start, ready := n0, n0;
    assert Parent(root) == workRoot && workRoot + [runId, PROJECT] == root + [PROJECT];
    PlainUp(n0, root);
    var created := CreateWorkspace(fs, root);
    ghost var n1 := fs.nodes;
    if !created {
      if Fresh(n0, root) { BeforeAndAfter(n0, n1, n1, n1, workRoot, runId); }
      return Err(Internal(Clone)), stages, false, start, ready;
    }
    if Fresh(n0, root) { SkeletonIsRoomy(n1, root); }
    ghost var s;
    r, stages, s, ready :=
      GradeIn(fs, root, language, studentLink, testLink, maxBytes, student, hidden, install, test, lex);
    if |stages| > 1 { start := Checkouts(n1, root, s, hidden.tree); }
    ghost var n2 := fs.nodes;
    dropped := DropWorkspace(fs, workRoot, runId);
    if Fresh(n0, root) && SameOutside(n1, n2, root) { BeforeAndAfter(n0, n1, n2, fs.nodes, workRoot, runId); }
  }
}
