# A verified model of the assignment grader

The repository is a Kafka worker that grades a student's repository against a hidden test repository. It
clones both, lays the hidden tests over the student's files, runs the suite in a sandbox, reads the JUnit
reports and produces a score before it commits the message. This project models that logic in Dafny and
proves what the worker promises about it.

`dafny verify dfyconfig.toml` checks everything.

## The files

- `Trees.dfy` is the pure merge on finite directory trees, read node by node, and the sizes of trees.
- `Nodes.dfy`, `FileSystem.dfy` are a mutable filesystem: a flat map of nodes, path walks that follow
  symlinks in every component but the last, and operations that may fail half way at a fixed set of faulty
  places, which is an input.
- `Workspace.dfy` is the overlay copy, `Purge.dfy` the purge, `Merge.dfy` the in-place merge of the two, proved
  against the pure merge; `Project.dfy` is `prepare_project`, `Languages.dfy` the purge paths of each language.
- `Junit.dfy`, `JunitTrees.dfy`, `JunitProperties.dfy` are the event loop of the report parser, the meaning
  of a report as an XML tree, and the proof that the first computes the second.
- `Grading.dfy`, `Reports.dfy` are counts, score and status, and the grade as a statement about report trees;
  `ReportFiles.dfy` is which files of a workspace are the reports, in which order, and how they are read.
- `Worker.dfy`, `WorkerLoss.dfy`, `WorkerShutdown.dfy` are the protocol of receive, permit, attempt, commit,
  crash and drain as a transition system over one partition.
- `Layout.dfy` makes the directory of a task, `Scheduler.dfy` is one task from workspace to result;
  `Sandbox.dfy` is the decimal printer and write loop that run between fork and exec.

## What comes out

- **Merge.** For every student tree, hidden tree and listing order, a successful in-place merge is exactly
  the pure overlay of the hidden tree (less `.git` and symlinks at every depth) on the purged student tree.
  On every exit, also after a failure half way, nothing outside the project changes, as long as each purge path
  in turn resolves to nothing or inside the project; `PurgeAllConfinedIff` says that this is exactly when a
  purge stays inside. Success leaves the hidden suite at a purge path, links or not, if and only if the purge took
  nothing from the hidden checkout that belongs there. Without faults the merge succeeds whenever the purge leaves
  the two directories.
- **Task.** The student tree, the hidden tree, the faulty places and what the sandbox does are inputs. In a
  fresh workspace nothing outside it changes if every purge path resolves inside the project, which only a Java
  checkout with a symlink `src` can prevent; without faults the task then succeeds exactly when both links are
  http(s), both clones arrive, they are within the size limit together, and install, test and report complete with
  the report files that the run leaves. The stages entered are recorded as they are entered, and an error names
  the last of them.
- **Parser.** For every XML tree the event loop returns the innermost `testcase` elements in document order,
  every field read off the element and where it stands. A report and the same report with its self-closing
  elements written as start and end parse alike if and only if no message is behind a self-closing element.
- **Grade.** Counts, score and status depend on the multiset of verdicts of those elements and on nothing
  else: names, times, messages and text can be dropped from every report, and skipped elements move neither
  score nor status.
- **Worker.** With `n` permits at most `n` parseable messages per process are committed without a result
  attempt, `n - 1` when every payload parses; runs that reach either bound exist for every `n` and every
  number of restarts. No message is ever lost if and only if every parseable message is the last one, or is
  followed by a parseable one and there is a single permit.

## Where the code and its documentation differ

The model follows the code.

- `README.md:91-93` and `crates/grader_lib/src/scheduler.rs:92-93` say that producing before committing
  makes a crash replay the task rather than lose it. A commit stores `offset + 1` whatever is stored already
  and finished tasks commit in any order, so this holds exactly under the condition of
  `WorkerLoss.AtLeastOnceIff`. For the same reason the comment at `app/grader/src/main.rs:115-117`, that a
  leftover task's offset was never committed, holds only there.
- `crates/grader_lib/src/workspace.rs:172-173` and `README.md:32-34` say that symlinks are never followed.
  The last component never is; an intermediate one of `src/test` is resolved by the operating system. See
  `Purging.PurgeAllConfinedIff`, `Purging.PurgeThroughLink` and `Languages.PurgePathsSafety`.
- `crates/grader_lib/src/workspace.rs:165-166` and `README.md:31-32` say that a student who edits the tests gets
  the hidden ones regardless. A successful merge keeps this at exactly the purge paths that are
  `Purging.Spared`: the purge removes nothing from the hidden checkout that the copy would bring there
  (`Merging.MergeTrees`). A Java checkout whose `src` is a link to the `src` of the hidden checkout
  makes the purge empty the hidden suite before it is copied: `Purging.PurgeReachesHidden`,
  `Merging.MergeLinkedToHidden`.
- `crates/grader_lib/src/languages.rs:31-33` says that a student cannot keep doctored tests around. That covers
  the tests, not their reports: Maven's report directory is below the project and is not purged, so a report file
  that a student commits is read with the others unless the run removes it: `Languages.CommittedReportIsFound`.
- `crates/grader_lib/src/junit.rs:27-28` says that the body is used when there is no `message`. A `type`
  attribute comes before the body (`junit.rs:133-136`), and only the first character data is looked at.
- `README.md:30-31` names `tests/` and `src/test/`; the code also purges `test/` and `__tests__/`
  (`crates/grader_lib/src/languages.rs:58, 80`).
- A passed case can carry a message: when a `testcase` opens inside a verdict element that still waits for
  its body, that body goes to the inner case. `JunitProperties.PassedIsSilentIff` says exactly when.
- A self-closing element inside a verdict or a case ends the search for its message
  (`crates/grader_lib/src/junit.rs:43`), so the two spellings of an empty element are not always the same:
  `JunitProperties.EmptyIsStartEndIff`.
- An entry that cannot be read is left out of the size sum, and errors while removing `.git` are ignored
  (`crates/grader_lib/src/workspace.rs:145-149, 286`), so the size limit bounds only the bytes that no
  faulty place hides, and the absence of `.git` holds when no place below the workspace is faulty. A plain file
  called `.git` stays, because `remove_dir_all` refuses it.

## Model

| member | source | states |
|---|---|---|
| Trees.OverlayAt | crates/grader_lib/src/workspace.rs:199-246 | Node by node, the overlay has the sanitised hidden node where there is one, nothing below a hidden file, and otherwise exactly the student's node |
| Trees.MergeAt | crates/grader_lib/src/workspace.rs:169-246 | The same for the whole merge: a student node survives exactly when it is neither purged, nor below a hidden file, nor replaced |
| Trees.HiddenSuiteIsAuthoritative | crates/grader_lib/src/workspace.rs:162-193 | After the merge a purged path holds exactly the sanitised hidden subtree there, or nothing if there is none |
| Trees.PurgedContentIsIrrelevant | crates/grader_lib/src/workspace.rs:162-193 | Two student trees that differ only at and below purged paths merge to the same tree |
| Trees.PurgedApartIff | crates/grader_lib/src/workspace.rs:170-190 | A tree keeps exactly its subtree at a path under a list of removals if and only if none of them removes anything at or below it |
| Trees.MergeIsIdempotent | crates/grader_lib/src/workspace.rs:169-246 | Merging the same hidden tree into the result again changes nothing |
| Trees.OnlyStudentLinksSurvive | crates/grader_lib/src/workspace.rs:207-219 | A symlink, or anything at or below an entry called `.git`, in the result is the student's own and lies outside every purged path |
| Trees.SanitiseIs | crates/grader_lib/src/workspace.rs:207-219 | The copy skips exactly what lies at or below an entry called `.git` or a symlink of the hidden tree, and alters nothing else |
| Trees.AnyListingOrder | crates/grader_lib/src/workspace.rs:202-244 | Copying the entries of a directory in whatever order they are listed gives the overlay |
| Trees.MergeSize | crates/grader_lib/src/workspace.rs:267-291 | The merged tree is never larger than the two trees the gate summed |
| Nodes.LocatePlain | crates/grader_lib/src/workspace.rs:174-176 | A path below a directory reached without links names its own place, its last component not followed, and nothing when that directory is missing |
| FileSystems.FileSystem.RemoveDirAll | crates/grader_lib/src/workspace.rs:178 | Removes exactly the resolved directory or link; refuses a file; a failure leaves some of the nodes there removed and all others alone; succeeds when no place there is faulty |
| FileSystems.FileSystem.RemoveFile | crates/grader_lib/src/workspace.rs:180 | Removes exactly the resolved file or link, or nothing; succeeds when that place is not faulty |
| FileSystems.FileSystem.ReadDir | crates/grader_lib/src/workspace.rs:202-203 | Every entry name of the resolved directory once, in no fixed order; an error only for a faulty directory |
| FileSystems.FileSystem.CreateDirAll | crates/grader_lib/src/workspace.rs:236 | On any path: nothing is lost, all that is new is directories, and success leaves a path that leads to a directory; on a path without links only directories on the way are new, and it succeeds when no missing one is faulty |
| FileSystems.FileSystem.Copy | crates/grader_lib/src/workspace.rs:241 | Success puts the source bytes at the resolved target and changes nothing else; a failure may leave any bytes there; succeeds when neither place is faulty |
| Purging.PurgeOne | crates/grader_lib/src/workspace.rs:171-189 | Success is the removal of the place the path resolves to, if anything is there; a failure thins that place only |
| Purging.PurgePaths | crates/grader_lib/src/workspace.rs:170-190 | Success is all purges in order; on any exit nodes are only removed, and only inside the project when each path in turn resolves inside it; then, without faults in the project, it succeeds |
| Purging.PurgeNodesSafe | crates/grader_lib/src/workspace.rs:170-190 | Without a symlink on the way, a purge does to the map what the pure purge does to the tree, and nothing outside the project changes |
| Purging.PurgeAllSafe | crates/grader_lib/src/workspace.rs:170-190 | The same for the whole list |
| Purging.PurgeAllConfinedIff | crates/grader_lib/src/workspace.rs:170-190 | The whole purge leaves everything outside the project alone if and only if each path in turn resolves to nothing or to a place inside the project |
| Purging.AllPurgedAreGone | crates/grader_lib/src/workspace.rs:170-190 | After the purge there is nothing at any purge path of the project, whatever links the paths met |
| Purging.HiddenLeft | crates/grader_lib/src/workspace.rs:170-190 | As long as the hidden checkout is there, what the purge leaves of it is its tree less the places that were resolved to below it |
| Purging.SparedIff | crates/grader_lib/src/workspace.rs:170-193 | What is left brings to a purge path what the whole hidden tree would, if and only if the path is spared |
| Purging.PurgeThroughLink | crates/grader_lib/src/languages.rs:117 | A filesystem with `src` a link on which the purge of `src/test` removes a directory outside the project |
| Purging.PurgeReachesHidden | crates/grader_lib/src/workspace.rs:169-193 | A workspace with `src` a link into the hidden checkout on which the purge of `src/test` empties the hidden suite itself, so that `src/test` is not spared |
| Languages.PurgePathsSafety | crates/grader_lib/src/languages.rs:47-117 | The Javascript and Python lists never meet a symlink on the way, the Java list does exactly when `src` is one |
| Languages.MergeIsSuited | crates/grader_lib/src/languages.rs:47-117 | After the merge `tests`, `test` and `__tests__` (Javascript), `tests` and `test` (Python) or `src/test` (Java) hold exactly the sanitised hidden subtree, and a student node outside them stays where the hidden tree has nothing in its way |
| Languages.ReportsAre | crates/grader_lib/src/languages.rs:64-123 | The reports are `out/junit.xml` for Javascript and Python if it leads to a file, and for Java every entry of `project/target/surefire-reports` whose name ends in `.xml` behind another character |
| Languages.CommittedReportIsFound | crates/grader_lib/src/languages.rs:117-123 | After the merge a report file of the student's own Maven report directory is among the files that will be read, unless the hidden repository has something there |
| Workspaces.OverlayEntry | crates/grader_lib/src/workspace.rs:207-243 | One entry: success leaves the overlay of the hidden entry on what was there (or what was there, for a hidden symlink); nothing else is altered on any exit; without faults it succeeds |
| Workspaces.PlaceDir | crates/grader_lib/src/workspace.rs:235-238 | The directory arm, in place |
| Workspaces.PlaceFile | crates/grader_lib/src/workspace.rs:239-243 | The file arm, in place |
| Workspaces.OverlayCopy | crates/grader_lib/src/workspace.rs:199-246 | Success leaves exactly the pure overlay at the target, also when it is missing at first; on any exit nothing outside the target is lost or altered; recursion ends with the hidden tree; without faults it succeeds on an existing target |
| Workspaces.CopyListed | crates/grader_lib/src/workspace.rs:205-244 | The loop over one directory, for whatever order the listing has |
| Merging.MergeTrees | crates/grader_lib/src/workspace.rs:169-193 | Success puts the hidden suite at a purge path if and only if the path is spared; if each purge path resolves inside the project, nothing outside changes on any exit; if none resolves to a place at, below or above the hidden checkout, or at or above the project, success is the overlay on what the purge left and the suite stands everywhere; without links on the way success is the pure merge; without faults it succeeds if the purge stays inside the project, or leaves both directories |
| Merging.MergeLinkedToHidden | crates/grader_lib/src/workspace.rs:169-193 | On the checkout linked into the hidden one the merge succeeds and `src/test` does not hold the hidden suite |
| Projects.DirSize | crates/grader_lib/src/workspace.rs:143-160 | Between the sum of the regular files that no faulty place hides and the sum of all of them; exactly the latter when no place below the directory is faulty |
| Projects.FileCounts | crates/grader_lib/src/workspace.rs:143-160 | A regular file counts with all its bytes exactly when no place on its way is faulty: taking it away takes that much from the sum |
| Projects.NothingToCount | crates/grader_lib/src/workspace.rs:143-160 | A tree without regular files counts nothing |
| Projects.HttpLinkIs | crates/grader_lib/src/workspace.rs:63-72 | A link is accepted exactly when it begins with `http://` or `https://` |
| Projects.GitClone | crates/grader_lib/src/workspace.rs:63-140 | Success exactly when the link is accepted, the clone delivers and the target is vacant, and then exactly the delivered tree is there; otherwise a clone-stage error with the status of the reason: a refused link or a failed clone, a timeout, or a git that could not be run; other links are refused before anything changes |
| Projects.FetchBoth | crates/grader_lib/src/workspace.rs:257-282 | Success means that exactly the two delivered trees are there, nothing else changed, and the bytes that no faulty place hides are within the limit, all of them without faults; two clones within the limit always pass; a failure has the status of the first clone that does not arrive, or of a failed clone when they are too large |
| Projects.DropGit | crates/grader_lib/src/workspace.rs:284-286 | The student tree keeps everything outside `.git` and only shrinks there; when no place in the project is faulty, what is left is the tree without a `.git` directory or link |
| Projects.GitDroppedIs | crates/grader_lib/src/workspace.rs:284-286 | What is left has no `.git` unless that is a plain file, and the same entry under every other name |
| Projects.PrepareProject | crates/grader_lib/src/workspace.rs:250-303 | The merge starts from the workspace with exactly the delivered trees, the student's less `.git`. If each purge path resolves inside the project there, nothing outside the workspace changes on any exit; success leaves no hidden checkout and the hidden suite at exactly the spared purge paths; with safe purge paths success is the pure merge; an error names the last stage entered and has the status of its cause; without faults the size limit holds, the merge is entered exactly when both links are accepted and both clones arrive and fit, and succeeds when the purge stays inside |
| Junit.FindIsFirst | crates/grader_lib/src/junit.rs:143-149 | An attribute lookup answers for the first attribute of that name, and is empty when that one does not decode |
| Junit.FindIsAbsent | crates/grader_lib/src/junit.rs:143-149 | A name that does not occur is not found |
| Junit.MillisIsNearest | crates/grader_lib/src/junit.rs:114-117 | Seconds become the nearest whole milliseconds, ties upward, clamped to 0 and 18446744073709551615 |
| Junit.Truncate | crates/grader_lib/src/junit.rs:151-157 | A short message is kept; a longer one becomes its first 1000 characters and an ellipsis |
| Junit.TrimIs | crates/grader_lib/src/junit.rs:93-95 | Trimming takes white space off both ends up to the first other character |
| Junit.SpaceIs | crates/grader_lib/src/junit.rs:93-95 | White space is the 25 code points of the Unicode property |
| Junit.ParseJunitXml | crates/grader_lib/src/junit.rs:20-89 | The loop succeeds exactly when the reader meets no error, and then returns the cases of the fold of its step over the stream |
| JunitTrees.RunLeaf | crates/grader_lib/src/junit.rs:91-98 | From any sound state, character data or a self-closing element takes the loop to the state the tree meaning of that node gives: in a capture window it becomes the message of the open case unless it is blank, and closes the window |
| JunitTrees.ElementDone | crates/grader_lib/src/junit.rs:100-141 | From any sound state, opening an element, reading its content and closing it gives the state the tree meaning of the whole element gives |
| JunitTrees.RunNode | crates/grader_lib/src/junit.rs:31-86 | From any sound state, the events of one node take the loop to the state its tree meaning gives |
| JunitTrees.RunForest | crates/grader_lib/src/junit.rs:31-86 | The same for a sequence of nodes |
| JunitTrees.ParserRefinement | crates/grader_lib/src/junit.rs:13-89 | For every report tree, parsing its events gives the cases of the tree |
| JunitProperties.EveryStreamIsAReport | crates/grader_lib/src/junit.rs:31-86 | Every well-nested stream of events without a reader error is that of a report tree, so what holds of trees holds of all such streams |
| JunitProperties.RunKeepsInvariant | crates/grader_lib/src/junit.rs:24-98 | On every stream: a capture window belongs to an open case without a message, no message exceeds 1001 characters, and cases are only appended |
| JunitProperties.SuiteStackIsOpenSuites | crates/grader_lib/src/junit.rs:72-80 | On every well-nested prefix the suite stack is the names of the open `testsuite` elements |
| JunitProperties.PassedIsSilentIff | crates/grader_lib/src/junit.rs:91-141 | Passed cases have no message if and only if no `testcase` with text opens inside a verdict element still waiting for its message |
| JunitProperties.PassedWithMessage | crates/grader_lib/src/junit.rs:91-141 | A report whose one case is passed and has a message |
| JunitProperties.ForestFits | crates/grader_lib/src/junit.rs:91-141 | The verdict found is the last element called `failure`, `error` or `skipped`, self-closing or not, in the listing of all nodes; the text found is the first character data of that listing unless a self-closing element comes before it |
| JunitProperties.ParsedCasesAreInnermost | crates/grader_lib/src/junit.rs:17-19 | One case for each `testcase` of the listing with no other below, in document order. It is passed exactly when no element below is called `failure`, `error` or `skipped`; otherwise the last of these to begin gives the outcome by its name, and the message: its `message`, failing that its `type`, failing that its first character data. The suite is the class name or the innermost enclosing `testsuite`; without a verdict there is no message unless the case opens inside a waiting verdict |
| JunitProperties.EmptyIsStartEndIff | crates/grader_lib/src/junit.rs:40-57 | Writing every self-closing element as a start and an end changes no case if and only if there is no innermost `testcase` whose message, not blank, is behind a self-closing element |
| JunitProperties.EmptyIsStartEnd | crates/grader_lib/src/junit.rs:40-57 | In particular it changes no case when verdict elements hold only character data |
| JunitProperties.EmptyInVerdictDiffers | crates/grader_lib/src/junit.rs:40-57 | A report on which the two spellings differ, because a self-closing element precedes the text of a verdict element |
| Reports.CollectReports | crates/grader_lib/src/junit.rs:159-181 | Success exactly when every file can be read and none has a reader error in it, and then the cases are those of the files one after another; otherwise a report-stage error |
| Reports.CollectMeaning | crates/grader_lib/src/junit.rs:159-181 | The same of the specification function the grades are stated with |
| ReportFiles.XmlFilesIn | crates/grader_lib/src/junit.rs:183-197 | The names with extension `xml` that the listing gave, in ascending order; all of them when nothing there is faulty |
| ReportFiles.AscendingIsUnique | crates/grader_lib/src/junit.rs:195 | The order of the files depends on their names alone |
| ReportFiles.BeforeIs | crates/grader_lib/src/junit.rs:195 | A proper prefix comes first, and otherwise the name with the smaller first differing character |
| ReportFiles.ResolveReports | crates/grader_lib/src/scheduler.rs:271-282 | Some of the report files of the workspace, each once and in order; all of them when nothing that has to be read is faulty |
| ReportFiles.ReadReports | crates/grader_lib/src/junit.rs:164-170 | What each file holds, following links, or nothing for a directory, bytes that are no text, or a faulty place |
| Reports.CollectedOutcomes | crates/grader_lib/src/junit.rs:159-181 | Well-formed reports always collect, and the outcomes are those of their innermost `testcase` elements |
| Reports.GradeIsOfTheTrees | crates/task_types/src/producer.rs:117-163 | Two runs whose reports have the same multiset of verdicts have the same counts, score and status |
| Reports.OnlyElementsCount | crates/task_types/src/producer.rs:117-163 | Dropping every attribute and all character data from the reports moves no count, score or status |
| Reports.CombinedReports | crates/task_types/src/producer.rs:117-163 | Two lists of report trees graded together score between the two graded apart, and the same in either order |
| Reports.SkippedReports | crates/task_types/src/producer.rs:134-141 | Reports that only skip leave the score and the status of the others alone |
| Reports.SkipsDoNotCount | crates/task_types/src/producer.rs:134-141 | Skipped `testcase` elements put in or taken out anywhere in the reports change neither score nor status |
| Grading.GradedCounts | crates/task_types/src/producer.rs:123-141 | Counts are multiplicities of outcomes and partition the cases; the score is the nearest hundredth of a percent to passed over gradable, ties upward |
| Grading.ScoreIsNearest | crates/task_types/src/producer.rs:134-141 | The score is the only number with that rounding property |
| Grading.ScoreThresholds | crates/task_types/src/producer.rs:134-141 | 100.00 exactly when at most one gradable test in 20000 failed, 0.00 exactly when fewer than one in 20000 passed |
| Grading.StatusMeaning | crates/task_types/src/producer.rs:143-151 | Passed exactly when something passed and nothing failed, failed exactly when nothing passed; below 20000 gradable tests the score says the same |
| Grading.GradeIsOfTheOutcomes | crates/task_types/src/producer.rs:117-163 | The grade depends only on the multiset of outcomes |
| Grading.ImprovingNeverHurts | crates/task_types/src/producer.rs:123-151 | Turning a failed or errored case into a pass lowers neither score nor status |
| Grading.ScoreMediant | crates/task_types/src/producer.rs:134-141 | The rounded score of two suites together lies between their rounded scores |
| Worker.RunInv | app/grader/src/main.rs:65-110 | In every state of every run: free and held permits add up to the concurrency, every received message is waiting, in flight, or attempted and acked, and the resume offset never goes back |
| WorkerLoss.BoundedLoss | crates/kafka_types/src/connection.rs:43-58 | What this process received, parsed and left unattempted below the committed offset is in flight; at most `n` messages, at most `n - 1` when the message last committed parses |
| WorkerLoss.TotalLoss | crates/grader_lib/src/scheduler.rs:92-101 | Over any run at most `n` (all parse: `n - 1`) such messages per process, and at most one attempt per message and process |
| WorkerLoss.LossIsReached | crates/grader_lib/src/scheduler.rs:36-101 | For every concurrency and number of restarts there is a run over parseable messages with exactly the loss of the second bound |
| WorkerLoss.MixedLossIsReached | app/grader/src/main.rs:72-91 | And a run over messages that do not all parse with exactly the loss of the first |
| WorkerLoss.LostForGood | app/grader/src/main.rs:65-104 | A message below the resume offset without an attempt never gets one |
| WorkerLoss.TakesNext | app/grader/src/main.rs:65-91 | While it runs with no message waiting for a permit the worker takes the next one, however many tasks it has |
| WorkerLoss.FinishesNext | crates/grader_lib/src/scheduler.rs:92-101 | Any task in flight may be the next to finish, and its commit stores its own offset or is lost |
| WorkerLoss.CrashesAnywhere | app/grader/src/main.rs:65-110 | The process may die in any state, and resumes at the stored offset |
| WorkerLoss.CommitGoesBack | crates/kafka_types/src/connection.rs:43-58 | With two permits the stored offset can go back, and after a crash a message that was committed is graded again |
| WorkerLoss.Overtaken | app/grader/src/main.rs:72-91 | Behind a parseable message in flight, the next one can be committed first whenever there are two permits or it does not parse |
| WorkerLoss.AtLeastOnceIff | crates/grader_lib/src/scheduler.rs:92-101 | No run ever commits a parseable message without a result attempt if and only if each is the last, or is followed by a parseable one and there is one permit |
| WorkerShutdown.DrainSteps | app/grader/src/main.rs:106-110 | While draining only task steps, the exit or a crash are possible, and each task step brings the end one nearer |
| WorkerShutdown.InterruptDrains | app/grader/src/main.rs:99-110 | From every running state with nothing waiting, whatever is in flight, there is a run that begins with the interrupt, goes on with steps of the tasks alone and ends with the exit, with every message in flight attempted and acked |
| WorkerShutdown.DrainsWith | app/grader/src/main.rs:99-110 | A drain with any number of tasks in flight up to the concurrency is reached |
| WorkerShutdown.NeverStuck | crates/grader_lib/src/scheduler.rs:36-45 | A waiting message or a drain always has a step to take |
| WorkerShutdown.CleanExit | app/grader/src/main.rs:106-110 | After the exit nothing is in flight, every received message was acked and, if it parses, attempted; with one permit, parseable payloads and no failed commit the stored offset is the next to receive |
| Scheduler.StageErrorMeaning | crates/grader_lib/src/scheduler.rs:228-269 | A timeout is reported whatever else happened, a memory kill next, an ordinary exit of the install stage as an install failure, and everything else as a failed run |
| Scheduler.ResponseMeaning | crates/grader_lib/src/scheduler.rs:57-80 | A result is a grade exactly when no error ended the task: it lists all cases up to 500 and otherwise the first 500, which alters no count; an error gives its own status and stage with no counts |
| Scheduler.RunIdIsOwn | crates/grader_lib/src/scheduler.rs:284-299 | Whatever the task id, the run id is one safe path component of bounded length, and different identifiers give different run ids |
| Scheduler.RunIdIs | crates/grader_lib/src/scheduler.rs:284-299 | A safe task id, cut at 40 characters, leads the run id, `task` stands for an empty one, and characters that are not safe make no difference |
| Scheduler.SafeCharIs | crates/grader_lib/src/scheduler.rs:287 | Safe characters are the ASCII letters and digits, the hyphen and the underscore |
| Layouts.CreateWorkspace | crates/grader_lib/src/workspace.rs:21-33 | Whatever was there, nothing is lost or altered and success makes every directory of the layout; a fresh workspace comes out as exactly the layout, its one link possibly missing, with nothing else made but missing directories on the way, and without faults it is made |
| Layouts.LayoutIs | crates/grader_lib/src/sandbox.rs:76-89 | The layout is the sixteen directories and the link by name |
| Layouts.AddDirectory | crates/grader_lib/src/sandbox.rs:76-89 | One directory of the layout, created with its parents: the layout so far is kept and one longer |
| Scheduler.GradeReports | crates/grader_lib/src/scheduler.rs:175-198 | Success with the cases of report files of the workspace one after another, at least one; when these can be read, exactly if there are files, none has a reader error and one has a case; otherwise a failed run at the report stage |
| Scheduler.RunPipeline | crates/grader_lib/src/scheduler.rs:130-198 | Unless the install ended with exit code 0, no signal, no timeout and no memory kill, the task ends there with the error of that cause; unless the tests ended within the limits it ends there; otherwise the cases are those of the report files the two stages leave, and when these can be read success is exactly that none has a reader error and one has a case |
| Scheduler.StageMayLeave | crates/grader_lib/src/scheduler.rs:201-222 | A sandboxed stage may leave any files at all in the workspace |
| Scheduler.GradeTask | crates/grader_lib/src/scheduler.rs:105-199 | The stages entered are a prefix of the pipeline; an error names the last of them, with the status of its cause: the clone that does not arrive, the sandboxed stage by its outcome, or the reports; the sandbox finds no hidden checkout and the hidden suite at exactly the spared purge paths, and without a symlink `src` in a Java checkout the pure merge, with the test directories of the language replaced and the rest kept; the cases are those of the report files it leaves. In a fresh workspace, if each purge path resolves inside the project, as it does without such a link: nothing outside changes on any exit, once the workspace is dropped the filesystem is what it was, and without faults it is dropped, the merge starts from a function of the inputs, the sandbox is reached exactly when the clones fetch, and the task succeeds exactly when the stages complete |
| Sandbox.DigitsReadBack | crates/grader_lib/src/sandbox.rs:624-649 | The digits rendered read back as the number |
| Sandbox.DigitsAreUnique | crates/grader_lib/src/sandbox.rs:624-649 | They are the only digits without a leading zero that do |
| Sandbox.ItoaPid | crates/grader_lib/src/sandbox.rs:624-649 | For every 32-bit pid both buffers suffice and the result is ASCII digits and a newline: without a leading zero and with the value of the pid if it is positive, and a single 0 otherwise |
| Sandbox.WriteAll | crates/grader_lib/src/sandbox.rs:596-622 | Under any sequence of short writes and interrupts the kernel has accepted a prefix of the data, and true is returned exactly when it has accepted all of it |

## Left out

- Namespaces, mounts, `pivot_root`, cgroups, process spawning and rlimits: foreign calls; a sandbox stage is an
  arbitrary outcome and an arbitrary change of the files of the workspace, both inputs, and changes nothing else.
- `git`, timeouts and the network: what a clone delivers, a tree or one of three ways to fail, is an input; a
  failed clone may leave anything in its directory.
- The XML lexer, entity decoding and attribute unescaping: the model starts from decoded events with local
  names. A text node of a report tree is a text event as the reader emits it: surrounding white space is trimmed,
  white space alone is no event, and a text may be split at entity references. Parsing a time as a number is part
  of the decoding; not-a-number and infinity are not modelled.
- Floating point: score and durations are exact; a tie may round differently in `f64`.
- Kafka rebalancing, several partitions, offset gaps and a commit that arrives after a restart: one partition
  with contiguous offsets, and a commit either reaches the broker at once or is lost.
- A result attempt is a send that was started; whether the broker took it is not modelled, because
  `send_kafka_response` swallows the error. A panic inside a task, which would release the permit without a
  result or a commit, is not modelled either.
- A metadata lookup never fails on a node that exists; every other filesystem operation may fail, or not, at any
  place of a fixed set. Special files, permissions, hard links and file names with a separator are not modelled.
- `reset_work_dir` and the random part of the run id, which is a parameter.
- Error messages, logs, task and student identifiers, durations of tasks, `to_host_path`, configuration,
  command strings and serialisation: data carried along.
- Merging.MergeTrees: when a purge path resolves to the project or a directory above it, whether the copy succeeds
  without faults is not said, because it depends on which kind of entry the listing gives first.
- Scheduler.GradeTask: the path of the work root is taken to be without symlinks, because it is the operator's;
  and when a Java checkout makes a purge path resolve outside the project nothing is said about files outside the
  workspace, because the code removes what is there (Purging.PurgeAllConfinedIff, Purging.PurgeThroughLink).
- ReportFiles.XmlFilesIn: the names are sorted as they are listed and not in one call at the end, with the same
  result (ReportFiles.AscendingIsUnique); all files are read before the first is parsed.
