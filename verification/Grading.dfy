/** crates/task_types/src/producer.rs: the result payload, its counts, status and score. The score is
    kept in hundredths, rounded half up from the exact ratio. */
module Grading {
  import opened Wrappers

  datatype GradeStage = Clone | Merge | Install | Test | Report

  datatype GradeStatus =
    | Passed | PartiallyPassed | Failed
    | CloneFailed | MergeFailed | InstallFailed | RunFailed
    | Timeout | MemoryLimitExceeded | InternalError
  {
    predicate IsGraded() {
      Passed? || PartiallyPassed? || Failed?
    }
  }

  datatype TestOutcome = Passed | Failed | Errored | Skipped

  datatype TestCaseResult = TestCaseResult(
    name: string,
    suite: Option<string>,
    outcome: TestOutcome,
    durationMs: nat,
    message: Option<string>)

  datatype GraderError = GraderError(stage: GradeStage, status: GradeStatus, logs: Option<string>)

  datatype ResponsePayload = ResponsePayload(
    status: GradeStatus,
    stage: GradeStage,
    total: nat,
    passed: nat,
    failed: nat,
    skipped: nat,
    score: nat,
    testcases: seq<TestCaseResult>,
    error: Option<GraderError>)

  const PIPELINE: seq<GradeStage> := [Clone, GradeStage.Merge, Install, Test, Report]

  /** An error names the stage entered last and is never a grade. */
  predicate StoppedAt(stages: seq<GradeStage>, e: GraderError) {
    stages != [] && e.stage == stages[|stages| - 1] && !e.status.IsGraded()
  }

  function Count(cases: seq<TestCaseResult>, o: TestOutcome): nat {
    if cases == [] then 0 else (if cases[0].outcome == o then 1 else 0) + Count(cases[1..], o)
  }

  function Outcomes(cases: seq<TestCaseResult>): seq<TestOutcome> {
    seq(|cases|, i requires 0 <= i < |cases| => cases[i].outcome)
  }

  /** Counting by filter is the multiplicity in the multiset of outcomes. */
  lemma {:induction false} CountIsMultiplicity(cases: seq<TestCaseResult>, o: TestOutcome)
    ensures Count(cases, o) == multiset(Outcomes(cases))[o]
    decreases |cases|
  {
    if cases != [] {
      CountIsMultiplicity(cases[1..], o);
      assert Outcomes(cases) == [cases[0].outcome] + Outcomes(cases[1..]);
    }
  }

  lemma {:induction false} CountsAddUp(cases: seq<TestCaseResult>)
    ensures Count(cases, TestOutcome.Passed) + Count(cases, TestOutcome.Failed) + Count(cases, Errored)
            + Count(cases, Skipped) == |cases|
    decreases |cases|
  {
    if cases != [] { CountsAddUp(cases[1..]); }
  }

  /** passed / gradable as a percentage in hundredths. */
  function Score(passed: nat, gradable: nat): nat {
    if gradable == 0 then 0 else (20000 * passed + gradable) / (2 * gradable)
  }

  function StatusOf(passed: nat, failed: nat, gradable: nat): GradeStatus {
    if gradable == 0 then GradeStatus.Failed
    else if failed == 0 then GradeStatus.Passed
    else if passed == 0 then GradeStatus.Failed
    else PartiallyPassed
  }

  function Base(status: GradeStatus, stage: GradeStage): ResponsePayload {
    ResponsePayload(status, stage, 0, 0, 0, 0, 0, [], None)
  }

  function Graded(testcases: seq<TestCaseResult>): ResponsePayload {
    var total := |testcases|;
    var passed := Count(testcases, TestOutcome.Passed);
    var skipped := Count(testcases, Skipped);
    CountsAddUp(testcases);
    var failed := total - passed - skipped;
    var gradable := total - skipped;
    Base(StatusOf(passed, failed, gradable), Report).(
      total := total, passed := passed, failed := failed, skipped := skipped,
      score := Score(passed, gradable), testcases := testcases)
  }

  /** The three grades, and no other status. */
  lemma GradesAre(s: GradeStatus)
    ensures s.IsGraded() <==>
            s in {GradeStatus.Passed, GradeStatus.PartiallyPassed, GradeStatus.Failed}
  {
  }

  function Failure(e: GraderError): ResponsePayload {
    Base(e.status, e.stage).(error := Some(e))
  }

  // ---- The score in exact arithmetic ----

  lemma DivBounds(a: nat, d: nat)
    requires d > 0
    ensures d * (a / d) <= a < d * (a / d + 1)
  {
  }

  lemma DivUnique(a: nat, d: nat, k: nat)
    requires d > 0 && d * k <= a < d * (k + 1)
    ensures a / d == k
  {
    DivBounds(a, d);
  }

  /** The score is the one whole number of hundredths nearest to the true percentage, ties upward. */
  lemma ScoreIsNearest(p: nat, g: nat, s: nat)
    requires g > 0
    ensures Score(p, g) == s <==> 2 * g * s <= 20000 * p + g < 2 * g * (s + 1)
  {
    DivBounds(20000 * p + g, 2 * g);
    if 2 * g * s <= 20000 * p + g < 2 * g * (s + 1) { DivUnique(20000 * p + g, 2 * g, s); }
  }

  lemma ScaleUp(d: nat, a: nat, b: nat)
    requires a <= b
    ensures d * a <= d * b
  {
  }

  lemma ScoreAtLeast(p: nat, g: nat, s: nat)
    requires g > 0
    ensures Score(p, g) >= s <==> 2 * g * s <= 20000 * p + g
  {
    var r := Score(p, g);
    DivBounds(20000 * p + g, 2 * g);
    if r >= s { ScaleUp(2 * g, s, r); } else { ScaleUp(2 * g, r + 1, s); }
  }

  /** 100.00 is reached exactly when at most one gradable test in 20000 failed, and 0.00 exactly when
      fewer than one in 20000 passed. */
  lemma ScoreThresholds(p: nat, g: nat)
    requires p <= g && g > 0
    ensures Score(p, g) <= 10000
    ensures Score(p, g) == 10000 <==> 20000 * (g - p) <= g
    ensures Score(p, g) == 0 <==> 20000 * p < g
  {
    ScoreAtLeast(p, g, 10001);
    ScoreAtLeast(p, g, 10000);
    ScoreAtLeast(p, g, 1);
  }

  lemma ScoreMonotone(p: nat, p': nat, g: nat)
    requires p <= p'
    ensures Score(p, g) <= Score(p', g)
  {
    if g > 0 {
      ScoreAtLeast(p, g, Score(p, g));
      ScoreAtLeast(p', g, Score(p, g));
    }
  }

  lemma Distribute(a: nat, b: nat, k: nat)
    ensures 2 * (a + b) * k == 2 * a * k + 2 * b * k
  {
  }

  /** The rounded score of two suites taken together lies between their rounded scores. */
  lemma ScoreMediant(p1: nat, g1: nat, p2: nat, g2: nat)
    requires g1 > 0 && g2 > 0 && Score(p1, g1) <= Score(p2, g2)
    ensures Score(p1, g1) <= Score(p1 + p2, g1 + g2) <= Score(p2, g2)
  {
    var lo, hi := Score(p1, g1), Score(p2, g2);
    ScoreAtLeast(p1, g1, lo);
    ScoreAtLeast(p2, g2, lo);
    ScoreAtLeast(p1 + p2, g1 + g2, lo);
    Distribute(g1, g2, lo);
    ScoreAtLeast(p1, g1, hi + 1);
    ScoreAtLeast(p2, g2, hi + 1);
    ScoreAtLeast(p1 + p2, g1 + g2, hi + 1);
    Distribute(g1, g2, hi + 1);
  }

  // ---- The grade of a list of cases ----

  /** What the result says apart from the detail list. */
  datatype Verdict = Verdict(status: GradeStatus, total: nat, passed: nat, failed: nat, skipped: nat, score: nat)

  function VerdictOf(r: ResponsePayload): Verdict {
    Verdict(r.status, r.total, r.passed, r.failed, r.skipped, r.score)
  }

  function Gradable(cases: seq<TestCaseResult>): nat {
    CountsAddUp(cases);
    |cases| - Count(cases, Skipped)
  }

  /** The grade depends on the multiset of outcomes and on nothing else. */
  lemma GradeIsOfTheOutcomes(a: seq<TestCaseResult>, b: seq<TestCaseResult>)
    requires multiset(Outcomes(a)) == multiset(Outcomes(b))
    ensures VerdictOf(Graded(a)) == VerdictOf(Graded(b))
  {
    CountIsMultiplicity(a, TestOutcome.Passed);
    CountIsMultiplicity(b, TestOutcome.Passed);
    CountIsMultiplicity(a, Skipped);
    CountIsMultiplicity(b, Skipped);
    assert |a| == |multiset(Outcomes(a))| && |b| == |multiset(Outcomes(b))|;
  }

  /** The counts are the multiplicities of the outcomes and partition the cases, a failed test being one
      that failed or errored; the score is the nearest hundredth to passed over gradable. */
  lemma GradedCounts(cases: seq<TestCaseResult>)
    ensures var r, m := Graded(cases), multiset(Outcomes(cases));
            && r.testcases == cases && r.stage == Report
            && r.passed == m[TestOutcome.Passed] && r.skipped == m[Skipped]
            && r.failed == m[TestOutcome.Failed] + m[Errored]
            && r.passed + r.failed + r.skipped == r.total == |cases|
    ensures var r, g := Graded(cases), Gradable(cases);
            && g == Graded(cases).total - Graded(cases).skipped
            && (g == 0 ==> r.score == 0)
            && (g > 0 ==> 2 * g * r.score <= 20000 * r.passed + g < 2 * g * (r.score + 1) && r.score <= 10000)
  {
    CountsAddUp(cases);
    CountIsMultiplicity(cases, TestOutcome.Passed);
    CountIsMultiplicity(cases, TestOutcome.Failed);
    CountIsMultiplicity(cases, Errored);
    CountIsMultiplicity(cases, Skipped);
    var g := Gradable(cases);
    if g > 0 {
      ScoreThresholds(Count(cases, TestOutcome.Passed), g);
      ScoreIsNearest(Count(cases, TestOutcome.Passed), g, Graded(cases).score);
    }
  }

  /** The status against the counts, both ways, and against the score. */
  lemma StatusMeaning(cases: seq<TestCaseResult>)
    ensures var r := Graded(cases);
            && r.status.IsGraded() && (r.status.Passed? || r.status.PartiallyPassed? || r.status.Failed?)
            && (r.status == GradeStatus.Passed <==> r.failed == 0 && r.passed > 0)
            && (r.status == GradeStatus.Failed <==> r.passed == 0)
            && (r.status == GradeStatus.Passed ==> r.score == 10000)
            && (r.total - r.skipped < 20000 ==>
                  (r.score == 10000 <==> r.status == GradeStatus.Passed) &&
                  (r.score == 0 <==> r.status == GradeStatus.Failed))
  {
    CountsAddUp(cases);
    if Gradable(cases) > 0 {
      ScoreThresholds(Count(cases, TestOutcome.Passed), Gradable(cases));
    }
  }

  function Rank(s: GradeStatus): int {
    match s
    case Passed => 2
    case PartiallyPassed => 1
    case _ => 0
  }

  lemma StatusMonotone(p: nat, f: nat, g: nat)
    requires f > 0
    ensures Rank(StatusOf(p, f, g)) <= Rank(StatusOf(p + 1, f - 1, g))
  {
  }

  lemma ImprovedCounts(cases: seq<TestCaseResult>, i: nat, better: seq<TestCaseResult>)
    requires i < |cases| && (cases[i].outcome == TestOutcome.Failed || cases[i].outcome == Errored)
    requires better == cases[i := cases[i].(outcome := TestOutcome.Passed)]
    ensures Count(better, TestOutcome.Passed) == Count(cases, TestOutcome.Passed) + 1
    ensures Count(better, Skipped) == Count(cases, Skipped)
  {
    assert Outcomes(better) == Outcomes(cases)[i := TestOutcome.Passed];
    CountIsMultiplicity(cases, TestOutcome.Passed);
    CountIsMultiplicity(better, TestOutcome.Passed);
    CountIsMultiplicity(cases, Skipped);
    CountIsMultiplicity(better, Skipped);
  }

  /** Turning a failed or errored case into a pass lowers neither the score nor the status. */
  lemma ImprovingNeverHurts(cases: seq<TestCaseResult>, i: nat)
    requires i < |cases| && (cases[i].outcome == TestOutcome.Failed || cases[i].outcome == Errored)
    ensures var better := cases[i := cases[i].(outcome := TestOutcome.Passed)];
            && Graded(cases).score <= Graded(better).score
            && Rank(Graded(cases).status) <= Rank(Graded(better).status)
            && Graded(better).passed == Graded(cases).passed + 1
  {
    var better := cases[i := cases[i].(outcome := TestOutcome.Passed)];
    ImprovedCounts(cases, i, better);
    CountsAddUp(cases);
    CountsAddUp(better);
    var p, f := Graded(cases).passed, Graded(cases).failed;
    assert f == Graded(better).failed + 1;
    ScoreMonotone(p, p + 1, Gradable(cases));
    StatusMonotone(p, f, Gradable(cases));
  }

  lemma {:induction false} CountConcat(a: seq<TestCaseResult>, b: seq<TestCaseResult>, o: TestOutcome)
    ensures Count(a + b, o) == Count(a, o) + Count(b, o)
    decreases |a|
  {
    if a == [] {
      assert a + b == b;
    } else {
      assert (a + b)[1..] == a[1..] + b;
      CountConcat(a[1..], b, o);
    }
  }

  lemma GradedConcat(a: seq<TestCaseResult>, b: seq<TestCaseResult>)
    ensures var r := Graded(a + b);
            && r.passed == Graded(a).passed + Graded(b).passed
            && r.failed == Graded(a).failed + Graded(b).failed
            && Gradable(a + b) == Gradable(a) + Gradable(b)
  {
    CountConcat(a, b, TestOutcome.Passed);
    CountConcat(a, b, Skipped);
  }

  /** Two lists of cases graded together score between the two graded apart. */
  lemma CombinedCases(a: seq<TestCaseResult>, b: seq<TestCaseResult>)
    requires Gradable(a) > 0 && Gradable(b) > 0 && Graded(a).score <= Graded(b).score
    ensures Graded(a).score <= Graded(a + b).score <= Graded(b).score
    ensures Graded(a + b).score == Graded(b + a).score && Graded(a + b).status == Graded(b + a).status
  {
    GradedConcat(a, b);
    GradedConcat(b, a);
    ScoreMediant(Graded(a).passed, Gradable(a), Graded(b).passed, Gradable(b));
  }

  /** Cases that are all skipped leave the score and the status of the others alone. */
  lemma SkippedCases(a: seq<TestCaseResult>, b: seq<TestCaseResult>)
    requires Gradable(b) == 0
    ensures Graded(a + b).score == Graded(a).score && Graded(a + b).status == Graded(a).status
  {
    GradedConcat(a, b);
    CountsAddUp(b);
  }

  /** The score and the status depend on the passed and the failed cases alone. */
  lemma SameCountsSameGrade(a: seq<TestCaseResult>, b: seq<TestCaseResult>)
    requires Graded(a).passed == Graded(b).passed && Graded(a).failed == Graded(b).failed
    ensures Graded(a).score == Graded(b).score && Graded(a).status == Graded(b).status
  {
    GradedCounts(a);
    GradedCounts(b);
  }
}
