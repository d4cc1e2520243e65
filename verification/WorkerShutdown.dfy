/** The drain of app/grader/src/main.rs:106-110: it always ends, and what holds once it has. */
module WorkerShutdown {
  import opened Worker
  import opened WorkerLoss

  ghost function Unsettled(s: State): set<nat> {
    set m | m in s.inFlight.Keys && !s.inFlight[m].Settled?
  }

  ghost function Ungraded(s: State): set<nat> {
    set m | m in s.inFlight.Keys && s.inFlight[m].Grading?
  }

  /** The task steps still to come. */
  ghost function Remaining(s: State): nat {
    |s.inFlight.Keys| + |Unsettled(s)| + |Ungraded(s)|
  }

  predicate IsTaskStep(step: Step) {
    step.Attempt? || step.Ack? || step.Release?
  }

  lemma AttemptIsCloser(n: nat, log: seq<bool>, s: State, m: nat)
    requires Enabled(n, log, s, Attempt(m))
    ensures Remaining(Apply(n, log, s, Attempt(m))) == Remaining(s) - 1
  {
    var t := Apply(n, log, s, Attempt(m));
    assert t.inFlight.Keys == s.inFlight.Keys;
    assert Unsettled(t) == Unsettled(s);
    assert m in Ungraded(s) && Ungraded(t) == Ungraded(s) - {m};
  }

  lemma AckIsCloser(n: nat, log: seq<bool>, s: State, m: nat, ok: bool)
    requires Enabled(n, log, s, Ack(m, ok))
    ensures Remaining(Apply(n, log, s, Ack(m, ok))) == Remaining(s) - 1
  {
    var t := Apply(n, log, s, Ack(m, ok));
    assert t.inFlight.Keys == s.inFlight.Keys;
    assert m in Unsettled(s) && Unsettled(t) == Unsettled(s) - {m};
    assert Ungraded(t) == Ungraded(s);
  }

  lemma ReleaseIsCloser(n: nat, log: seq<bool>, s: State, m: nat)
    requires Enabled(n, log, s, Release(m))
    ensures Remaining(Apply(n, log, s, Release(m))) == Remaining(s) - 1
  {
    var t := Apply(n, log, s, Release(m));
    assert m in s.inFlight.Keys && t.inFlight.Keys == s.inFlight.Keys - {m};
    assert Unsettled(t) == Unsettled(s);
    assert Ungraded(t) == Ungraded(s);
  }

  /** While draining, the only steps are those of the tasks, each of which brings the end one step nearer,
      then the exit, unless the process dies. */
  lemma DrainSteps(n: nat, log: seq<bool>, s: State, step: Step)
    requires Inv(n, log, s) && s.mode.Draining? && Enabled(n, log, s, step)
    ensures IsTaskStep(step) || step.Exit? || step.Restart?
    ensures IsTaskStep(step) ==>
              Remaining(Apply(n, log, s, step)) == Remaining(s) - 1 && Apply(n, log, s, step).mode.Draining?
  {
    match step
    case Attempt(m) => AttemptIsCloser(n, log, s, m);
    case Ack(m, ok) => AckIsCloser(n, log, s, m, ok);
    case Release(m) => ReleaseIsCloser(n, log, s, m);
    case _ =>
  }

  /** No state is stuck: a waiting message gets its permit, or some task can move, or the exit is open. */
  lemma NeverStuck(n: nat, log: seq<bool>, s: State) returns (step: Step)
    requires Inv(n, log, s) && n > 0
    requires s.waiting.Some? || s.mode.Draining?
    ensures Enabled(n, log, s, step) && (IsTaskStep(step) || step.Begin? || step.Exit?)
    ensures s.mode.Draining? && s.inFlight != map[] ==> IsTaskStep(step)
  {
    if s.inFlight == map[] {
      assert s.inFlight.Keys == {};
      step := if s.waiting.Some? then Begin else Exit;
    } else {
      var m :| m in s.inFlight;
      step := match s.inFlight[m]
              case Grading => Attempt(m)
              case Attempted => Ack(m, true)
              case Settled => Release(m);
    }
  }

  // ---- After the exit ----

  /** With one permit, parseable payloads and no failed commit, the stored offset is the delivery
      position less the one task under way and the one waiting. */
  ghost predicate InStep(n: nat, log: seq<bool>, s: State) {
    n == 1 && AllParse(log) && s.lostCommits == 0 ==>
      var w := if s.waiting.Some? then 1 else 0;
      && (s.inFlight == map[] ==> s.committed + w == s.pos)
      && (forall k: nat :: k in s.inFlight ==>
            k + 1 + w == s.pos && s.committed == if s.inFlight[k].Settled? then k + 1 else k)
  }

  ghost predicate ExitedIdle(s: State) {
    s.mode.Exited? ==> s.inFlight == map[] && s.waiting.None?
  }

  lemma Single(n: nat, log: seq<bool>, s: State, m: nat)
    requires Inv(n, log, s) && n == 1 && m in s.inFlight
    ensures s.inFlight.Keys == {m} && s.free == 0
  {
    SubsetCard({m}, s.inFlight.Keys);
    if k :| k in s.inFlight.Keys && k != m {
      assert |{m, k}| == 2;
      SubsetCard({m, k}, s.inFlight.Keys);
    }
  }

  lemma TaskInStep(n: nat, log: seq<bool>, s: State, step: Step)
    requires Inv(n, log, s) && InStep(n, log, s) && Enabled(n, log, s, step) && IsTaskStep(step)
    ensures InStep(n, log, Apply(n, log, s, step))
  {
    var t := Apply(n, log, s, step);
    if n == 1 {
      match step
      case Attempt(m) => Single(n, log, s, m); assert t.inFlight.Keys == {m};
      case Ack(m, _) => Single(n, log, s, m); assert t.inFlight.Keys == {m};
      case Release(m) => Single(n, log, s, m); assert t.inFlight.Keys == {};
    }
  }

  lemma StepInStep(n: nat, log: seq<bool>, s: State, step: Step)
    requires Inv(n, log, s) && InStep(n, log, s) && Enabled(n, log, s, step)
    ensures InStep(n, log, Apply(n, log, s, step))
  {
    if IsTaskStep(step) {
      TaskInStep(n, log, s, step);
    } else if n == 1 && step.Begin? {
      assert s.inFlight.Keys == {};
      assert Apply(n, log, s, step).inFlight.Keys == {s.waiting.value};
    }
  }

  lemma StepExitedIdle(n: nat, log: seq<bool>, s: State, step: Step)
    requires Inv(n, log, s) && ExitedIdle(s) && Enabled(n, log, s, step)
    ensures ExitedIdle(Apply(n, log, s, step))
  {
    if step.Exit? { assert s.inFlight.Keys == {}; }
  }

  lemma {:induction false} RunShutdown(n: nat, log: seq<bool>, s: State, steps: seq<Step>)
    requires Inv(n, log, s) && InStep(n, log, s) && ExitedIdle(s) && Valid(n, log, s, steps)
    ensures InStep(n, log, Exec(n, log, s, steps)) && ExitedIdle(Exec(n, log, s, steps))
    decreases |steps|
  {
    if steps != [] {
      StepInv(n, log, s, steps[0]);
      StepInStep(n, log, s, steps[0]);
      StepExitedIdle(n, log, s, steps[0]);
      RunShutdown(n, log, Apply(n, log, s, steps[0]), steps[1..]);
    }
  }

  /** Once the worker has exited nothing is in flight, every message it received was acked and, if it
      parses, had its result attempted; and with one permit, parseable payloads and no failed commit it
      resumes exactly where it stopped. */
  lemma CleanExit(n: nat, log: seq<bool>, s: State)
    requires Reached(n, log, s) && s.mode.Exited?
    ensures s.inFlight == map[] && s.waiting.None? && s.free == n && s.pos <= |log|
    ensures forall m: nat :: s.start <= m < s.pos ==> m in s.acked && (log[m] ==> m in s.attempts)
    ensures n == 1 && AllParse(log) && s.lostCommits == 0 ==> s.committed == s.pos
  {
    var steps :| Valid(n, log, Initial(n), steps) && s == Exec(n, log, Initial(n), steps);
    ReachedInv(n, log, s);
    RunShutdown(n, log, Initial(n), steps);
    forall m: nat | s.start <= m < s.pos ensures m in s.acked && (log[m] ==> m in s.attempts) {
      assert Past(s, m);
    }
  }

  // ---- Runs through a shutdown ----

  /** Steps of the tasks and then the exit. */
  ghost predicate Drains(steps: seq<Step>) {
    && steps != [] && steps[|steps| - 1] == Exit
    && forall i :: 0 <= i < |steps| - 1 ==> steps[i].Attempt? || steps[i].Ack? || steps[i].Release?
  }

  lemma DrainsMore(step: Step, rest: seq<Step>)
    requires Drains(rest) && (step.Attempt? || step.Ack? || step.Release?)
    ensures Drains([step] + rest)
  {
    var steps := [step] + rest;
    assert steps[|steps| - 1] == rest[|rest| - 1];
    forall i | 0 <= i < |steps| - 1 ensures steps[i].Attempt? || steps[i].Ack? || steps[i].Release? {
      if i > 0 { assert steps[i] == rest[i - 1]; }
    }
  }

  lemma KeepsItsPlace(n: nat, log: seq<bool>, s: State, step: Step)
    requires Enabled(n, log, s, step) && (step.Attempt? || step.Ack? || step.Release?)
    ensures var t := Apply(n, log, s, step); t.start == s.start && t.pos == s.pos && t.waiting == s.waiting
  {
  }

  lemma {:induction false} DrainsOut(n: nat, log: seq<bool>, s: State) returns (steps: seq<Step>)
    requires Inv(n, log, s) && s.mode.Draining? && s.waiting.None?
    ensures Drains(steps) && Valid(n, log, s, steps)
    ensures var t := Exec(n, log, s, steps); t.mode.Exited? && t.start == s.start && t.pos == s.pos
    decreases Remaining(s)
  {
    if s.inFlight == map[] {
      assert s.inFlight.Keys == {};
      steps := [Exit];
      assert steps[1..] == [];
    } else {
      var m :| m in s.inFlight;
      var step := match s.inFlight[m]
                  case Grading => Attempt(m)
                  case Attempted => Ack(m, true)
                  case Settled => Release(m);
      DrainSteps(n, log, s, step);
      StepInv(n, log, s, step);
      KeepsItsPlace(n, log, s, step);
      var rest := DrainsOut(n, log, Apply(n, log, s, step));
      DrainsMore(step, rest);
      steps := [step] + rest;
      assert steps[1..] == rest;
    }
  }

  /** From every running state with nothing waiting, whatever is in flight, the worker can be interrupted at
      once; from there its tasks alone can take it to the exit, and then every message that was in flight has
      had its result attempted and is acked. */
  lemma InterruptDrains(n: nat, log: seq<bool>, s: State) returns (steps: seq<Step>)
    requires Reached(n, log, s) && s.mode.Running? && s.waiting.None?
    ensures steps != [] && steps[0] == Interrupt && Drains(steps[1..]) && Valid(n, log, s, steps)
    ensures var t := Exec(n, log, s, steps);
            && t.mode.Exited? && t.pos == s.pos
            && forall m: nat :: m in s.inFlight ==> m in t.attempts && m in t.acked
  {
    ReachedInv(n, log, s);
    ReachedStep(n, log, s, Interrupt);
    var d := Apply(n, log, s, Interrupt);
    ReachedInv(n, log, d);
    var rest := DrainsOut(n, log, d);
    steps := [Interrupt] + rest;
    assert steps[1..] == rest;
    ReachedRun(n, log, d, rest);
    CleanExit(n, log, Exec(n, log, d, rest));
  }

  /** A drain can begin with any number of tasks in flight that the permits allow. */
  lemma DrainsWith(n: nat, log: seq<bool>, k: nat) returns (s: State)
    requires k <= n && k <= |log| && forall i :: 0 <= i < k ==> log[i]
    ensures Reached(n, log, s) && s.mode.Draining? && |s.inFlight.Keys| == k
    ensures forall m :: 0 <= m < k ==> m in s.inFlight && s.inFlight[m].Grading?
  {
    ReachedInitial(n, log);
    s := Fill(n, log, Initial(n), k);
    RangeIs(0, k);
    assert s.inFlight.Keys == Range(0, k);
    ReachedStep(n, log, s, Interrupt);
    s := Apply(n, log, s, Interrupt);
  }
}
