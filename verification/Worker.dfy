/** The worker protocol of app/grader/src/main.rs, crates/grader_lib/src/scheduler.rs and
    crates/kafka_types/src/connection.rs over one partition: receive, wait for a permit, grade, attempt
    the result, commit, release, skip, shut down, and restart at the committed offset. */
module Worker {
  import opened Wrappers

  /** A task between taking its permit and giving it back. */
  datatype Phase = Grading | Attempted | Settled

  datatype Mode = Running | Draining | Exited

  datatype State = State(
    committed: nat,            // the offset the broker has stored
    start: nat,                // where this process resumed
    pos: nat,                  // the next offset the consumer delivers
    waiting: Option<nat>,      // a received message whose task has no permit yet
    inFlight: map<nat, Phase>, // the tasks that hold a permit, by offset
    free: nat,                 // permits left in the semaphore
    acked: set<nat>,           // offsets this process has asked to commit
    lostCommits: nat,          // commits of this process that failed
    attempts: multiset<nat>,   // result sends ever attempted, by offset
    restarts: nat,
    mode: Mode)

  /** One step of the worker, with `ok` for a commit that reaches the broker. */
  datatype Step =
    | Receive
    | Skip(ok: bool)
    | Begin
    | Attempt(m: nat)
    | Ack(m: nat, ok: bool)
    | Release(m: nat)
    | Interrupt
    | Exit
    | Restart

  function Initial(n: nat): State {
    State(0, 0, 0, None, map[], n, {}, 0, multiset{}, 0, Running)
  }

  /** `log[m]` says whether the payload at offset `m` parses; `n` is the concurrency. */
  predicate Enabled(n: nat, log: seq<bool>, s: State, step: Step) {
    match step
    case Receive => s.mode.Running? && s.waiting.None? && s.pos < |log| && log[s.pos]
    case Skip(_) => s.mode.Running? && s.waiting.None? && s.pos < |log| && !log[s.pos]
    case Begin => s.waiting.Some? && s.free > 0
    case Attempt(m) => m in s.inFlight && s.inFlight[m].Grading?
    case Ack(m, _) => m in s.inFlight && s.inFlight[m].Attempted?
    case Release(m) => m in s.inFlight && s.inFlight[m].Settled?
    case Interrupt => s.mode.Running? && s.waiting.None?
    case Exit => s.mode.Draining? && s.free == n
    case Restart => true
  }

  /** `ack_task_to_topic`: store `offset + 1`, whatever is stored already. */
  function Commit(s: State, m: nat, ok: bool): State {
    var t := s.(acked := s.acked + {m});
    if ok then t.(committed := m + 1) else t.(lostCommits := t.lostCommits + 1)
  }

  function Apply(n: nat, log: seq<bool>, s: State, step: Step): State
    requires Enabled(n, log, s, step)
  {
    match step
    case Receive => s.(waiting := Some(s.pos), pos := s.pos + 1)
    case Skip(ok) => Commit(s, s.pos, ok).(pos := s.pos + 1)
    case Begin => s.(inFlight := s.inFlight[s.waiting.value := Grading], waiting := None, free := s.free - 1)
    case Attempt(m) => s.(inFlight := s.inFlight[m := Attempted], attempts := s.attempts + multiset{m})
    case Ack(m, ok) => Commit(s, m, ok).(inFlight := s.inFlight[m := Settled])
    case Release(m) => s.(inFlight := s.inFlight - {m}, free := s.free + 1)
    case Interrupt => s.(mode := Draining)
    case Exit => s.(mode := Exited)
    case Restart => State(s.committed, s.committed, s.committed, None, map[], n, {}, 0, s.attempts,
                          s.restarts + 1, Running)
  }

  predicate Valid(n: nat, log: seq<bool>, s: State, steps: seq<Step>)
    decreases |steps|
  {
    steps == [] || (Enabled(n, log, s, steps[0]) && Valid(n, log, Apply(n, log, s, steps[0]), steps[1..]))
  }

  function Exec(n: nat, log: seq<bool>, s: State, steps: seq<Step>): State
    requires Valid(n, log, s, steps)
    decreases |steps|
  {
    if steps == [] then s else Exec(n, log, Apply(n, log, s, steps[0]), steps[1..])
  }

  lemma {:induction false} ExecConcat(n: nat, log: seq<bool>, s: State, a: seq<Step>, b: seq<Step>)
    requires Valid(n, log, s, a)
    ensures Valid(n, log, s, a + b) <==> Valid(n, log, Exec(n, log, s, a), b)
    ensures Valid(n, log, s, a + b) ==> Exec(n, log, s, a + b) == Exec(n, log, Exec(n, log, s, a), b)
    decreases |a|
  {
    if a == [] {
      assert a + b == b;
    } else {
      assert (a + b)[1..] == a[1..] + b;
      ExecConcat(n, log, Apply(n, log, s, a[0]), a[1..], b);
    }
  }

  // ---- Invariants ----

  /** Received by this process, and neither waiting nor still being graded. */
  predicate Past(s: State, m: nat) {
    s.start <= m < s.pos && s.waiting != Some(m) && !(m in s.inFlight && s.inFlight[m].Grading?)
  }

  ghost function InFlightBelow(s: State, k: nat): set<nat> {
    set m | m in s.inFlight.Keys && m < k
  }

  /** Parseable messages below `k` for which no result was ever attempted. */
  ghost function Unattempted(log: seq<bool>, attempts: multiset<nat>, k: nat): set<nat>
    requires k <= |log|
  {
    set m | 0 <= m < k && log[m] && m !in attempts
  }

  ghost predicate Places(log: seq<bool>, s: State) {
    && s.start <= s.committed <= s.pos <= |log|
    && (s.waiting.Some? ==> s.mode.Running? && s.pos > 0 && s.waiting.value == s.pos - 1 && s.start < s.pos
                            && log[s.pos - 1] && s.committed < s.pos && s.pos - 1 !in s.inFlight)
    && (forall m: nat :: m in s.inFlight ==> s.start <= m < s.pos && log[m])
  }

  /** Every permit is free or held by a task. */
  ghost predicate Permits(n: nat, s: State) {
    s.free + |s.inFlight.Keys| == n
  }

  ghost predicate Shape(n: nat, log: seq<bool>, s: State) {
    Places(log, s) && Permits(n, s)
  }

  ghost predicate AllAttempted(log: seq<bool>, s: State)
    requires s.pos <= |log|
  {
    forall m: nat :: Past(s, m) && log[m] ==> m in s.attempts
  }

  ghost predicate AllAcked(s: State) {
    forall m: nat :: s.start <= m < s.pos && s.waiting != Some(m) && (m in s.inFlight ==> s.inFlight[m].Settled?) ==>
                       m in s.acked
  }

  /** A process attempts a message at most once. */
  ghost predicate FewAttempts(s: State) {
    forall m: nat :: s.attempts[m] <= s.restarts + (if Past(s, m) then 1 else 0)
  }

  ghost predicate Accounted(log: seq<bool>, s: State)
    requires s.pos <= |log|
  {
    && AllAttempted(log, s) && AllAcked(s) && FewAttempts(s)
    && (s.start < s.committed ==> Past(s, s.committed - 1))
  }

  /** Behind a parseable message that has begun, at most `n - 1` earlier ones are in flight. */
  ghost predicate Crowded(n: nat, log: seq<bool>, s: State)
    requires s.pos <= |log|
  {
    forall k: nat :: s.start <= k < s.pos && log[k] && s.waiting != Some(k) ==> |InFlightBelow(s, k)| <= n - 1
  }

  ghost predicate Inv(n: nat, log: seq<bool>, s: State) {
    Shape(n, log, s) && Accounted(log, s) && Crowded(n, log, s)
  }

  lemma {:induction false} SubsetCard<T>(a: set<T>, b: set<T>)
    requires a <= b
    ensures |a| <= |b|
    decreases |a|
  {
    if a != {} {
      var x :| x in a;
      SubsetCard(a - {x}, b - {x});
    }
  }

  lemma StepPlaces(n: nat, log: seq<bool>, s: State, step: Step)
    requires Places(log, s) && Enabled(n, log, s, step)
    requires s.start < s.committed ==> Past(s, s.committed - 1)
    ensures Places(log, Apply(n, log, s, step))
  {
  }

  lemma StepPermits(n: nat, log: seq<bool>, s: State, step: Step)
    requires Shape(n, log, s) && Enabled(n, log, s, step)
    ensures Permits(n, Apply(n, log, s, step))
  {
    var held, held' := s.inFlight.Keys, Apply(n, log, s, step).inFlight.Keys;
    match step
    case Begin => assert held' == held + {s.waiting.value} && s.waiting.value !in held;
    case Release(m) => assert held' == held - {m};
    case Restart =>
    case _ => assert held' == held;
  }

  lemma StepShape(n: nat, log: seq<bool>, s: State, step: Step)
    requires Shape(n, log, s) && Accounted(log, s) && Enabled(n, log, s, step)
    ensures Shape(n, log, Apply(n, log, s, step))
  {
    StepPlaces(n, log, s, step);
    StepPermits(n, log, s, step);
  }

  lemma StepAttempted(n: nat, log: seq<bool>, s: State, step: Step)
    requires Shape(n, log, s) && Accounted(log, s) && Enabled(n, log, s, step)
    ensures var t := Apply(n, log, s, step); t.pos <= |log| && AllAttempted(log, t)
  {
  }

  lemma StepAcked(n: nat, log: seq<bool>, s: State, step: Step)
    requires Shape(n, log, s) && Accounted(log, s) && Enabled(n, log, s, step)
    ensures AllAcked(Apply(n, log, s, step))
  {
  }

  lemma StepFewAttempts(n: nat, log: seq<bool>, s: State, step: Step)
    requires Shape(n, log, s) && Accounted(log, s) && Enabled(n, log, s, step)
    ensures FewAttempts(Apply(n, log, s, step))
  {
  }

  lemma StepCommitted(n: nat, log: seq<bool>, s: State, step: Step)
    requires Shape(n, log, s) && Accounted(log, s) && Enabled(n, log, s, step)
    ensures var t := Apply(n, log, s, step); t.start < t.committed ==> Past(t, t.committed - 1)
  {
  }

  lemma StepAccounted(n: nat, log: seq<bool>, s: State, step: Step)
    requires Shape(n, log, s) && Accounted(log, s) && Enabled(n, log, s, step)
    ensures var t := Apply(n, log, s, step); t.pos <= |log| && Accounted(log, t)
  {
    StepAttempted(n, log, s, step);
    StepAcked(n, log, s, step);
    StepFewAttempts(n, log, s, step);
    StepCommitted(n, log, s, step);
    StepPlaces(n, log, s, step);
  }

  lemma StepHeld(n: nat, log: seq<bool>, s: State, step: Step)
    requires Places(log, s) && Enabled(n, log, s, step)
    ensures var t := Apply(n, log, s, step);
            t.inFlight.Keys <= if step.Begin? then s.inFlight.Keys + {s.pos - 1} else s.inFlight.Keys
  {
  }

  /** A parseable message of this process that has begun was received before, unless it begins now. */
  lemma StepReceived(n: nat, log: seq<bool>, s: State, step: Step, k: nat)
    requires Places(log, s) && Enabled(n, log, s, step)
    requires var t := Apply(n, log, s, step); t.start <= k < t.pos <= |log| && log[k] && t.waiting != Some(k)
    ensures s.start <= k < s.pos && (s.waiting == Some(k) ==> step.Begin?)
  {
  }

  lemma StepCrowded(n: nat, log: seq<bool>, s: State, step: Step)
    requires Shape(n, log, s) && Accounted(log, s) && Crowded(n, log, s) && Enabled(n, log, s, step)
    ensures var t := Apply(n, log, s, step); t.pos <= |log| && Crowded(n, log, t)
  {
    StepShape(n, log, s, step);
    StepHeld(n, log, s, step);
    var t := Apply(n, log, s, step);
    forall k: nat | t.start <= k < t.pos && log[k] && t.waiting != Some(k)
      ensures |InFlightBelow(t, k)| <= n - 1
    {
      StepReceived(n, log, s, step, k);
      if s.waiting == Some(k) {
        assert k in t.inFlight.Keys;
        SubsetCard(InFlightBelow(t, k), t.inFlight.Keys - {k});
      } else {
        SubsetCard(InFlightBelow(t, k), InFlightBelow(s, k));
      }
    }
  }

  lemma StepInv(n: nat, log: seq<bool>, s: State, step: Step)
    requires Inv(n, log, s) && Enabled(n, log, s, step)
    ensures Inv(n, log, Apply(n, log, s, step))
    ensures s.start <= Apply(n, log, s, step).start
    ensures s.attempts <= Apply(n, log, s, step).attempts
  {
    StepShape(n, log, s, step);
    StepAccounted(n, log, s, step);
    StepCrowded(n, log, s, step);
  }

  /** Every state of every run: permits are conserved, every received message is accounted for, and the
      offset a restart resumes from never goes back. */
  lemma {:induction false} RunInv(n: nat, log: seq<bool>, s: State, steps: seq<Step>)
    requires Inv(n, log, s) && Valid(n, log, s, steps)
    ensures Inv(n, log, Exec(n, log, s, steps))
    ensures s.start <= Exec(n, log, s, steps).start
    ensures s.attempts <= Exec(n, log, s, steps).attempts
    decreases |steps|
  {
    if steps != [] {
      StepInv(n, log, s, steps[0]);
      RunInv(n, log, Apply(n, log, s, steps[0]), steps[1..]);
    }
  }
}
