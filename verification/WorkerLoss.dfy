/** What the worker protocol can lose, exactly: bounds over every run, runs that reach them, and when
    every committed message has had its result attempted. */
module WorkerLoss {
  import opened Wrappers
  import opened Worker

  ghost predicate Reached(n: nat, log: seq<bool>, s: State) {
    exists steps :: Valid(n, log, Initial(n), steps) && s == Exec(n, log, Initial(n), steps)
  }

  lemma ReachedInv(n: nat, log: seq<bool>, s: State)
    requires Reached(n, log, s)
    ensures Inv(n, log, s)
  {
    var steps :| Valid(n, log, Initial(n), steps) && s == Exec(n, log, Initial(n), steps);
    RunInv(n, log, Initial(n), steps);
  }

  /** What one process may leave behind: the parseable messages it received below the committed offset
      whose result was not attempted. */
  ghost function Window(log: seq<bool>, s: State): set<nat>
    requires s.committed <= |log|
  {
    set m | s.start <= m < s.committed && log[m] && m !in s.attempts
  }

  /** The most a single process may lose. */
  function Slack(n: nat, last: bool): nat {
    if last && n > 0 then n - 1 else n
  }

  lemma WindowBound(n: nat, log: seq<bool>, s: State)
    requires Inv(n, log, s)
    ensures Window(log, s) <= s.inFlight.Keys
    ensures |Window(log, s)| <= if s.start < s.committed then Slack(n, log[s.committed - 1]) else 0
  {
    var w := Window(log, s);
    forall m | m in w ensures m in s.inFlight.Keys {
      assert !Past(s, m);
    }
    SubsetCard(w, s.inFlight.Keys);
    if s.start < s.committed && log[s.committed - 1] {
      assert Past(s, s.committed - 1);
      SubsetCard(w, InFlightBelow(s, s.committed - 1));
    }
  }

  /** Bounded loss, for any concurrency: in every reachable state each message received since the last
      restart that lies below the committed offset without a result attempt is in flight. There are at
      most `n` of them, and at most `n - 1` when the message last committed parses. */
  lemma BoundedLoss(n: nat, log: seq<bool>, s: State)
    requires Reached(n, log, s)
    ensures s.committed <= |log| && Window(log, s) <= s.inFlight.Keys
    ensures |Window(log, s)| <= if s.start < s.committed then Slack(n, log[s.committed - 1]) else 0
  {
    ReachedInv(n, log, s);
    WindowBound(n, log, s);
  }

  // ---- Loss over a whole run ----

  predicate AllParse(log: seq<bool>) {
    forall i :: 0 <= i < |log| ==> log[i]
  }

  function PerProcess(n: nat, log: seq<bool>): nat {
    if AllParse(log) then Slack(n, true) else n
  }

  ghost predicate LossBounded(n: nat, log: seq<bool>, s: State) {
    s.start <= |log| && |Unattempted(log, s.attempts, s.start)| <= s.restarts * PerProcess(n, log)
  }

  lemma SplitAt(log: seq<bool>, s: State)
    requires s.start <= s.committed <= |log|
    ensures |Unattempted(log, s.attempts, s.committed)|
            == |Unattempted(log, s.attempts, s.start)| + |Window(log, s)|
  {
    var before := Unattempted(log, s.attempts, s.start);
    assert Unattempted(log, s.attempts, s.committed) == before + Window(log, s);
  }

  lemma UnattemptedSplit(n: nat, log: seq<bool>, s: State)
    requires Inv(n, log, s) && LossBounded(n, log, s)
    ensures |Unattempted(log, s.attempts, s.committed)| <= (s.restarts + 1) * PerProcess(n, log)
  {
    var p := PerProcess(n, log);
    WindowBound(n, log, s);
    SplitAt(log, s);
    OneMore(s.restarts, p);
  }

  lemma OneMore(r: nat, p: nat)
    ensures (r + 1) * p == r * p + p
  {
  }

  lemma FewerUnattempted(log: seq<bool>, a: multiset<nat>, b: multiset<nat>, k: nat)
    requires k <= |log| && a <= b
    ensures |Unattempted(log, b, k)| <= |Unattempted(log, a, k)|
  {
    SubsetCard(Unattempted(log, b, k), Unattempted(log, a, k));
  }

  lemma StepMeans(n: nat, log: seq<bool>, s: State, step: Step)
    requires Enabled(n, log, s, step) && !step.Restart?
    ensures var t := Apply(n, log, s, step);
            t.start == s.start && t.restarts == s.restarts && s.attempts <= t.attempts
  {
  }

  lemma StepLossBounded(n: nat, log: seq<bool>, s: State, step: Step)
    requires Inv(n, log, s) && LossBounded(n, log, s) && Enabled(n, log, s, step)
    ensures LossBounded(n, log, Apply(n, log, s, step))
  {
    var t := Apply(n, log, s, step);
    if step.Restart? {
      UnattemptedSplit(n, log, s);
    } else {
      StepMeans(n, log, s, step);
      FewerUnattempted(log, s.attempts, t.attempts, s.start);
    }
  }

  lemma {:induction false} RunLossBounded(n: nat, log: seq<bool>, s: State, steps: seq<Step>)
    requires Inv(n, log, s) && LossBounded(n, log, s) && Valid(n, log, s, steps)
    ensures LossBounded(n, log, Exec(n, log, s, steps))
    decreases |steps|
  {
    if steps != [] {
      StepInv(n, log, s, steps[0]);
      StepLossBounded(n, log, s, steps[0]);
      RunLossBounded(n, log, Apply(n, log, s, steps[0]), steps[1..]);
    }
  }

  /** Over every run with any number of restarts, the parseable messages below the committed offset that
      never had a result attempted number at most `n` per process, `n - 1` when every payload parses; and
      a message is attempted at most once per process. */
  lemma TotalLoss(n: nat, log: seq<bool>, s: State)
    requires Reached(n, log, s)
    ensures s.committed <= |log|
    ensures |Unattempted(log, s.attempts, s.committed)| <= (s.restarts + 1) * PerProcess(n, log)
    ensures forall m: nat :: s.attempts[m] <= s.restarts + 1
  {
    var steps :| Valid(n, log, Initial(n), steps) && s == Exec(n, log, Initial(n), steps);
    ReachedInv(n, log, s);
    RunLossBounded(n, log, Initial(n), steps);
    UnattemptedSplit(n, log, s);
  }

  /** What a restart left behind is never attempted again. */
  lemma {:induction false} LostForGood(n: nat, log: seq<bool>, s: State, steps: seq<Step>, m: nat)
    requires Inv(n, log, s) && Valid(n, log, s, steps) && m < s.start && m !in s.attempts
    ensures m !in Exec(n, log, s, steps).attempts && m < Exec(n, log, s, steps).start
    decreases |steps|
  {
    if steps != [] {
      StepInv(n, log, s, steps[0]);
      LostForGood(n, log, Apply(n, log, s, steps[0]), steps[1..], m);
    }
  }

  // ---- Runs that reach the bounds ----

  /** Between tasks, everything received also committed. */
  ghost predicate Idle(n: nat, s: State) {
    && s.mode.Running? && s.waiting.None? && s.inFlight == map[] && s.free == n && s.pos == s.committed
    && (forall m: nat :: m in s.attempts ==> m < s.pos)
  }

  lemma ReachedStep(n: nat, log: seq<bool>, s: State, step: Step)
    requires Reached(n, log, s) && Enabled(n, log, s, step)
    ensures Reached(n, log, Apply(n, log, s, step))
  {
    var steps :| Valid(n, log, Initial(n), steps) && s == Exec(n, log, Initial(n), steps);
    var t := Apply(n, log, s, step);
    ExecConcat(n, log, Initial(n), steps, [step]);
    assert [step][1..] == [] && Exec(n, log, s, [step]) == t;
    assert t == Exec(n, log, Initial(n), steps + [step]);
  }

  /** Taking the next message to its permit. */
  lemma TakeOne(n: nat, log: seq<bool>, s: State) returns (t: State)
    requires Reached(n, log, s) && s.mode.Running? && s.waiting.None? && s.free > 0
    requires s.pos < |log| && log[s.pos]
    ensures Reached(n, log, t)
    ensures t == s.(pos := s.pos + 1, inFlight := s.inFlight[s.pos := Grading], free := s.free - 1)
  {
    ReachedStep(n, log, s, Receive);
    var s1 := Apply(n, log, s, Receive);
    ReachedStep(n, log, s1, Begin);
    t := Apply(n, log, s1, Begin);
  }

  /** Taking a graded message to its stored commit. */
  lemma CommitOne(n: nat, log: seq<bool>, s: State, m: nat) returns (t: State)
    requires Reached(n, log, s) && m in s.inFlight && s.inFlight[m].Grading?
    ensures Reached(n, log, t)
    ensures t == s.(inFlight := s.inFlight[m := Settled], attempts := s.attempts + multiset{m}, committed := m + 1,
                    acked := s.acked + {m})
  {
    ReachedStep(n, log, s, Attempt(m));
    var s1 := Apply(n, log, s, Attempt(m));
    ReachedStep(n, log, s1, Ack(m, true));
    t := Apply(n, log, s1, Ack(m, true));
    assert t.inFlight == s.inFlight[m := Settled];
  }

  /** One message served from beginning to end with nothing else going on. */
  lemma ServeOne(n: nat, log: seq<bool>, s: State) returns (t: State)
    requires Reached(n, log, s) && Idle(n, s) && n > 0 && s.pos < |log|
    ensures Reached(n, log, t) && Idle(n, t) && t.pos == s.pos + 1
  {
    if log[s.pos] {
      var s1 := TakeOne(n, log, s);
      var s2 := CommitOne(n, log, s1, s.pos);
      ReachedStep(n, log, s2, Release(s.pos));
      t := Apply(n, log, s2, Release(s.pos));
      assert t.inFlight == map[];
    } else {
      ReachedStep(n, log, s, Skip(true));
      t := Apply(n, log, s, Skip(true));
    }
  }

  lemma ReachedInitial(n: nat, log: seq<bool>)
    ensures Reached(n, log, Initial(n))
  {
    assert Valid(n, log, Initial(n), []) && Exec(n, log, Initial(n), []) == Initial(n);
  }

  lemma {:induction false} ServeUpTo(n: nat, log: seq<bool>, k: nat) returns (s: State)
    requires n > 0 && k <= |log|
    ensures Reached(n, log, s) && Idle(n, s) && s.pos == k
    decreases k
  {
    if k == 0 {
      s := Initial(n);
      ReachedInitial(n, log);
    } else {
      s := ServeUpTo(n, log, k - 1);
      s := ServeOne(n, log, s);
    }
  }

  // ---- What can happen next ----

  lemma {:induction false} ReachedRun(n: nat, log: seq<bool>, s: State, steps: seq<Step>)
    requires Reached(n, log, s) && Valid(n, log, s, steps)
    ensures Reached(n, log, Exec(n, log, s, steps))
    decreases |steps|
  {
    if steps != [] {
      ReachedStep(n, log, s, steps[0]);
      ReachedRun(n, log, Apply(n, log, s, steps[0]), steps[1..]);
    }
  }

  /** While it runs and no message waits for a permit, the worker takes the next message, however many tasks it
      has: one that parses waits, one that does not is passed over and its commit may or may not arrive. */
  lemma TakesNext(n: nat, log: seq<bool>, s: State)
    requires Reached(n, log, s) && s.mode.Running? && s.waiting.None? && s.pos < |log|
    ensures log[s.pos] ==> Reached(n, log, s.(waiting := Some(s.pos), pos := s.pos + 1))
    ensures !log[s.pos] ==>
              && Reached(n, log, s.(pos := s.pos + 1, committed := s.pos + 1, acked := s.acked + {s.pos}))
              && Reached(n, log, s.(pos := s.pos + 1, lostCommits := s.lostCommits + 1, acked := s.acked + {s.pos}))
  {
    if log[s.pos] {
      ReachedStep(n, log, s, Receive);
    } else {
      ReachedStep(n, log, s, Skip(true));
      ReachedStep(n, log, s, Skip(false));
    }
  }

  /** Any task in flight may be the next to finish, whatever the others and the worker are doing; its commit
      stores its own offset, or is lost. */
  lemma FinishesNext(n: nat, log: seq<bool>, s: State, m: nat, ok: bool) returns (t: State)
    requires Reached(n, log, s) && m in s.inFlight && s.inFlight[m].Grading?
    ensures Reached(n, log, t)
    ensures t == s.(inFlight := s.inFlight - {m}, free := s.free + 1, attempts := s.attempts + multiset{m},
                    acked := s.acked + {m}, committed := if ok then m + 1 else s.committed,
                    lostCommits := if ok then s.lostCommits else s.lostCommits + 1)
  {
    ReachedStep(n, log, s, Attempt(m));
    var s1 := Apply(n, log, s, Attempt(m));
    ReachedStep(n, log, s1, Ack(m, ok));
    var s2 := Apply(n, log, s1, Ack(m, ok));
    ReachedStep(n, log, s2, Release(m));
    t := Apply(n, log, s2, Release(m));
    assert t.inFlight == s.inFlight - {m};
  }

  /** The process may die in any state, and the next one resumes at the stored offset with nothing else left. */
  lemma CrashesAnywhere(n: nat, log: seq<bool>, s: State)
    requires Reached(n, log, s)
    ensures Reached(n, log, State(s.committed, s.committed, s.committed, None, map[], n, {}, 0, s.attempts,
                                  s.restarts + 1, Running))
  {
    ReachedStep(n, log, s, Restart);
  }

  /** The stored offset can go back: with two permits the later of two messages commits first, and then the
      earlier one. After a crash the later one is graded again. */
  lemma CommitGoesBack(n: nat, log: seq<bool>) returns (s: State, t: State, u: State)
    requires n > 1 && |log| > 1 && log[0] && log[1]
    ensures Reached(n, log, s) && Reached(n, log, t) && s.committed == 2 && t.committed == 1
    ensures Reached(n, log, u) && u.restarts == 1 && u.attempts[1] == 2
  {
    ReachedInitial(n, log);
    s := TakeOne(n, log, Initial(n));
    s := TakeOne(n, log, s);
    s := FinishesNext(n, log, s, 1, true);
    t := FinishesNext(n, log, s, 0, true);
    CrashesAnywhere(n, log, t);
    u := Apply(n, log, t, Restart);
    u := TakeOne(n, log, u);
    u := FinishesNext(n, log, u, 1, true);
  }

  // ---- At least once ----

  /** Every parseable message below the committed offset has had a result attempt, in every state the
      worker can be in. */
  ghost predicate AtLeastOnce(n: nat, log: seq<bool>) {
    forall s :: Reached(n, log, s) ==> s.committed <= |log| && Unattempted(log, s.attempts, s.committed) == {}
  }

  /** No message follows a parseable one, except parseable ones when there is a single permit. */
  predicate InOrder(n: nat, log: seq<bool>) {
    n == 0 || forall i :: 0 <= i && i + 1 < |log| && log[i] ==> n == 1 && log[i + 1]
  }

  lemma {:induction false} ParsesOn(n: nat, log: seq<bool>, i: nat, j: nat)
    requires InOrder(n, log) && n > 0 && i <= j < |log| && log[i]
    ensures log[j]
    decreases j - i
  {
    if i < j { ParsesOn(n, log, i + 1, j); }
  }

  lemma NothingInWindow(n: nat, log: seq<bool>, s: State)
    requires Inv(n, log, s) && InOrder(n, log)
    ensures Window(log, s) == {}
  {
    WindowBound(n, log, s);
    forall m | m in Window(log, s) ensures false {
      assert m in s.inFlight.Keys;
      SubsetCard({m}, s.inFlight.Keys);
      SubsetCard({m}, Window(log, s));
      assert Past(s, s.committed - 1);
      ParsesOn(n, log, m, s.committed - 1);
    }
  }

  lemma {:induction false} RunLosesNothing(n: nat, log: seq<bool>, s: State, steps: seq<Step>)
    requires Inv(n, log, s) && InOrder(n, log) && Valid(n, log, s, steps)
    requires Unattempted(log, s.attempts, s.start) == {}
    ensures var t := Exec(n, log, s, steps);
            t.start <= |log| && Unattempted(log, t.attempts, t.start) == {}
    decreases |steps|
  {
    if steps != [] {
      var t := Apply(n, log, s, steps[0]);
      StepInv(n, log, s, steps[0]);
      NothingInWindow(n, log, s);
      assert Unattempted(log, s.attempts, s.committed) == Unattempted(log, s.attempts, s.start) + Window(log, s);
      assert Unattempted(log, t.attempts, t.start) == {};
      RunLosesNothing(n, log, t, steps[1..]);
    }
  }

  /** Behind a parseable message in flight the next one is committed first. */
  lemma Overtaken(n: nat, log: seq<bool>, i: nat) returns (s: State)
    requires n > 0 && i + 1 < |log| && log[i] && (n > 1 || !log[i + 1])
    ensures Reached(n, log, s) && s.committed <= |log| && i in Unattempted(log, s.attempts, s.committed)
  {
    s := ServeUpTo(n, log, i);
    s := TakeOne(n, log, s);
    if log[i + 1] {
      s := TakeOne(n, log, s);
      s := CommitOne(n, log, s, i + 1);
    } else {
      ReachedStep(n, log, s, Skip(true));
      s := Apply(n, log, s, Skip(true));
    }
  }

  /** The replay promise, exactly: whatever crashes happen, no parseable message is ever committed
      without a result attempt if and only if each parseable message is the last one, or is followed by
      a parseable one and there is a single permit. */
  lemma AtLeastOnceIff(n: nat, log: seq<bool>)
    ensures AtLeastOnce(n, log) <==> InOrder(n, log)
  {
    if InOrder(n, log) {
      forall s | Reached(n, log, s)
        ensures s.committed <= |log| && Unattempted(log, s.attempts, s.committed) == {}
      {
        var steps :| Valid(n, log, Initial(n), steps) && s == Exec(n, log, Initial(n), steps);
        ReachedInv(n, log, s);
        RunLosesNothing(n, log, Initial(n), steps);
        NothingInWindow(n, log, s);
        assert Unattempted(log, s.attempts, s.committed) == Unattempted(log, s.attempts, s.start) + Window(log, s);
      }
    } else {
      var i :| 0 <= i && i + 1 < |log| && log[i] && !(n == 1 && log[i + 1]);
      var s := Overtaken(n, log, i);
      assert Unattempted(log, s.attempts, s.committed) != {};
    }
  }

  // ---- The bound is reached ----

  function Range(a: nat, k: nat): set<nat> {
    if k == 0 then {} else Range(a, k - 1) + {a + k - 1}
  }

  lemma {:induction false} RangeIs(a: nat, k: nat)
    ensures |Range(a, k)| == k && forall m: nat :: m in Range(a, k) <==> a <= m < a + k
    decreases k
  {
    if k > 0 { RangeIs(a, k - 1); }
  }

  lemma {:induction false} Fill(n: nat, log: seq<bool>, s: State, k: nat) returns (t: State)
    requires Reached(n, log, s) && Idle(n, s) && k <= n && s.pos + k <= |log|
    requires forall j :: s.pos <= j < s.pos + k ==> log[j]
    ensures Reached(n, log, t)
    ensures t == s.(pos := s.pos + k, free := n - k, inFlight := map m | m in Range(s.pos, k) :: Grading)
    decreases k
  {
    if k == 0 {
      t := s;
      assert (map m | m in Range(s.pos, 0) :: Grading) == map[];
    } else {
      var u := Fill(n, log, s, k - 1);
      t := TakeOne(n, log, u);
      assert t.inFlight == map m | m in Range(s.pos, k) :: Grading;
    }
  }

  lemma LeftAt(n: nat, log: seq<bool>, attempts: multiset<nat>, p: nat, m: nat)
    requires n > 0 && p + n <= |log| && AllParse(log) && (m in attempts ==> m < p)
    ensures m in Unattempted(log, attempts + multiset{p + n - 1}, p + n)
            <==> m in Unattempted(log, attempts, p) || p <= m < p + n - 1
  {
    assert m in attempts + multiset{p + n - 1} <==> m in attempts || m == p + n - 1;
  }

  lemma DisjointCard(a: set<nat>, b: set<nat>, c: set<nat>)
    requires a !! b && forall m: nat :: m in c <==> m in a || m in b
    ensures |c| == |a| + |b|
  {
    assert c == a + b;
  }

  lemma LeftBehind(n: nat, log: seq<bool>, attempts: multiset<nat>, p: nat)
    requires n > 0 && p + n <= |log| && AllParse(log) && forall m: nat :: m in attempts ==> m < p
    ensures |Unattempted(log, attempts + multiset{p + n - 1}, p + n)| == |Unattempted(log, attempts, p)| + n - 1
  {
    var left, before := Range(p, n - 1), Unattempted(log, attempts, p);
    var after := Unattempted(log, attempts + multiset{p + n - 1}, p + n);
    RangeIs(p, n - 1);
    forall m: nat ensures m in after <==> m in before || m in left {
      LeftAt(n, log, attempts, p, m);
    }
    DisjointCard(before, left, after);
  }

  /** Every permit taken, and only the last message of them attempted and committed. */
  lemma Burst(n: nat, log: seq<bool>, s: State) returns (t: State)
    requires Reached(n, log, s) && Idle(n, s) && n > 0 && s.pos + n <= |log| && AllParse(log)
    ensures Reached(n, log, t) && t.committed == s.pos + n && t.restarts == s.restarts && t.mode == s.mode
    ensures forall m: nat :: m in t.attempts ==> m < t.committed
    ensures |Unattempted(log, t.attempts, t.committed)|
            == |Unattempted(log, s.attempts, s.pos)| + n - 1
  {
    RangeIs(s.pos, n);
    t := Fill(n, log, s, n);
    t := CommitOne(n, log, t, s.pos + n - 1);
    LeftBehind(n, log, s.attempts, s.pos);
  }

  /** The bound of TotalLoss is exact over parseable messages: for every concurrency and every number of
      restarts there is a run that leaves that many below the committed offset unattempted. */
  lemma {:induction false} LossIsReached(n: nat, r: nat, log: seq<bool>) returns (s: State)
    requires n > 0 && AllParse(log) && |log| == (r + 1) * n
    ensures Reached(n, log, s) && s.restarts == r && s.committed <= |log|
    ensures |Unattempted(log, s.attempts, s.committed)| == (r + 1) * PerProcess(n, log)
  {
    s := BurstsFrom(n, log, r);
  }

  lemma {:induction false} BurstsFrom(n: nat, log: seq<bool>, r: nat) returns (s: State)
    requires n > 0 && AllParse(log) && |log| >= (r + 1) * n
    ensures Reached(n, log, s) && s.restarts == r && s.committed == (r + 1) * n && s.mode.Running?
    ensures forall m: nat :: m in s.attempts ==> m < s.committed
    ensures |Unattempted(log, s.attempts, s.committed)| == (r + 1) * (n - 1)
    decreases r
  {
    if r == 0 {
      s := Initial(n);
      ReachedInitial(n, log);
      assert Unattempted(log, s.attempts, 0) == {};
      s := Burst(n, log, s);
    } else {
      assert (r + 1) * n == r * n + n && (r + 1) * (n - 1) == r * (n - 1) + (n - 1);
      s := BurstsFrom(n, log, r - 1);
      ReachedStep(n, log, s, Restart);
      s := Apply(n, log, s, Restart);
      s := Burst(n, log, s);
    }
  }

  /** `k` times `n` parseable messages and one that does not parse. */
  function Blocks(n: nat, k: nat): seq<bool> {
    if k == 0 then [] else Blocks(n, k - 1) + seq(n, _ => true) + [false]
  }

  lemma AllLeft(n: nat, log: seq<bool>, attempts: multiset<nat>, p: nat)
    requires p + n < |log| && !log[p + n] && forall m: nat :: m in attempts ==> m < p
    requires forall j :: p <= j < p + n ==> log[j]
    ensures |Unattempted(log, attempts, p + n + 1)| == |Unattempted(log, attempts, p)| + n
  {
    RangeIs(p, n);
    DisjointCard(Unattempted(log, attempts, p), Range(p, n), Unattempted(log, attempts, p + n + 1));
  }

  /** Every permit taken, and the message behind them skipped and committed. */
  lemma SkipBurst(n: nat, log: seq<bool>, s: State) returns (t: State)
    requires Reached(n, log, s) && Idle(n, s) && s.pos + n < |log| && !log[s.pos + n]
    requires forall j :: s.pos <= j < s.pos + n ==> log[j]
    ensures Reached(n, log, t) && t.committed == s.pos + n + 1 && t.restarts == s.restarts && t.mode == s.mode
    ensures t.attempts == s.attempts
    ensures |Unattempted(log, t.attempts, t.committed)| == |Unattempted(log, s.attempts, s.pos)| + n
  {
    t := Fill(n, log, s, n);
    ReachedStep(n, log, t, Skip(true));
    t := Apply(n, log, t, Skip(true));
    AllLeft(n, log, s.attempts, s.pos);
  }

  lemma {:induction false} SkipBurstsFrom(n: nat, log: seq<bool>, r: nat) returns (s: State)
    requires Blocks(n, r + 1) <= log
    ensures Reached(n, log, s) && s.restarts == r && s.committed == |Blocks(n, r + 1)| && s.mode.Running?
    ensures s.committed <= |log| && |Unattempted(log, s.attempts, s.committed)| == (r + 1) * n
    ensures s.attempts == multiset{}
    decreases r
  {
    var p := |Blocks(n, r)|;
    var block := seq(n, _ => true) + [false];
    assert Blocks(n, r + 1) == Blocks(n, r) + block;
    assert forall j :: 0 <= j <= n ==> log[p + j] == block[j];
    OneMore(r, n);
    if r == 0 {
      s := Initial(n);
      ReachedInitial(n, log);
      assert Unattempted(log, s.attempts, 0) == {};
    } else {
      assert Blocks(n, r) <= log;
      s := SkipBurstsFrom(n, log, r - 1);
      ReachedStep(n, log, s, Restart);
      s := Apply(n, log, s, Restart);
    }
    s := SkipBurst(n, log, s);
  }

  /** And it is exact over messages that do not all parse: the process that takes every permit and skips
      the next message loses all `n`, over and over. */
  lemma MixedLossIsReached(n: nat, r: nat) returns (s: State)
    ensures var log := Blocks(n, r + 1);
            && Reached(n, log, s) && s.restarts == r && s.committed == |log| && !AllParse(log)
            && |Unattempted(log, s.attempts, s.committed)| == (r + 1) * n == (s.restarts + 1) * PerProcess(n, log)
  {
    var log := Blocks(n, r + 1);
    s := SkipBurstsFrom(n, log, r);
    assert log[|log| - 1] == false;
  }
}
