/** Running a list of steps in order, each with a bounded retry, and failing loud. */
module Orchestrator {
  import opened Wrappers

  /** Delays in seconds. A garbled policy is refused when it is made. */
  datatype RetryPolicy = RetryPolicy(attempts: int, baseDelay: real, backoff: real, maxDelay: real)

  predicate ValidPolicy(p: RetryPolicy) {
    p.attempts >= 1 && p.baseDelay >= 0.0 && p.backoff >= 0.0 && p.maxDelay >= 0.0
  }

  datatype Step = Step(phase: string, title: string, retry: Option<RetryPolicy>)

  predicate ValidStep(s: Step) { s.retry.Some? ==> ValidPolicy(s.retry.value) }

  predicate ValidSteps(steps: seq<Step>) { forall s :: s in steps ==> ValidStep(s) }

  function Power(x: real, k: nat): real { if k == 0 then 1.0 else x * Power(x, k - 1) }

  /** The capped back-off before the given retry. */
  function DelayBefore(p: RetryPolicy, retry: nat): real
    requires retry >= 1
  {
    var d := p.baseDelay * Power(p.backoff, retry - 1);
    if d <= p.maxDelay then d else p.maxDelay
  }

  function Attempts(s: Step): (n: int)
    ensures ValidStep(s) ==> n >= 1
  {
    if s.retry.Some? then s.retry.value.attempts else 1
  }

  function MaxDelay(s: Step): real { if s.retry.Some? then s.retry.value.maxDelay else 0.0 }

  /** What a run does, in order. Each event names its step by index. */
  datatype Event =
    | Ran(step: nat, exit: int)
    | Slept(step: nat, seconds: real)
    | Recorded(step: nat, phase: string, title: string, elapsed: real, retries: nat, ok: bool)
    | Paused(step: nat)

  /** The outside world: the exit code and the duration of the n-th command run. */
  datatype World = World(exit: nat -> int, elapsed: nat -> real)

  // ----- the specification --------------------------------------------------------------

  /** The events of one step, from its `attempt`-th try, when `n` commands have run before. */
  ghost function StepLog(s: Step, w: World, i: nat, n: nat, attempt: nat): seq<Event>
    requires 1 <= attempt <= Attempts(s)
    decreases Attempts(s) - attempt
  {
    if w.exit(n) == 0 || attempt == Attempts(s) then
      [Ran(i, w.exit(n)), Recorded(i, s.phase, s.title, w.elapsed(n), attempt - 1, w.exit(n) == 0)]
    else
      [Ran(i, w.exit(n)), Slept(i, DelayBefore(s.retry.value, attempt))] + StepLog(s, w, i, n + 1, attempt + 1)
  }

  /** The last try's place in the sequence of commands. */
  ghost function LastTry(s: Step, w: World, n: nat, attempt: nat): nat
    requires 1 <= attempt <= Attempts(s)
    decreases Attempts(s) - attempt
  {
    if w.exit(n) == 0 || attempt == Attempts(s) then n else LastTry(s, w, n + 1, attempt + 1)
  }

  ghost function RunLog(steps: seq<Step>, w: World, stepMode: bool, i: nat, n: nat): seq<Event>
    requires ValidSteps(steps) && i <= |steps|
    decreases |steps| - i
  {
    if i == |steps| then []
    else
      assert steps[i] in steps;
      var last := LastTry(steps[i], w, n, 1);
      StepLog(steps[i], w, i, n, 1)
      + if w.exit(last) != 0 then []
        else (if stepMode && i + 1 < |steps| then [Paused(i)] else []) + RunLog(steps, w, stepMode, i + 1, last + 1)
  }

  // ----- the loops ----------------------------------------------------------------------

  class Orchestrator {
    const world: World
    var commands: nat
    var log: seq<Event>

    constructor (w: World)
      ensures world == w && commands == 0 && log == []
    {
      world, commands, log := w, 0, [];
    }

    /** Runs one step, retrying a non-zero exit within its policy. */
    method RunStepWithRetry(s: Step, i: nat) returns (ok: bool, elapsed: real, retries: nat)
      requires ValidStep(s)
      modifies this`commands, this`log
      ensures commands == LastTry(s, world, old(commands), 1) + 1
      ensures ok <==> world.exit(commands - 1) == 0
      ensures log + [Recorded(i, s.phase, s.title, elapsed, retries, ok)] == old(log) + StepLog(s, world, i, old(commands), 1)
    {
      var attempts, attempt := Attempts(s), 0;
      while true
        invariant 0 <= attempt < attempts
        invariant LastTry(s, world, old(commands), 1) == LastTry(s, world, commands, attempt + 1)
        invariant old(log) + StepLog(s, world, i, old(commands), 1) == log + StepLog(s, world, i, commands, attempt + 1)
        decreases attempts - attempt
      {
        attempt := attempt + 1;
        var exit := world.exit(commands);
        elapsed := world.elapsed(commands);
        commands := commands + 1;
        log := log + [Ran(i, exit)];
        if exit == 0 {
          return true, elapsed, attempt - 1;
        }
        if s.retry.Some? && attempt < attempts {
          log := log + [Slept(i, DelayBefore(s.retry.value, attempt))];
          continue;
        }
        return false, elapsed, attempt - 1;
      }
    }

    /** Runs each step in order, and reports every step it started. */
    method RunSteps(steps: seq<Step>, stepMode: bool) returns (failed: Option<nat>, completed: nat)
      requires ValidSteps(steps)
      modifies this`commands, this`log
      ensures log == old(log) + RunLog(steps, world, stepMode, 0, old(commands))
      ensures failed == None <==> completed == |steps|
      ensures failed.Some? ==> failed.value == completed && completed < |steps|
      ensures old(log) <= log && LawfulRun(steps, world, stepMode, 0, old(commands), log[|old(log)|..])
      ensures steps != [] ==> Ends(log, if failed.Some? then failed.value else |steps| - 1, failed.None?)
    {
      hide StepLog, LastTry, Attempts, LawfulRun, LawfulAt, AfterTry, Rans, Runs, Uncapped, Waits, Power, DelayBefore;
      RunIsLawful(steps, world, stepMode, 0, commands);
      completed := 0;
      for index := 0 to |steps|
        invariant completed == index
        invariant index == |steps| && steps != [] ==> Ends(log, index - 1, true)
        invariant old(log) + RunLog(steps, world, stepMode, 0, old(commands)) == log + RunLog(steps, world, stepMode, index, commands)
      {
        var s := steps[index];
        ghost var before, n := log, commands;
        var ok, elapsed, retries := RunStepWithRetry(s, index);
        log := log + [Recorded(index, s.phase, s.title, elapsed, retries, ok)];
        assert log == before + StepLog(s, world, index, n, 1);
        UnfoldRun(steps, world, stepMode, index, n);
        if !ok {
          return Some(index), completed;
        }
        completed := completed + 1;
        if stepMode && index + 1 < |steps| {
          log := log + [Paused(index)];
        }
      }
      return None, completed;
    }
  }

  lemma {:induction false} UnfoldRun(steps: seq<Step>, w: World, stepMode: bool, i: nat, n: nat)
    requires ValidSteps(steps) && i < |steps|
    ensures ValidStep(steps[i])
    ensures var last := LastTry(steps[i], w, n, 1);
            RunLog(steps, w, stepMode, i, n) == StepLog(steps[i], w, i, n, 1)
              + if w.exit(last) != 0 then []
                else (if stepMode && i + 1 < |steps| then [Paused(i)] else []) + RunLog(steps, w, stepMode, i + 1, last + 1)
  {
    hide StepLog, LastTry, Attempts;
  }

  // ----- what every run satisfies -------------------------------------------------------

  /** How many times a step ran. */
  ghost function Runs(log: seq<Event>, i: nat): nat {
    if log == [] then 0 else Runs(log[1..], i) + if log[0].Ran? && log[0].step == i then 1 else 0
  }

  ghost function Records(log: seq<Event>, i: nat): nat {
    if log == [] then 0 else Records(log[1..], i) + if log[0].Recorded? && log[0].step == i then 1 else 0
  }

  ghost function Sleep(log: seq<Event>): real {
    if log == [] then 0.0 else Sleep(log[1..]) + if log[0].Slept? then log[0].seconds else 0.0
  }

  lemma {:induction false} Sums(a: seq<Event>, b: seq<Event>, i: nat)
    ensures Runs(a + b, i) == Runs(a, i) + Runs(b, i) && Records(a + b, i) == Records(a, i) + Records(b, i)
    ensures Sleep(a + b) == Sleep(a) + Sleep(b)
  {
    if a == [] {
      assert a + b == b;
    } else {
      assert (a + b)[1..] == a[1..] + b;
      Sums(a[1..], b, i);
    }
  }

  /** Events of one step: at least one run and no more than it has attempts left, one record
      at the end telling the retries and whether the last run succeeded. */
  ghost predicate StepShape(s: Step, i: nat, attempt: nat, log: seq<Event>) {
    && |log| >= 2 && log[|log| - 1].Recorded? && log[|log| - 2].Ran?
    && (forall p :: 0 <= p < |log| ==> log[p].step == i && (log[p].Recorded? ==> p == |log| - 1))
    && (forall p :: 0 <= p < |log| - 2 && log[p].Ran? ==> log[p].exit != 0)
    && 1 <= Runs(log, i) <= Attempts(s) - attempt + 1
    && log[|log| - 1].retries == Runs(log, i) + attempt - 2
    && log[|log| - 1].ok == (log[|log| - 2].exit == 0)
    && (log[|log| - 1].ok || Runs(log, i) == Attempts(s) - attempt + 1)
    && log[|log| - 1].phase == s.phase && log[|log| - 1].title == s.title
    && (forall j :: Records(log, j) == if j == i then 1 else 0)
    && (forall j :: j != i ==> Runs(log, j) == 0)
  }

  lemma {:induction false} StepLogShape(s: Step, w: World, i: nat, n: nat, attempt: nat)
    requires ValidStep(s) && 1 <= attempt <= Attempts(s)
    ensures StepShape(s, i, attempt, StepLog(s, w, i, n, attempt))
    ensures var log := StepLog(s, w, i, n, attempt);
            |log| >= 2 && log[|log| - 1].Recorded? && log[|log| - 1].ok == (w.exit(LastTry(s, w, n, attempt)) == 0)
    decreases Attempts(s) - attempt
  {
    hide StepShape, DelayBefore, Runs, Records;
    var log := StepLog(s, w, i, n, attempt);
    if w.exit(n) == 0 || attempt == Attempts(s) {
      LastTryShape(s, i, attempt, w.exit(n), w.elapsed(n));
    } else {
      var rest := StepLog(s, w, i, n + 1, attempt + 1);
      StepLogShape(s, w, i, n + 1, attempt + 1);
      assert log == [log[0]] + ([log[1]] + rest);
      forall j ensures Runs(log, j) == Runs(rest, j) + (if j == i then 1 else 0) && Records(log, j) == Records(rest, j) {
        Cons(log[1], rest, j);
        Cons(log[0], [log[1]] + rest, j);
      }
      assert log[|log| - 1] == rest[|rest| - 1];
      assert log[2..] == rest;
      RetryShape(s, i, attempt, log, rest);
    }
  }

  lemma {:induction false} LastTryShape(s: Step, i: nat, attempt: nat, exit: int, elapsed: real)
    requires 1 <= attempt <= Attempts(s) && (exit == 0 || attempt == Attempts(s))
    ensures StepShape(s, i, attempt, [Ran(i, exit), Recorded(i, s.phase, s.title, elapsed, attempt - 1, exit == 0)])
  {
    var a, b := Ran(i, exit), Recorded(i, s.phase, s.title, elapsed, attempt - 1, exit == 0);
    assert [a, b] == [a] + ([b] + []);
    forall j ensures Runs([a, b], j) == (if j == i then 1 else 0) && Records([a, b], j) == (if j == i then 1 else 0) {
      Cons(b, [], j);
      Cons(a, [b] + [], j);
    }
  }

  /** A step sleeps at most its capped delay between any two tries. */
  lemma {:induction false} StepSleep(s: Step, w: World, i: nat, n: nat, attempt: nat)
    requires ValidStep(s) && 1 <= attempt <= Attempts(s)
    ensures 0.0 <= Sleep(StepLog(s, w, i, n, attempt)) <= (Attempts(s) - attempt) as real * MaxDelay(s)
    decreases Attempts(s) - attempt
  {
    hide DelayBefore;
    var log := StepLog(s, w, i, n, attempt);
    var k, m := Attempts(s) - attempt, MaxDelay(s);
    Scaled(k, m);
    if w.exit(n) == 0 || attempt == Attempts(s) {
      assert log == [log[0]] + ([log[1]] + []);
      Cons(log[1], [], 0);
      Cons(log[0], [log[1]] + [], 0);
    } else {
      var rest := StepLog(s, w, i, n + 1, attempt + 1);
      StepSleep(s, w, i, n + 1, attempt + 1);
      assert log == [log[0]] + ([log[1]] + rest);
      CappedDelay(s.retry.value, attempt);
      Cons(log[1], rest, 0);
      Cons(log[0], [log[1]] + rest, 0);
    }
  }

  lemma {:induction false} RetryShape(s: Step, i: nat, attempt: nat, log: seq<Event>, rest: seq<Event>)
    requires 1 <= attempt < Attempts(s) && StepShape(s, i, attempt + 1, rest)
    requires |log| == |rest| + 2 && log[2..] == rest && log[0].Ran? && log[0].exit != 0 && log[1].Slept? && log[0].step == log[1].step == i
    requires forall j :: Runs(log, j) == Runs(rest, j) + (if j == i then 1 else 0) && Records(log, j) == Records(rest, j)
    ensures StepShape(s, i, attempt, log)
  {
    forall p | 2 <= p < |log| ensures log[p] == rest[p - 2] {
      assert log[p] == log[2..][p - 2];
    }
  }

  lemma {:induction false} Cons(e: Event, rest: seq<Event>, j: nat)
    ensures Runs([e] + rest, j) == Runs(rest, j) + if e.Ran? && e.step == j then 1 else 0
    ensures Records([e] + rest, j) == Records(rest, j) + if e.Recorded? && e.step == j then 1 else 0
    ensures Sleep([e] + rest) == Sleep(rest) + if e.Slept? then e.seconds else 0.0
  {
    assert ([e] + rest)[1..] == rest;
  }

  lemma {:induction false} Scaled(k: int, m: real)
    requires m >= 0.0
    ensures k >= 0 ==> k as real * m >= 0.0
    ensures k as real * m == (k - 1) as real * m + m
  {
  }

  lemma {:induction false} CappedDelay(p: RetryPolicy, retry: nat)
    requires ValidPolicy(p) && retry >= 1
    ensures 0.0 <= DelayBefore(p, retry) <= p.maxDelay
  {
    PowerPositive(p.backoff, retry - 1);
  }

  lemma {:induction false} PowerPositive(x: real, k: nat)
    requires x >= 0.0
    ensures Power(x, k) >= 0.0
  {
    if k > 0 {
      PowerPositive(x, k - 1);
    }
  }

  ghost function SleepBound(steps: seq<Step>, i: nat): real
    requires i <= |steps|
    decreases |steps| - i
  {
    if i == |steps| then 0.0 else (Attempts(steps[i]) - 1) as real * MaxDelay(steps[i]) + SleepBound(steps, i + 1)
  }

  /** A run of the steps from `i` on. */
  ghost predicate RunShape(steps: seq<Step>, i: nat, log: seq<Event>) {
    && InOrder(steps, i, log)
    && Counted(steps, i, log)
    && (forall p :: 0 <= p < |log| && log[p].Recorded? ==> RecordTells(steps, log, p))
    && Chained(steps, i, log)
  }

  /** Events stay in step order, and nothing follows a failing record. */
  ghost predicate InOrder(steps: seq<Step>, i: nat, log: seq<Event>) {
    && (forall p :: 0 <= p < |log| ==> i <= log[p].step < |steps|)
    && (forall p, q :: 0 <= p < q < |log| ==> log[p].step <= log[q].step)
    && (forall p :: 0 <= p < |log| - 1 && log[p].Recorded? ==> log[p].ok)
  }

  /** A started step runs within its attempts and is recorded once; one never started, not at all. */
  ghost predicate Counted(steps: seq<Step>, i: nat, log: seq<Event>) {
    && (forall j :: i <= j < |steps| && Runs(log, j) > 0 ==> Runs(log, j) <= Attempts(steps[j]) && Records(log, j) == 1)
    && (forall j :: Runs(log, j) == 0 ==> Records(log, j) == 0)
  }

  /** The first step starts; each later one starts exactly when its predecessor succeeded. */
  ghost predicate Chained(steps: seq<Step>, i: nat, log: seq<Event>) {
    && (i < |steps| ==> Runs(log, i) > 0)
    && (forall j :: i < j < |steps| ==> (Runs(log, j) > 0 <==> Succeeded(log, j - 1)))
  }

  /** A record tells the retries of its step and whether the last run succeeded, and a failing
      one means the step was exhausted. */
  ghost predicate RecordTells(steps: seq<Step>, log: seq<Event>, p: nat)
    requires p < |log| && log[p].Recorded? && log[p].step < |steps|
  {
    var r, s := log[p], steps[log[p].step];
    && r.phase == s.phase && r.title == s.title
    && r.retries == Runs(log, r.step) - 1
    && (!r.ok ==> Runs(log, r.step) == Attempts(s))
    && p > 0 && log[p - 1].Ran? && log[p - 1].step == r.step && r.ok == (log[p - 1].exit == 0)
  }

  ghost predicate Succeeded(log: seq<Event>, j: nat) {
    exists p :: 0 <= p < |log| && log[p].Recorded? && log[p].step == j && log[p].ok
  }

  /** Every run, whatever the commands do: each step runs between once and its attempts, the
      next one starts exactly on success, nothing runs after an exhausted step, and each
      started step is recorded once with its retries and outcome. */
  lemma {:induction false} EveryRun(steps: seq<Step>, w: World, stepMode: bool, i: nat, n: nat)
    requires ValidSteps(steps) && i <= |steps|
    ensures RunShape(steps, i, RunLog(steps, w, stepMode, i, n))
    decreases |steps| - i
  {
    hide RunShape, StepShape, StepLog, LastTry;
    if i < |steps| {
      var s := steps[i];
      assert s in steps;
      var last := LastTry(s, w, n, 1);
      var own := StepLog(s, w, i, n, 1);
      StepLogShape(s, w, i, n, 1);
      if w.exit(last) != 0 {
        assert own + [] == own;
        OneStepShape(steps, i, own);
      } else {
        EveryRun(steps, w, stepMode, i + 1, last + 1);
        var pause := if stepMode && i + 1 < |steps| then [Paused(i)] else [];
        var rest := RunLog(steps, w, stepMode, i + 1, last + 1);
        assert own + (pause + rest) == own + pause + rest;
        MoreStepsShape(steps, i, own, pause, rest);
      }
    } else {
      NoSteps(steps);
    }
  }

  lemma {:induction false} SleepNone()
    ensures Sleep([]) == 0.0
  {
  }

  lemma {:induction false} SleepParts(own: seq<Event>, pause: seq<Event>, rest: seq<Event>)
    requires pause == [] || (|pause| == 1 && pause[0].Paused?)
    ensures Sleep(own + (pause + rest)) == Sleep(own) + Sleep(rest)
  {
    Sums(own, pause + rest, 0);
    Sums(pause, rest, 0);
    if pause != [] {
      assert pause[1..] == [];
    }
  }

  /** The total sleep of any run is at most the sum of `(attempts - 1) * max_delay`. */
  lemma {:induction false} TotalSleep(steps: seq<Step>, w: World, stepMode: bool, i: nat, n: nat)
    requires ValidSteps(steps) && i <= |steps|
    ensures 0.0 <= Sleep(RunLog(steps, w, stepMode, i, n)) <= SleepBound(steps, i)
    decreases |steps| - i
  {
    hide StepLog, LastTry, Sleep, Attempts, MaxDelay;
    if i < |steps| {
      var s := steps[i];
      assert s in steps;
      assert Attempts(s) >= 1;
      var last := LastTry(s, w, n, 1);
      var own := StepLog(s, w, i, n, 1);
      StepSleep(s, w, i, n, 1);
      SleepBoundPositive(steps, i + 1);
      var log := RunLog(steps, w, stepMode, i, n);
      if w.exit(last) != 0 {
        assert log == own;
      } else {
        TotalSleep(steps, w, stepMode, i + 1, last + 1);
        var pause := if stepMode && i + 1 < |steps| then [Paused(i)] else [];
        var rest := RunLog(steps, w, stepMode, i + 1, last + 1);
        assert log == own + (pause + rest);
        SleepParts(own, pause, rest);
      }
    } else {
      assert Sleep([]) == 0.0 by { SleepNone(); }
    }
  }

  lemma {:induction false} NoSteps(steps: seq<Step>)
    ensures RunShape(steps, |steps|, [])
  {
  }

  lemma {:induction false} SleepBoundPositive(steps: seq<Step>, i: nat)
    requires ValidSteps(steps) && i <= |steps|
    ensures SleepBound(steps, i) >= 0.0
    decreases |steps| - i
  {
    if i < |steps| {
      assert steps[i] in steps;
      SleepBoundPositive(steps, i + 1);
      assert (Attempts(steps[i]) - 1) as real * MaxDelay(steps[i]) >= 0.0;
    }
  }

  lemma {:induction false} OneStepShape(steps: seq<Step>, i: nat, own: seq<Event>)
    requires i < |steps| && StepShape(steps[i], i, 1, own) && !own[|own| - 1].ok
    ensures RunShape(steps, i, own)
  {
  }

  lemma {:induction false} MoreStepsShape(
      steps: seq<Step>, i: nat, own: seq<Event>, pause: seq<Event>, rest: seq<Event>)
    requires i < |steps| && StepShape(steps[i], i, 1, own) && |own| > 0 && own[|own| - 1].Recorded? && own[|own| - 1].ok
    requires RunShape(steps, i + 1, rest) && (pause == [] || pause == [Paused(i)])
    ensures RunShape(steps, i, own + pause + rest)
  {
    hide RecordTells, StepShape, Counted, Chained, InOrder, Runs, Records;
    var log, cut := own + pause + rest, |own| + |pause|;
    StepFacts(steps[i], i, own);
    forall j ensures Runs(log, j) == Runs(own, j) + Runs(rest, j) && Records(log, j) == Records(own, j) + Records(rest, j) {
      Sums(own + pause, rest, j);
      Sums(own, pause, j);
      NoRuns(pause, j);
    }
    StartsLater(steps, i, rest);
    MoreInOrder(steps, i, own, pause, rest);
    MoreCounted(steps, i, own, log, rest);
    MoreChained(steps, i, own, pause, rest);
    assert log[..|own|] == own && log[cut..] == rest;
    forall p | 0 <= p < |log| && log[p].Recorded? ensures RecordTells(steps, log, p) {
      if p >= cut {
        assert log[p] == rest[p - cut];
        LaterRecord(steps, i, own, log, rest, cut, p);
      } else {
        assert p < |own| && log[p] == own[p];
        OwnRecord(steps, i, own, log, rest, p);
      }
    }
  }

  lemma {:induction false} NoRuns(pause: seq<Event>, j: nat)
    requires pause == [] || (|pause| == 1 && pause[0].Paused?)
    ensures Runs(pause, j) == 0 && Records(pause, j) == 0
  {
  }

  lemma {:induction false} StartsLater(steps: seq<Step>, i: nat, rest: seq<Event>)
    requires InOrder(steps, i + 1, rest)
    ensures forall p :: 0 <= p < |rest| ==> i < rest[p].step < |steps|
    ensures Runs(rest, i) == 0 && Records(rest, i) == 0
  {
    NoEarlier(rest, i);
  }

  lemma {:induction false} MoreInOrder(steps: seq<Step>, i: nat, own: seq<Event>, pause: seq<Event>, rest: seq<Event>)
    requires i < |steps| && InOrder(steps, i + 1, rest) && (pause == [] || pause == [Paused(i)])
    requires |own| > 0 && own[|own| - 1].Recorded? && own[|own| - 1].ok
    requires forall p :: 0 <= p < |own| ==> own[p].step == i && (own[p].Recorded? ==> p == |own| - 1)
    ensures InOrder(steps, i, own + pause + rest)
  {
  }

  lemma {:induction false} MoreCounted(steps: seq<Step>, i: nat, own: seq<Event>, log: seq<Event>, rest: seq<Event>)
    requires i < |steps| && Counted(steps, i + 1, rest)
    requires forall j :: Runs(log, j) == Runs(own, j) + Runs(rest, j) && Records(log, j) == Records(own, j) + Records(rest, j)
    requires 1 <= Runs(own, i) <= Attempts(steps[i]) && Runs(rest, i) == 0 && Records(rest, i) == 0
    requires (forall j :: Records(own, j) == if j == i then 1 else 0) && forall j :: j != i ==> Runs(own, j) == 0
    ensures Counted(steps, i, log)
  {
    hide Runs, Records;
  }

  lemma {:induction false} MoreChained(steps: seq<Step>, i: nat, own: seq<Event>, pause: seq<Event>, rest: seq<Event>)
    requires i < |steps| && Chained(steps, i + 1, rest) && (pause == [] || pause == [Paused(i)])
    requires forall j :: Runs(own + pause + rest, j) == Runs(own, j) + Runs(rest, j)
    requires Runs(own, i) >= 1 && (forall j :: j != i ==> Runs(own, j) == 0) && forall p :: 0 <= p < |rest| ==> i < rest[p].step
    requires |own| > 0 && own[|own| - 1].Recorded? && own[|own| - 1].ok && forall p :: 0 <= p < |own| ==> own[p].step == i
    ensures Chained(steps, i, own + pause + rest)
  {
    hide Runs;
    var log, cut := own + pause + rest, |own| + |pause|;
    assert forall p :: 0 <= p < |own| ==> log[p] == own[p];
    assert forall p :: cut <= p < |log| ==> log[p] == rest[p - cut];
    forall j | i <= j < |steps| ensures Succeeded(log, j) <==> (j == i || Succeeded(rest, j)) {
      assert log[|own| - 1] == own[|own| - 1];
      if q :| 0 <= q < |rest| && rest[q].Recorded? && rest[q].step == j && rest[q].ok {
        assert log[q + cut] == rest[q];
      }
    }
  }

  lemma {:induction false} StepFacts(s: Step, i: nat, own: seq<Event>)
    requires StepShape(s, i, 1, own)
    ensures |own| >= 2 && own[|own| - 1].Recorded? && 1 <= Runs(own, i) <= Attempts(s)
    ensures forall p :: 0 <= p < |own| ==> own[p].step == i && (own[p].Recorded? ==> p == |own| - 1)
    ensures forall j :: Records(own, j) == if j == i then 1 else 0
    ensures forall j :: j != i ==> Runs(own, j) == 0
  {
  }

  lemma {:induction false} OwnRecord(
      steps: seq<Step>, i: nat, own: seq<Event>, log: seq<Event>, rest: seq<Event>, p: nat)
    requires i < |steps| && StepShape(steps[i], i, 1, own) && |own| <= |log| && log[..|own|] == own && p < |own|
    requires own[p].Recorded? && log[p] == own[p] && Runs(log, i) == Runs(own, i)
    ensures RecordTells(steps, log, p)
  {
    assert log[p - 1] == log[..|own|][p - 1] == own[p - 1];
  }

  lemma {:induction false} LaterRecord(
      steps: seq<Step>, i: nat, own: seq<Event>, log: seq<Event>, rest: seq<Event>, cut: nat, p: nat)
    requires cut <= p < |log| == cut + |rest| && log[cut..] == rest && log[p].Recorded? && log[p].step > i
    requires log[p].step < |steps| && RecordTells(steps, rest, p - cut)
    requires Runs(own, log[p].step) == 0 && Runs(log, log[p].step) == Runs(own, log[p].step) + Runs(rest, log[p].step)
    ensures RecordTells(steps, log, p)
  {
    assert log[p] == log[cut..][p - cut] == rest[p - cut];
    assert log[p - 1] == log[cut..][p - 1 - cut] == rest[p - 1 - cut];
  }

  lemma {:induction false} NoEarlier(rest: seq<Event>, i: nat)
    requires forall p :: 0 <= p < |rest| ==> rest[p].step > i
    ensures Runs(rest, i) == 0 && Records(rest, i) == 0
  {
    if rest != [] {
      NoEarlier(rest[1..], i);
    }
  }

  // ----- what follows each event --------------------------------------------------------

  /** How many commands ran. */
  ghost function Rans(log: seq<Event>): nat {
    if log == [] then 0 else Rans(log[..|log| - 1]) + if log[|log| - 1].Ran? then 1 else 0
  }

  /** The wait before a retry without its cap: the base delay, then each time the back-off
      factor more. */
  ghost function Uncapped(p: RetryPolicy, retry: nat): real
    requires retry >= 1
  {
    if retry == 1 then p.baseDelay else p.backoff * Uncapped(p, retry - 1)
  }

  ghost predicate Waits(p: RetryPolicy, retry: nat, seconds: real)
    requires retry >= 1
  {
    seconds == if Uncapped(p, retry) <= p.maxDelay then Uncapped(p, retry) else p.maxDelay
  }

  lemma {:induction false} DelayIff(p: RetryPolicy, retry: nat)
    requires retry >= 1
    ensures Waits(p, retry, DelayBefore(p, retry))
  {
    UncappedIs(p, retry);
  }

  lemma {:induction false} UncappedIs(p: RetryPolicy, retry: nat)
    requires retry >= 1
    ensures Uncapped(p, retry) == p.baseDelay * Power(p.backoff, retry - 1)
  {
    if retry > 1 {
      UncappedIs(p, retry - 1);
      Swap(p.backoff, p.baseDelay, Power(p.backoff, retry - 2));
    }
  }

  lemma {:induction false} Swap(a: real, b: real, c: real)
    ensures a * (b * c) == b * (a * c)
  {
  }

  /** With a back-off factor of at least one, the waits never get shorter. */
  lemma {:induction false} WaitsRise(p: RetryPolicy, retry: nat)
    requires ValidPolicy(p) && p.backoff >= 1.0 && retry >= 1
    ensures 0.0 <= DelayBefore(p, retry) <= DelayBefore(p, retry + 1)
  {
    hide Power, DelayBefore;
    UncappedPositive(p, retry);
    DelayIff(p, retry);
    DelayIff(p, retry + 1);
    AtLeast(p.backoff, Uncapped(p, retry));
  }

  lemma {:induction false} AtLeast(a: real, x: real)
    requires a >= 1.0 && x >= 0.0
    ensures a * x >= x
  {
    assert (a - 1.0) * x >= 0.0;
  }

  lemma {:induction false} UncappedPositive(p: RetryPolicy, retry: nat)
    requires ValidPolicy(p) && retry >= 1
    ensures Uncapped(p, retry) >= 0.0
  {
    if retry > 1 {
      UncappedPositive(p, retry - 1);
    }
  }

  /** The last thing that happened is the record of the step at this index. */
  ghost predicate Ends(log: seq<Event>, i: nat, ok: bool) {
    log != [] && var last := log[|log| - 1]; last.Recorded? && last.step == i && last.ok == ok
  }

  /** What a try leads to: the record of its step when it succeeded or was the last one, with
      its own duration, else a wait and the next try. */
  ghost predicate AfterTry(s: Step, w: World, i: nat, r: nat, tries: nat, next: Event) {
    if tries == 0 then false
    else if w.exit(r) == 0 || s.retry.None? || tries == s.retry.value.attempts then
      next == Recorded(i, s.phase, s.title, w.elapsed(r), tries - 1, w.exit(r) == 0)
    else next.Slept? && next.step == i && Waits(s.retry.value, tries, next.seconds)
  }

  /** One step's events from its `done + 1`-th try, when `n` commands have run before. */
  ghost predicate LawfulStep(s: Step, w: World, i: nat, n: nat, done: nat, log: seq<Event>) {
    && log != [] && log[0].Ran?
    && forall p :: 0 <= p < |log| ==> StepAt(s, w, i, n, done, log, p)
  }

  ghost predicate StepAt(s: Step, w: World, i: nat, n: nat, done: nat, log: seq<Event>, p: nat)
    requires p < |log|
  {
    match log[p]
    case Ran(j, exit) =>
      var k := Rans(log[..p]);
      j == i && exit == w.exit(n + k) && p + 1 < |log| && AfterTry(s, w, i, n + k, done + k + 1, log[p + 1])
    case Slept(j, _) => j == i && p + 1 < |log| && log[p + 1].Ran?
    case Recorded(j, _, _, _, _, _) => j == i && p + 1 == |log|
    case Paused(_) => false
  }

  lemma {:induction false} RansParts(a: seq<Event>, b: seq<Event>)
    ensures Rans(a + b) == Rans(a) + Rans(b)
    decreases |b|
  {
    if b == [] {
      assert a + b == a;
    } else {
      assert (a + b)[..|a + b| - 1] == a + b[..|b| - 1];
      RansParts(a, b[..|b| - 1]);
    }
  }

  lemma {:induction false} RansOne(e: Event)
    ensures Rans([e]) == if e.Ran? then 1 else 0
  {
    assert [e][..0] == [];
  }

  lemma {:induction false} StepIsLawful(s: Step, w: World, i: nat, n: nat, attempt: nat)
    requires ValidStep(s) && 1 <= attempt <= Attempts(s)
    ensures LawfulStep(s, w, i, n, attempt - 1, StepLog(s, w, i, n, attempt))
    ensures n + Rans(StepLog(s, w, i, n, attempt)) == LastTry(s, w, n, attempt) + 1
    decreases Attempts(s) - attempt
  {
    hide Waits, DelayBefore;
    var log := StepLog(s, w, i, n, attempt);
    if w.exit(n) == 0 || attempt == Attempts(s) {
      assert log == [log[0]] + [log[1]];
      RansOne(log[0]);
      RansOne(log[1]);
      RansParts([log[0]], [log[1]]);
      assert log[..0] == [] && log[..1] == [log[0]];
    } else {
      var rest := StepLog(s, w, i, n + 1, attempt + 1);
      StepIsLawful(s, w, i, n + 1, attempt + 1);
      DelayIff(s.retry.value, attempt);
      var head := [log[0], log[1]];
      assert log == head + rest && head == [log[0]] + [log[1]];
      RansOne(log[0]);
      RansOne(log[1]);
      RansParts([log[0]], [log[1]]);
      RansParts(head, rest);
      hide StepLog, LastTry, Attempts;
      RetryLawful(s, w, i, n, attempt, log, head, rest);
    }
  }

  lemma {:induction false} RetryLawful(
      s: Step, w: World, i: nat, n: nat, attempt: nat, log: seq<Event>, head: seq<Event>, rest: seq<Event>)
    requires attempt >= 1 && LawfulStep(s, w, i, n + 1, attempt, rest) && log == head + rest && Rans(head) == 1 && |head| == 2
    requires head[0] == Ran(i, w.exit(n)) && head[1].Slept? && head[1].step == i && AfterTry(s, w, i, n, attempt, head[1])
    ensures LawfulStep(s, w, i, n, attempt - 1, log)
  {
    hide AfterTry, Rans;
    assert log[0] == head[0] && log[1] == head[1] && log[2] == rest[0];
    RansNone(log);
    var done := attempt - 1;
    forall p | 0 <= p < |log| ensures StepAt(s, w, i, n, done, log, p) {
      if p >= 2 {
        assert StepAt(s, w, i, n + 1, attempt, rest, p - 2);
        assert log[p] == rest[p - 2] && (p + 1 < |log| ==> log[p + 1] == rest[p - 1]);
        assert log[..p] == head + rest[..p - 2];
        RansParts(head, rest[..p - 2]);
      }
    }
  }

  lemma {:induction false} RansNone(log: seq<Event>)
    ensures Rans(log[..0]) == 0
  {
  }

  /** A run's events, one after the other: a step starts the run; a try is followed as above; a
      wait by the next try; a success by the pause of step mode, and the next step, if there is
      one; a failure by nothing. */
  ghost predicate LawfulRun(steps: seq<Step>, w: World, stepMode: bool, i: nat, n: nat, log: seq<Event>) {
    && (if i < |steps| then log != [] && log[0].Ran? && log[0].step == i else log == [])
    && forall p :: 0 <= p < |log| ==> LawfulAt(steps, w, stepMode, n, log, p)
  }

  ghost predicate LawfulAt(steps: seq<Step>, w: World, stepMode: bool, n: nat, log: seq<Event>, p: nat)
    requires p < |log|
  {
    match log[p]
    case Ran(j, exit) =>
      var r := n + Rans(log[..p]);
      && j < |steps| && exit == w.exit(r) && p + 1 < |log|
      && AfterTry(steps[j], w, j, r, Runs(log[..p + 1], j), log[p + 1])
    case Slept(j, _) => p + 1 < |log| && log[p + 1].Ran? && log[p + 1].step == j
    case Recorded(j, _, _, _, _, ok) =>
      if !ok || j + 1 >= |steps| then p + 1 == |log|
      else p + 1 < |log| && if stepMode then log[p + 1] == Paused(j) else log[p + 1].Ran? && log[p + 1].step == j + 1
    case Paused(j) => p + 1 < |log| && log[p + 1].Ran? && log[p + 1].step == j + 1
  }

  /** In one step's events, its tries are the commands that ran. */
  lemma {:induction false} OwnRuns(own: seq<Event>, i: nat, j: nat)
    requires forall p :: 0 <= p < |own| ==> own[p].step == i
    ensures Runs(own, j) == if j == i then Rans(own) else 0
    decreases |own|
  {
    if own != [] {
      var init, e := own[..|own| - 1], own[|own| - 1];
      assert own == init + [e] && [e][1..] == [];
      OwnRuns(init, i, j);
      Sums(init, [e], j);
    }
  }

  /** Every run is lawful. */
  lemma {:induction false} RunIsLawful(steps: seq<Step>, w: World, stepMode: bool, i: nat, n: nat)
    requires ValidSteps(steps) && i <= |steps|
    ensures LawfulRun(steps, w, stepMode, i, n, RunLog(steps, w, stepMode, i, n))
    ensures forall p :: 0 <= p < |RunLog(steps, w, stepMode, i, n)| ==> RunLog(steps, w, stepMode, i, n)[p].step >= i
    decreases |steps| - i
  {
    hide StepLog, LastTry, LawfulAt, LawfulStep;
    if i < |steps| {
      var s := steps[i];
      assert s in steps;
      var last := LastTry(s, w, n, 1);
      var own := StepLog(s, w, i, n, 1);
      StepIsLawful(s, w, i, n, 1);
      StepLogShape(s, w, i, n, 1);
      StepFacts(s, i, own);
      if w.exit(last) != 0 {
        assert own + [] == own;
        FailureEnds(steps, w, stepMode, i, n, own);
      } else {
        RunIsLawful(steps, w, stepMode, i + 1, last + 1);
        var pause := if stepMode && i + 1 < |steps| then [Paused(i)] else [];
        var rest := RunLog(steps, w, stepMode, i + 1, last + 1);
        assert own + (pause + rest) == own + pause + rest;
        SuccessGoesOn(steps, w, stepMode, i, n, own, pause, rest);
      }
    }
  }

  lemma {:induction false} OwnAt(
      steps: seq<Step>, w: World, stepMode: bool, i: nat, n: nat, own: seq<Event>, log: seq<Event>, p: nat)
    requires i < |steps| && LawfulStep(steps[i], w, i, n, 0, own) && own <= log && p + 1 < |own|
    requires forall q :: 0 <= q < |own| ==> own[q].step == i
    ensures LawfulAt(steps, w, stepMode, n, log, p)
  {
    hide AfterTry, Rans, Runs;
    assert StepAt(steps[i], w, i, n, 0, own, p);
    assert log[p] == own[p] && log[p + 1] == own[p + 1] && log[..p] == own[..p] && log[..p + 1] == own[..p + 1];
    OwnRuns(own[..p + 1], i, i);
    assert own[..p + 1] == own[..p] + [own[p]];
    RansParts(own[..p], [own[p]]);
    RansOne(own[p]);
  }

  lemma {:induction false} FailureEnds(steps: seq<Step>, w: World, stepMode: bool, i: nat, n: nat, own: seq<Event>)
    requires i < |steps| && LawfulStep(steps[i], w, i, n, 0, own)
    requires own[|own| - 1].Recorded? && !own[|own| - 1].ok && forall q :: 0 <= q < |own| ==> own[q].step == i
    ensures LawfulRun(steps, w, stepMode, i, n, own)
  {
    hide AfterTry, Rans, Runs;
    forall p | 0 <= p < |own| ensures LawfulAt(steps, w, stepMode, n, own, p) {
      if p + 1 < |own| {
        OwnAt(steps, w, stepMode, i, n, own, own, p);
      }
    }
  }

  lemma {:induction false} SuccessGoesOn(
      steps: seq<Step>, w: World, stepMode: bool, i: nat, n: nat, own: seq<Event>, pause: seq<Event>, rest: seq<Event>)
    requires i < |steps| && LawfulStep(steps[i], w, i, n, 0, own)
    requires own[|own| - 1].Recorded? && own[|own| - 1].ok && forall q :: 0 <= q < |own| ==> own[q].step == i
    requires pause == if stepMode && i + 1 < |steps| then [Paused(i)] else []
    requires LawfulRun(steps, w, stepMode, i + 1, n + Rans(own), rest) && forall q :: 0 <= q < |rest| ==> rest[q].step > i
    ensures LawfulRun(steps, w, stepMode, i, n, own + pause + rest)
    ensures forall q :: 0 <= q < |own + pause + rest| ==> (own + pause + rest)[q].step >= i
  {
    hide AfterTry, Rans, Runs, LawfulStep;
    var log, cut := own + pause + rest, |own| + |pause|;
    StepStarts(steps[i], w, i, n, own);
    assert own <= log && log[0] == own[0];
    forall p | 0 <= p < |log| ensures LawfulAt(steps, w, stepMode, n, log, p) {
      if p + 1 < |own| {
        OwnAt(steps, w, stepMode, i, n, own, log, p);
      } else if p < cut {
        assert p == |own| - 1 ==> log[p] == own[p];
        assert p + 1 == cut && rest != [] ==> log[p + 1] == rest[0];
      } else {
        assert LawfulAt(steps, w, stepMode, n + Rans(own), rest, p - cut);
        LaterAt(steps, w, stepMode, i, n, own, pause, rest, p);
      }
    }
    forall q | 0 <= q < |log| ensures log[q].step >= i {
      assert log[q] == if q < |own| then own[q] else if q < cut then pause[q - |own|] else rest[q - cut];
    }
  }

  lemma {:induction false} StepStarts(s: Step, w: World, i: nat, n: nat, own: seq<Event>)
    requires LawfulStep(s, w, i, n, 0, own)
    ensures own != [] && own[0].Ran?
  {
  }

  lemma {:induction false} LaterAt(
      steps: seq<Step>, w: World, stepMode: bool, i: nat, n: nat, own: seq<Event>, pause: seq<Event>, rest: seq<Event>, p: nat)
    requires (pause == [] || pause == [Paused(i)]) && forall q :: 0 <= q < |own| ==> own[q].step == i
    requires |own| + |pause| <= p < |own| + |pause| + |rest|
    requires LawfulAt(steps, w, stepMode, n + Rans(own), rest, p - |own| - |pause|) && rest[p - |own| - |pause|].step > i
    ensures LawfulAt(steps, w, stepMode, n, own + pause + rest, p)
  {
    hide AfterTry, Rans, Runs;
    var head := own + pause;
    var log, q := head + rest, p - |head|;
    assert log[p] == rest[q] && (q + 1 < |rest| ==> log[p + 1] == rest[q + 1]);
    assert log[..p] == head + rest[..q] && log[..p + 1] == head + rest[..q + 1];
    RansParts(head, rest[..q]);
    RansParts(own, pause);
    NoRans(pause);
    var j := rest[q].step;
    Sums(head, rest[..q + 1], j);
    Sums(own, pause, j);
    OwnRuns(own, i, j);
    NoRuns(pause, j);
  }

  lemma {:induction false} NoRans(pause: seq<Event>)
    requires pause == [] || (|pause| == 1 && pause[0].Paused?)
    ensures Rans(pause) == 0
  {
    if pause != [] {
      RansOne(pause[0]);
      assert pause == [pause[0]];
    }
  }
}
