/**
  What the passes of the domain-rule sync do: a request is followed by a pass, and a pass that does not fail pushes.
*/
module SyncPushes {
  import opened DomainSync
  import opened Option

  // ----- the states of a run -----

  predicate Next(trace: seq<System>, steps: seq<Step>, n: nat) {
    n < |steps| && n + 1 < |trace| && trace[n + 1] == Do(trace[n], steps[n])
  }

  /** `trace` holds the state before every step and the last one. */
  ghost predicate IsTrace(trace: seq<System>, steps: seq<Step>) {
    |trace| == |steps| + 1 && trace[0] == INITIAL && forall n | 0 <= n < |steps| :: Next(trace, steps, n)
  }

  lemma {:induction false} TraceAt(trace: seq<System>, steps: seq<Step>, n: nat)
    requires IsTrace(trace, steps) && n <= |steps|
    ensures trace[n] == Exec(steps[..n])
  {
    if n > 0 {
      TraceAt(trace, steps, n - 1);
      assert Next(trace, steps, n - 1);
      assert steps[..n][..n - 1] == steps[..n - 1];
    }
  }

  lemma TraceIsSafe(trace: seq<System>, steps: seq<Step>, i: nat)
    requires IsTrace(trace, steps) && i <= |steps|
    ensures Inv(trace[i])
  {
    TraceAt(trace, steps, i);
    ExecKeepsInv(steps[..i]);
  }

  lemma TraceStep(trace: seq<System>, steps: seq<Step>, i: nat)
    requires IsTrace(trace, steps) && i < |steps|
    ensures Inv(trace[i]) && trace[i + 1] == Do(trace[i], steps[i])
  {
    TraceIsSafe(trace, steps, i);
    assert Next(trace, steps, i);
  }

  predicate LogGrown(st: System, st': System) { st.log <= st'.log && st.version <= st'.version }

  lemma LogGrowsByStep(st: System, step: Step)
    ensures LogGrown(st, Do(st, step)) && |Do(st, step).log| <= |st.log| + 1
  {
  }

  lemma {:induction false} LogGrows(trace: seq<System>, steps: seq<Step>, a: nat, b: nat)
    requires IsTrace(trace, steps) && a <= b <= |steps|
    ensures LogGrown(trace[a], trace[b])
    decreases b
  {
    if a < b {
      LogGrows(trace, steps, a, b - 1);
      TraceStep(trace, steps, b - 1);
      LogGrowsByStep(trace[b - 1], steps[b - 1]);
    }
  }

  /** The step that logged an event. */
  lemma {:induction false} LoggedAt(trace: seq<System>, steps: seq<Step>, n: nat, k: nat) returns (a: nat)
    requires IsTrace(trace, steps) && n <= |steps| && k < |trace[n].log|
    ensures a < n && |trace[a].log| == k && trace[a + 1].log == trace[a].log + [trace[n].log[k]]
    decreases n
  {
    TraceStep(trace, steps, n - 1);
    LogGrowsByStep(trace[n - 1], steps[n - 1]);
    if k < |trace[n - 1].log| {
      a := LoggedAt(trace, steps, n - 1, k);
    } else {
      a := n - 1;
      assert trace[n].log == trace[a].log + [trace[n].log[k]];
    }
  }

  // ----- one pass -----

  predicate Own(step: Step, t: nat) { step.Run? && step.thread == t }

  /** At step `a` thread `t`, which has the mutex, begins to read the database. */
  predicate StartsPass(trace: seq<System>, steps: seq<Step>, a: nat, t: nat) {
    && a < |steps| && a < |trace| && Own(steps[a], t)
    && t < |trace[a].threads| && trace[a].threads[t].phase.Locked?
  }

  predicate InPass(trace: seq<System>, a: nat, b: nat, t: nat)
    decreases b
  {
    && a < b < |trace|
    && t < |trace[b].threads| && trace[b].threads[t].phase.Reading?
    && (a + 1 < b ==> InPass(trace, a, b - 1, t))
  }

  /** No statement, no call to the filter and no push of the pass fails. */
  predicate NothingFails(trace: seq<System>, steps: seq<Step>, a: nat, t: nat) {
    forall b | a < b < |steps| && InPass(trace, a, b, t) :: steps[b] != Run(t, Fail)
  }

  /** Since log position `k` only requests have been logged. */
  ghost predicate Quiet(log: seq<Event>, k: nat) {
    forall j | k < j < |log| :: log[j].Requested?
  }

  /** The pass that began at log position `k` has pushed, before any other pass, what it read from `version` on. */
  ghost predicate Pushes(log: seq<Event>, k: nat, version: nat) {
    exists j | k < j < |log| :: PushesAt(log, k, j, version)
  }

  ghost predicate PushesAt(log: seq<Event>, k: nat, j: nat, version: nat)
    requires j < |log|
  {
    log[j].Pushed? && log[j].lo == version <= log[j].hi && Quiet(log[..j], k)
  }

  ghost predicate Underway(st: System, t: nat, version: nat, k: nat) {
    && t < |st.threads| && st.threads[t].phase.Reading? && st.threads[t].phase.lo == version
    && k < |st.log| && Quiet(st.log, k)
  }

  ghost predicate Goes(st: System, t: nat, version: nat, k: nat) {
    Pushes(st.log, k, version) || Underway(st, t, version, k)
  }

  lemma LockedStarts(st: System, step: Step, t: nat)
    requires Own(step, t) && t < |st.threads| && st.threads[t].phase.Locked?
    ensures Underway(Do(st, step), t, st.version, |st.log|)
  {
  }

  lemma PushesStay(log: seq<Event>, log': seq<Event>, k: nat, version: nat)
    requires Pushes(log, k, version) && log <= log'
    ensures Pushes(log', k, version)
  {
    var j :| k < j < |log| && PushesAt(log, k, j, version);
    assert log'[j] == log[j] && log'[..j] == log[..j];
    assert PushesAt(log', k, j, version);
  }

  lemma OwnStepGoesOn(st: System, step: Step, t: nat, version: nat, k: nat)
    requires Inv(st) && Underway(st, t, version, k) && Own(step, t) && step != Run(t, Fail)
    ensures Goes(Do(st, step), t, version, k)
  {
    var log := Do(st, step).log;
    if log != st.log {
      assert log[..|st.log|] == st.log;
      assert PushesAt(log, k, |st.log|, version);
    }
  }

  /** The mutex keeps the others from starting a pass or pushing. */
  lemma OtherStepGoesOn(st: System, step: Step, t: nat, version: nat, k: nat)
    requires Inv(st) && Underway(st, t, version, k) && !Own(step, t)
    ensures Underway(Do(st, step), t, version, k)
  {
    if step.Run? && step.thread < |st.threads| {
      assert Holds(st.threads[t].phase) && !Holds(st.threads[step.thread].phase);
    }
  }

  lemma GoesOn(st: System, step: Step, t: nat, version: nat, k: nat)
    requires Inv(st) && Goes(st, t, version, k)
    requires Pushes(st.log, k, version) || step != Run(t, Fail)
    ensures Goes(Do(st, step), t, version, k)
    ensures Pushes(st.log, k, version) ==> Pushes(Do(st, step).log, k, version)
  {
    LogGrowsByStep(st, step);
    if Pushes(st.log, k, version) {
      PushesStay(st.log, Do(st, step).log, k, version);
    } else if Own(step, t) {
      OwnStepGoesOn(st, step, t, version, k);
    } else {
      OtherStepGoesOn(st, step, t, version, k);
    }
  }

  ghost predicate PushedBy(trace: seq<System>, a: nat, b: nat)
    requires a < |trace| && b < |trace|
  {
    Pushes(trace[b].log, |trace[a].log|, trace[a].version)
  }

  ghost predicate Lasting(trace: seq<System>, a: nat, b: nat, t: nat)
    requires a < b < |trace|
  {
    Goes(trace[b], t, trace[a].version, |trace[a].log|) && (PushedBy(trace, a, b) || InPass(trace, a, b, t))
  }

  lemma PassBegins(trace: seq<System>, steps: seq<Step>, a: nat, t: nat)
    requires IsTrace(trace, steps) && StartsPass(trace, steps, a, t)
    ensures Lasting(trace, a, a + 1, t)
  {
    TraceStep(trace, steps, a);
    LockedStarts(trace[a], steps[a], t);
  }

  lemma PassStep(trace: seq<System>, steps: seq<Step>, a: nat, b: nat, t: nat)
    requires IsTrace(trace, steps) && a < b < |steps| && Lasting(trace, a, b, t)
    requires PushedBy(trace, a, b) || steps[b] != Run(t, Fail)
    ensures Lasting(trace, a, b + 1, t)
  {
    TraceStep(trace, steps, b);
    GoesOn(trace[b], steps[b], t, trace[a].version, |trace[a].log|);
  }

  lemma {:induction false} PassGoesOn(trace: seq<System>, steps: seq<Step>, a: nat, b: nat, t: nat)
    requires IsTrace(trace, steps) && a < b <= |steps| && StartsPass(trace, steps, a, t) && NothingFails(trace, steps, a, t)
    ensures Lasting(trace, a, b, t)
    decreases b
  {
    if b == a + 1 {
      PassBegins(trace, steps, a, t);
    } else {
      PassGoesOn(trace, steps, a, b - 1, t);
      PassStep(trace, steps, a, b - 1, t);
    }
  }

  // ----- from the request to the push -----

  lemma RequestIsLogged(st: System)
    ensures Do(st, Step.Request).log == st.log + [Requested(st.version)]
  {
  }

  lemma StartedBy(st: System, step: Step, version: nat) returns (t: nat)
    requires Do(st, step).log == st.log + [PassStarted(version)]
    ensures Own(step, t) && t < |st.threads| && st.threads[t].phase.Locked? && version == st.version
  {
    assert Do(st, step).log[|st.log|] == PassStarted(version);
    t := step.thread;
  }

  lemma SomethingServes(st: System, i: nat, version: nat) returns (k: nat)
    requires Inv(st) && !st.flags.running && i < |st.log| && st.log[i] == Requested(version)
    ensures i < k < |st.log| && st.log[k].PassStarted? && version <= st.log[k].version
  {
    assert RequestOk(st, i);
    k :| i < k < |st.log| && Serves(st.log[k], version);
  }

  lemma RequestStaysLogged(trace: seq<System>, steps: seq<Step>, q: nat)
    requires IsTrace(trace, steps) && q < |steps| && steps[q] == Step.Request
    ensures |trace[q].log| < |trace[|steps|].log| && trace[|steps|].log[|trace[q].log|] == Requested(trace[q].version)
  {
    TraceStep(trace, steps, q);
    RequestIsLogged(trace[q]);
    LogGrows(trace, steps, q + 1, |steps|);
  }

  lemma StartingStep(trace: seq<System>, steps: seq<Step>, a: nat, e: Event) returns (t: nat)
    requires IsTrace(trace, steps) && a < |steps| && e.PassStarted? && trace[a + 1].log == trace[a].log + [e]
    ensures StartsPass(trace, steps, a, t) && e.version == trace[a].version
  {
    TraceStep(trace, steps, a);
    t := StartedBy(trace[a], steps[a], e.version);
  }

  lemma LaterStep(trace: seq<System>, steps: seq<Step>, q: nat, a: nat)
    requires IsTrace(trace, steps) && q < |steps| && a < |steps| && |trace[q].log| < |trace[a].log|
    ensures q < a
  {
    if a <= q { LogGrows(trace, steps, a, q); }
  }

  /** A later pass reads the database no earlier than the request; when nothing of it fails, it has pushed or still reads. */
  ghost predicate Answers(trace: seq<System>, steps: seq<Step>, q: nat, a: nat, t: nat)
    requires |trace| == |steps| + 1 && q < |trace|
  {
    && q < a && StartsPass(trace, steps, a, t) && trace[q].version <= trace[a].version
    && (NothingFails(trace, steps, a, t) ==> PushedBy(trace, a, |steps|) || InPass(trace, a, |steps|, t))
  }

  /**
    Over every run, when no background goroutine is left, every request was followed by a pass that read the database
    later; unless a step of it failed it has pushed what it read, before any other pass, or it is a direct pass that is
    still reading.
  */
  lemma RequestIsPushed(trace: seq<System>, steps: seq<Step>, q: nat)
    requires IsTrace(trace, steps) && q < |steps| && steps[q] == Step.Request && !trace[|steps|].flags.running
    ensures exists a: nat, t: nat :: Answers(trace, steps, q, a, t)
  {
    RequestStaysLogged(trace, steps, q);
    TraceIsSafe(trace, steps, |steps|);
    var k := SomethingServes(trace[|steps|], |trace[q].log|, trace[q].version);
    var a := LoggedAt(trace, steps, |steps|, k);
    var t := StartingStep(trace, steps, a, trace[|steps|].log[k]);
    LaterStep(trace, steps, q, a);
    if NothingFails(trace, steps, a, t) { PassGoesOn(trace, steps, a, |steps|, t); }
    assert Answers(trace, steps, q, a, t);
  }

  // ----- nobody skips the pass -----

  predicate PastPass(phase: Phase) { phase.Unlocking? || phase.Check? || phase.Done? }

  /** The thread is there, and its pass has begun at some step. */
  ghost predicate HasPassed(trace: seq<System>, steps: seq<Step>, n: nat, t: nat) {
    exists a | 0 <= a < n :: StartsPass(trace, steps, a, t)
  }

  lemma PhaseStep(st: System, step: Step, t: nat)
    requires t < |Do(st, step).threads|
    requires PastPass(Do(st, step).threads[t].phase) || Do(st, step).threads[t].phase.Reading?
    ensures t < |st.threads|
    ensures || PastPass(st.threads[t].phase) || st.threads[t].phase.Reading?
            || (st.threads[t].phase.Locked? && Own(step, t))
  {
  }

  /** Every thread, background or direct, that has come to its end has made a pass. */
  lemma {:induction false} EveryThreadPasses(trace: seq<System>, steps: seq<Step>, n: nat, t: nat)
    requires IsTrace(trace, steps) && n <= |steps| && t < |trace[n].threads|
    requires PastPass(trace[n].threads[t].phase) || trace[n].threads[t].phase.Reading?
    ensures HasPassed(trace, steps, n, t)
  {
    if n > 0 {
      TraceStep(trace, steps, n - 1);
      PhaseStep(trace[n - 1], steps[n - 1], t);
      if trace[n - 1].threads[t].phase.Locked? {
        assert StartsPass(trace, steps, n - 1, t);
      } else {
        EveryThreadPasses(trace, steps, n - 1, t);
      }
    }
  }

  // ----- what a push has read -----

  lemma ReadingStep(st: System, step: Step, t: nat)
    requires Inv(st) && t < |st.threads| && st.threads[t].phase.Reading?
    requires t < |Do(st, step).threads| && Do(st, step).threads[t].phase.Reading?
    ensures Do(st, step).threads[t].phase.lo == st.threads[t].phase.lo
    ensures Do(st, step).threads[t].phase.hi == if step == Run(t, ReadMore) then st.version else st.threads[t].phase.hi
    ensures st.threads[t].phase.hi <= st.version
  {
  }

  /** A pass knows the versions its statements saw. */
  lemma {:induction false} ReadsCovered(trace: seq<System>, steps: seq<Step>, a: nat, r: nat, b: nat, t: nat)
    requires IsTrace(trace, steps) && a < r < b <= |steps| && InPass(trace, a, b, t) && steps[r] == Run(t, ReadMore)
    ensures trace[r].version <= trace[b].threads[t].phase.hi
    decreases b
  {
    TraceStep(trace, steps, b - 1);
    ReadingStep(trace[b - 1], steps[b - 1], t);
    if r < b - 1 {
      ReadsCovered(trace, steps, a, r, b - 1, t);
    }
  }

  lemma PushLogs(st: System, t: nat)
    requires t < |st.threads| && st.threads[t].phase.Reading?
    ensures Do(st, Run(t, Push)).log == st.log + [Pushed(st.threads[t].phase.lo, st.threads[t].phase.hi)]
  {
  }

  /** What is pushed saw the database as late as each of its pass's statements did. */
  lemma PushCoversReads(trace: seq<System>, steps: seq<Step>, a: nat, r: nat, p: nat, t: nat)
    requires IsTrace(trace, steps) && a < r < p < |steps| && InPass(trace, a, p, t)
    requires steps[r] == Run(t, ReadMore) && steps[p] == Run(t, Push)
    ensures var log := trace[p + 1].log;
            |log| == |trace[p].log| + 1 && log[|log| - 1].Pushed? && trace[r].version <= log[|log| - 1].hi
  {
    ReadsCovered(trace, steps, a, r, p, t);
    TraceStep(trace, steps, p);
    PushLogs(trace[p], t);
  }
}
