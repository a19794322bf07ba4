/**
  What the server queue's passes do: a pass whose calls all succeed applies the server.

  The queue's other theorems say what an apply may not do. Here a request is followed through the run, from the
  section that accepts it to the kernel call that answers it.
*/
module QueueApplies {
  import opened ServerSyncQueue

  // ----- the states of a run -----

  ghost predicate Next(trace: seq<System>, steps: seq<Step>, n: nat) {
    n < |steps| && n + 1 < |trace| && Shape(trace[n]) && trace[n + 1] == Do(trace[n], steps[n])
  }

  /** `trace` holds the state before every step and the last one. */
  ghost predicate IsTrace(trace: seq<System>, steps: seq<Step>) {
    |trace| == |steps| + 1 && trace[0] == INITIAL && forall n | 0 <= n < |steps| :: Next(trace, steps, n)
  }

  lemma {:induction false} TraceAt(trace: seq<System>, steps: seq<Step>, n: nat)
    requires IsTrace(trace, steps) && n <= |steps|
    ensures trace[n] == Exec(steps[..n])
  {
    if n > 0 {
      TraceAt(trace, steps, n - 1);
      assert Next(trace, steps, n - 1);
      assert steps[..n][..n - 1] == steps[..n - 1];
    }
  }

  lemma TraceIsSafe(trace: seq<System>, steps: seq<Step>, i: nat)
    requires IsTrace(trace, steps) && i <= |steps|
    ensures Inv(trace[i])
  {
    TraceAt(trace, steps, i);
    ExecKeepsInv(steps[..i]);
  }

  lemma TraceStep(trace: seq<System>, steps: seq<Step>, i: nat)
    requires IsTrace(trace, steps) && i < |steps|
    ensures Inv(trace[i]) && trace[i + 1] == Do(trace[i], steps[i])
  {
    TraceIsSafe(trace, steps, i);
    assert Next(trace, steps, i);
  }

  // ----- what stays -----

  lemma LogGrowsByStep(st: System, step: Step)
    requires Inv(st)
    ensures LogGrown(st, Do(st, step)) && |Do(st, step).log| <= |st.log| + 1
  {
    var e := Appended(st, step);
  }

  predicate LogGrown(st: System, st': System) { st.log <= st'.log && st.version <= st'.version }

  lemma {:induction false} LogGrows(trace: seq<System>, steps: seq<Step>, a: nat, b: nat)
    requires IsTrace(trace, steps) && a <= b <= |steps|
    ensures LogGrown(trace[a], trace[b])
    decreases b
  {
    if a < b {
      LogGrows(trace, steps, a, b - 1);
      TraceStep(trace, steps, b - 1);
      LogGrowsByStep(trace[b - 1], steps[b - 1]);
    }
  }

  /** The step that logged an event. */
  lemma {:induction false} LoggedAt(trace: seq<System>, steps: seq<Step>, n: nat, k: nat) returns (a: nat)
    requires IsTrace(trace, steps) && n <= |steps| && k < |trace[n].log|
    ensures a < n && |trace[a].log| == k && |trace[a + 1].log| == k + 1
    ensures trace[a + 1].log[k] == trace[n].log[k]
    decreases n
  {
    TraceStep(trace, steps, n - 1);
    LogGrowsByStep(trace[n - 1], steps[n - 1]);
    if k < |trace[n - 1].log| {
      a := LoggedAt(trace, steps, n - 1, k);
    } else {
      a := n - 1;
    }
  }

  /** Unless the row has been deleted it is as it was. */
  predicate RowKept(st: System, st': System, s: ServerId) {
    s !in st'.deleted ==>
      s !in st.deleted && (s in st.rows ==> s in st'.rows && st'.rows[s] == st.rows[s])
  }

  lemma RowStaysByStep(st: System, step: Step, s: ServerId)
    requires Inv(st)
    ensures RowKept(st, Do(st, step), s)
  {
  }

  lemma {:induction false} RowStays(trace: seq<System>, steps: seq<Step>, a: nat, b: nat, s: ServerId)
    requires IsTrace(trace, steps) && a <= b <= |steps|
    ensures RowKept(trace[a], trace[b], s)
    decreases b
  {
    if a < b {
      RowStays(trace, steps, a, b - 1, s);
      TraceStep(trace, steps, b - 1);
      RowStaysByStep(trace[b - 1], steps[b - 1], s);
    }
  }

  // ----- one pass -----

  predicate Own(step: Step, r: nat) { step == Run(r, true) || step == Run(r, false) }

  predicate Runs(st: System, r: nat, s: ServerId) {
    r < |st.runners| && st.runners[r].job < |st.mem.jobs| && st.mem.jobs[st.runners[r].job].server == s
  }

  /** At step `a` goroutine `r` makes the first query of a pass for `s`. */
  predicate StartsPass(trace: seq<System>, steps: seq<Step>, a: nat, r: nat, s: ServerId) {
    && a < |steps| && a < |trace| && Own(steps[a], r) && Runs(trace[a], r, s) && trace[a].runners[r].phase.Read?
  }

  /** The goroutine is still in the pass that began at step `a`. */
  predicate InPass(trace: seq<System>, a: nat, b: nat, r: nat)
    decreases b
  {
    && a < b < |trace|
    && r < |trace[b].runners| && trace[b].runners[r].phase.Apply?
    && (a + 1 < b ==> InPass(trace, a, b - 1, r))
  }

  /** Every call of the pass succeeds. */
  predicate CallsSucceed(trace: seq<System>, steps: seq<Step>, a: nat, r: nat) {
    && a < |steps| && steps[a] == Run(r, true)
    && forall b | a < b < |steps| && InPass(trace, a, b, r) :: steps[b] != Run(r, false)
  }

  /** Since log position `k`, where the pass of `s` began, nothing of `s` but requests has been logged. */
  ghost predicate Quiet(log: seq<Event>, k: nat, s: ServerId) {
    forall j | k < j < |log| :: !IsPassEvent(log[j], s)
  }

  predicate IsPassEvent(e: Event, s: ServerId) {
    (e.PassStarted? || e.Applied? || e.TornDown?) && e.server == s
  }

  /** The pass that began at log position `k` has applied `s`, before any other pass or teardown of it. */
  ghost predicate Applies(log: seq<Event>, k: nat, s: ServerId, iface: string, version: nat) {
    exists j | k < j < |log| :: AppliesAt(log, k, j, s, iface, version)
  }

  ghost predicate AppliesAt(log: seq<Event>, k: nat, j: nat, s: ServerId, iface: string, version: nat)
    requires j < |log|
  {
    && log[j].Applied? && log[j].server == s && log[j].iface == iface && log[j].lo == version <= log[j].hi
    && Quiet(log[..j], k, s)
  }

  /** What is true of a pass while it lasts. */
  ghost predicate Underway(st: System, r: nat, s: ServerId, iface: string, version: nat, k: nat) {
    && Runs(st, r, s) && st.runners[r].phase.Apply?
    && st.runners[r].phase.iface == iface && st.runners[r].phase.lo == version
    && k < |st.log| && Quiet(st.log, k, s)
  }

  lemma ReadStarts(st: System, r: nat, s: ServerId)
    requires Inv(st) && Runs(st, r, s) && st.runners[r].phase.Read? && s in st.rows
    ensures var st' := Do(st, Run(r, true));
            Underway(st', r, s, st.rows[s], st.version, |st.log|) && st'.log[|st.log|] == PassStarted(s, st.version)
  {
  }

  lemma OwnStepInPass(st: System, r: nat, s: ServerId, iface: string, version: nat, k: nat)
    requires Inv(st) && Underway(st, r, s, iface, version, k)
    ensures var st' := Do(st, Run(r, true));
            if st'.runners[r].phase.Apply? then Underway(st', r, s, iface, version, k)
            else Applies(st'.log, k, s, iface, version)
  {
    var st' := Do(st, Run(r, true));
    assert PhaseOk(st, r);
    if !st'.runners[r].phase.Apply? {
      assert st'.log[..|st.log|] == st.log;
      assert AppliesAt(st'.log, k, |st.log|, s, iface, version);
    }
  }

  /** What others log in between is not about this server. */
  lemma LogsElsewhere(st: System, step: Step, r: nat, e: Event)
    requires Structure(st) && r < |st.runners| && Live(st, r) && !Own(step, r)
    requires Do(st, step).log == st.log + [e]
    ensures !IsPassEvent(e, st.mem.jobs[r].server)
  {
    assert Do(st, step).log[|st.log|] == e;
  }

  lemma OtherStepInPass(st: System, step: Step, r: nat, s: ServerId, iface: string, version: nat, k: nat)
    requires Inv(st) && Underway(st, r, s, iface, version, k) && !Own(step, r)
    ensures Underway(Do(st, step), r, s, iface, version, k)
  {
    Frame(st, step, r);
    var e := Appended(st, step);
    if e.Some? { LogsElsewhere(st, step, r, e.value); }
    StructureKept(st, step);
  }

  lemma AppliesStays(log: seq<Event>, log': seq<Event>, k: nat, s: ServerId, iface: string, version: nat)
    requires Applies(log, k, s, iface, version) && log <= log'
    ensures Applies(log', k, s, iface, version)
  {
    var j :| k < j < |log| && AppliesAt(log, k, j, s, iface, version);
    assert log'[j] == log[j] && log'[..j] == log[..j];
    assert AppliesAt(log', k, j, s, iface, version);
  }

  /** The pass has applied its server or is still under way. */
  ghost predicate Goes(st: System, r: nat, s: ServerId, iface: string, version: nat, k: nat) {
    Applies(st.log, k, s, iface, version) || Underway(st, r, s, iface, version, k)
  }

  lemma GoesOn(st: System, step: Step, r: nat, s: ServerId, iface: string, version: nat, k: nat)
    requires Inv(st) && Goes(st, r, s, iface, version, k)
    requires !Applies(st.log, k, s, iface, version) ==> step != Run(r, false)
    ensures Goes(Do(st, step), r, s, iface, version, k)
  {
    LogGrowsByStep(st, step);
    if Applies(st.log, k, s, iface, version) {
      AppliesStays(st.log, Do(st, step).log, k, s, iface, version);
    } else if Own(step, r) {
      OwnStepInPass(st, r, s, iface, version, k);
    } else {
      OtherStepInPass(st, step, r, s, iface, version, k);
    }
  }

  lemma GoesOnOrDone(st: System, step: Step, r: nat, s: ServerId, iface: string, version: nat, k: nat)
    requires Inv(st) && Goes(st, r, s, iface, version, k)
    requires Applies(st.log, k, s, iface, version) || step != Run(r, false)
    ensures Goes(Do(st, step), r, s, iface, version, k)
    ensures Applies(st.log, k, s, iface, version) ==> Applies(Do(st, step).log, k, s, iface, version)
  {
    GoesOn(st, step, r, s, iface, version, k);
    LogGrowsByStep(st, step);
    if Applies(st.log, k, s, iface, version) { AppliesStays(st.log, Do(st, step).log, k, s, iface, version); }
  }

  /** Either applied, or still in the pass. */
  ghost predicate Lasting(trace: seq<System>, a: nat, b: nat, r: nat, s: ServerId)
    requires a < b < |trace| && s in trace[a].rows
  {
    && Goes(trace[b], r, s, trace[a].rows[s], trace[a].version, |trace[a].log|)
    && (AppliedBy(trace, a, b, s) || InPass(trace, a, b, r))
  }

  ghost predicate AppliedBy(trace: seq<System>, a: nat, b: nat, s: ServerId)
    requires a < |trace| && b < |trace| && s in trace[a].rows
  {
    Applies(trace[b].log, |trace[a].log|, s, trace[a].rows[s], trace[a].version)
  }

  lemma PassBegins(trace: seq<System>, steps: seq<Step>, a: nat, r: nat, s: ServerId)
    requires IsTrace(trace, steps) && StartsPass(trace, steps, a, r, s) && s in trace[a].rows && steps[a] == Run(r, true)
    ensures Lasting(trace, a, a + 1, r, s)
  {
    TraceStep(trace, steps, a);
    ReadStarts(trace[a], r, s);
  }

  lemma PassStep(trace: seq<System>, steps: seq<Step>, a: nat, b: nat, r: nat, s: ServerId)
    requires IsTrace(trace, steps) && a < b < |steps| && s in trace[a].rows && Lasting(trace, a, b, r, s)
    requires AppliedBy(trace, a, b, s) || steps[b] != Run(r, false)
    ensures Lasting(trace, a, b + 1, r, s)
  {
    TraceStep(trace, steps, b);
    GoesOnOrDone(trace[b], steps[b], r, s, trace[a].rows[s], trace[a].version, |trace[a].log|);
  }

  lemma NoCallFails(trace: seq<System>, steps: seq<Step>, a: nat, b: nat, r: nat)
    requires CallsSucceed(trace, steps, a, r) && a < b < |steps| && InPass(trace, a, b, r)
    ensures steps[b] != Run(r, false)
  {
  }

  /** A pass whose calls succeed is either still under way or has applied its server. */
  lemma {:induction false} PassGoesOn(trace: seq<System>, steps: seq<Step>, a: nat, b: nat, r: nat, s: ServerId)
    requires IsTrace(trace, steps) && a < b <= |steps|
    requires StartsPass(trace, steps, a, r, s) && s in trace[a].rows && CallsSucceed(trace, steps, a, r)
    ensures Lasting(trace, a, b, r, s)
    decreases b
  {
    if b == a + 1 {
      PassBegins(trace, steps, a, r, s);
    } else {
      PassGoesOn(trace, steps, a, b - 1, r, s);
      if !AppliedBy(trace, a, b - 1, s) { NoCallFails(trace, steps, a, b - 1, r); }
      PassStep(trace, steps, a, b - 1, r, s);
    }
  }

  // ----- from the request to the apply -----

  lemma RequestIsLogged(st: System, s: ServerId)
    requires Inv(st) && s in st.rows
    ensures Do(st, Step.RequestSync(s)).log == st.log + [SyncRequested(s, st.version)]
  {
    if s in st.mem.table { assert JobOk(st, st.mem.jobs[st.mem.table[s]]); }
  }

  lemma StartedBy(st: System, step: Step, s: ServerId, version: nat) returns (r: nat)
    requires Inv(st) && Do(st, step).log == st.log + [PassStarted(s, version)]
    ensures Own(step, r) && Runs(st, r, s) && st.runners[r].phase.Read? && version == st.version
  {
    assert Do(st, step).log[|st.log|] == PassStarted(s, version);
    r := step.runner;
  }

  lemma NotTornDown(st: System, s: ServerId, k: nat)
    requires Inv(st) && s in st.rows && k < |st.log|
    ensures !(st.log[k].TornDown? && st.log[k].server == s)
  {
    assert EventOk(st, st.log[k]);
  }

  lemma LaterStep(trace: seq<System>, steps: seq<Step>, q: nat, a: nat)
    requires IsTrace(trace, steps) && q < |steps| && a < |steps| && |trace[q].log| < |trace[a].log|
    ensures q < a
  {
    if a <= q { LogGrows(trace, steps, a, q); }
  }

  lemma SomethingServes(st: System, i: nat, s: ServerId, version: nat) returns (k: nat)
    requires Inv(st) && s in st.rows && s !in st.mem.table && i < |st.log| && st.log[i] == SyncRequested(s, version)
    ensures i < k < |st.log| && st.log[k].PassStarted? && st.log[k].server == s
  {
    assert SyncOk(st, i);
    k :| i < k < |st.log| && Serves(st.log[k], s, version);
    NotTornDown(st, s, k);
  }

  lemma RequestStaysLogged(trace: seq<System>, steps: seq<Step>, q: nat, s: ServerId)
    requires IsTrace(trace, steps) && q < |steps| && steps[q] == Step.RequestSync(s) && s in trace[q].rows
    ensures var i := |trace[q].log|;
            i < |trace[|steps|].log| && trace[|steps|].log[i] == SyncRequested(s, trace[q].version)
  {
    TraceStep(trace, steps, q);
    RequestIsLogged(trace[q], s);
    LogGrows(trace, steps, q + 1, |steps|);
  }

  lemma AnsweringPass(trace: seq<System>, steps: seq<Step>, q: nat, s: ServerId) returns (a: nat, r: nat)
    requires IsTrace(trace, steps) && q < |steps| && steps[q] == Step.RequestSync(s) && s in trace[q].rows
    requires s in trace[|steps|].rows && s !in trace[|steps|].mem.table
    ensures q < a && StartsPass(trace, steps, a, r, s)
  {
    RequestStaysLogged(trace, steps, q, s);
    TraceIsSafe(trace, steps, |steps|);
    var k := SomethingServes(trace[|steps|], |trace[q].log|, s, trace[q].version);
    a := LoggedAt(trace, steps, |steps|, k);
    r := StartingStep(trace, steps, a, s, trace[|steps|].log[k]);
    LaterStep(trace, steps, q, a);
  }

  lemma StartingStep(trace: seq<System>, steps: seq<Step>, a: nat, s: ServerId, e: Event) returns (r: nat)
    requires IsTrace(trace, steps) && a < |steps| && e.PassStarted? && e.server == s
    requires |trace[a + 1].log| == |trace[a].log| + 1 && trace[a + 1].log[|trace[a].log|] == e
    ensures StartsPass(trace, steps, a, r, s)
  {
    TraceStep(trace, steps, a);
    LogGrowsByStep(trace[a], steps[a]);
    assert trace[a + 1].log == trace[a].log + [e];
    r := StartedBy(trace[a], steps[a], s, e.version);
  }

  lemma SucceedingPassApplies(trace: seq<System>, steps: seq<Step>, a: nat, r: nat, s: ServerId)
    requires IsTrace(trace, steps) && StartsPass(trace, steps, a, r, s) && s in trace[a].rows
    requires CallsSucceed(trace, steps, a, r) && s !in trace[|steps|].mem.table
    ensures AppliedBy(trace, a, |steps|, s)
  {
    PassGoesOn(trace, steps, a, |steps|, r, s);
    TraceIsSafe(trace, steps, |steps|);
    NotInPass(trace[|steps|], r, s);
  }

  lemma NotInPass(st: System, r: nat, s: ServerId)
    requires Inv(st) && s !in st.mem.table
    ensures !(Runs(st, r, s) && st.runners[r].phase.Apply?)
  {
  }

  /** A later pass reads the row as it stays, no older than the request, and applies it if its calls succeed. */
  ghost predicate Answers(trace: seq<System>, steps: seq<Step>, q: nat, a: nat, r: nat, s: ServerId)
    requires |trace| == |steps| + 1 && q < |trace|
  {
    && q < a && StartsPass(trace, steps, a, r, s)
    && s in trace[a].rows && s in trace[|steps|].rows && trace[a].rows[s] == trace[|steps|].rows[s]
    && trace[q].version <= trace[a].version
    && (CallsSucceed(trace, steps, a, r) ==> AppliedBy(trace, a, |steps|, s))
  }

  /**
    Every request for a server whose row stays is answered, by the time no goroutine of the server is left, by a pass
    that reads the database later; when that pass's calls succeed it makes the kernel call, with the row's interface and
    reads no older than the request, before any other pass of the server.
  */
  lemma RequestIsApplied(trace: seq<System>, steps: seq<Step>, q: nat, s: ServerId)
    requires IsTrace(trace, steps) && q < |steps| && steps[q] == Step.RequestSync(s) && s in trace[q].rows
    requires s in trace[|steps|].rows && s !in trace[|steps|].mem.table
    ensures exists a: nat, r: nat :: Answers(trace, steps, q, a, r, s)
  {
    var a, r := AnsweringPass(trace, steps, q, s);
    TraceIsSafe(trace, steps, |steps|);
    RowStays(trace, steps, a, |steps|, s);
    RowStays(trace, steps, q, a, s);
    LogGrows(trace, steps, q, a);
    if CallsSucceed(trace, steps, a, r) { SucceedingPassApplies(trace, steps, a, r, s); }
    assert Answers(trace, steps, q, a, r, s);
  }

  // ----- what an apply has read -----

  predicate Hi(st: System, r: nat, hi: nat) {
    r < |st.runners| && st.runners[r].phase.Apply? && st.runners[r].phase.hi == hi
  }

  lemma OwnReading(st: System, r: nat, ok: bool, hi: nat, hi': nat)
    requires Inv(st) && Hi(st, r, hi) && Hi(Do(st, Run(r, ok)), r, hi')
    ensures hi' == (if ok && st.runners[r].phase.more > 0 then st.version else hi) && hi <= hi'
  {
    assert PhaseOk(st, r);
  }

  lemma ReadingStep(st: System, step: Step, r: nat, hi: nat, hi': nat)
    requires Inv(st) && Hi(st, r, hi) && Hi(Do(st, step), r, hi')
    ensures hi <= hi' && (step == Run(r, true) && st.runners[r].phase.more > 0 ==> hi' == st.version)
  {
    if Own(step, r) {
      OwnReading(st, r, step.ok, hi, hi');
    } else {
      Frame(st, step, r);
    }
  }

  /** At step `q` the pass makes one of its further queries. */
  predicate ReadsOn(trace: seq<System>, steps: seq<Step>, q: nat, r: nat) {
    && q < |steps| && q < |trace| && steps[q] == Run(r, true)
    && r < |trace[q].runners| && trace[q].runners[r].phase.Apply? && trace[q].runners[r].phase.more > 0
  }

  lemma ReadingAt(trace: seq<System>, steps: seq<Step>, n: nat, r: nat, hi: nat, hi': nat)
    requires IsTrace(trace, steps) && n < |steps| && Hi(trace[n], r, hi) && Hi(trace[n + 1], r, hi')
    ensures hi <= hi' && (ReadsOn(trace, steps, n, r) ==> hi' == trace[n].version)
  {
    TraceStep(trace, steps, n);
    ReadingStep(trace[n], steps[n], r, hi, hi');
  }

  lemma InPassBefore(trace: seq<System>, a: nat, b: nat, r: nat) returns (hi: nat)
    requires InPass(trace, a, b, r) && a + 1 < b
    ensures InPass(trace, a, b - 1, r) && Hi(trace[b - 1], r, hi)
  {
    hi := trace[b - 1].runners[r].phase.hi;
  }

  /** A pass knows the versions its queries saw. */
  lemma {:induction false} ReadsCovered(trace: seq<System>, steps: seq<Step>, a: nat, q: nat, b: nat, r: nat, hi: nat)
    requires IsTrace(trace, steps) && a < q < b <= |steps| && InPass(trace, a, b, r) && ReadsOn(trace, steps, q, r)
    requires Hi(trace[b], r, hi)
    ensures trace[q].version <= hi
    decreases b
  {
    var before := InPassBefore(trace, a, b, r);
    ReadingAt(trace, steps, b - 1, r, before, hi);
    if q < b - 1 { ReadsCovered(trace, steps, a, q, b - 1, r, before); }
  }

  /** What is applied saw the database as late as each query of its pass did. */
  lemma ApplyCoversReads(trace: seq<System>, steps: seq<Step>, a: nat, q: nat, p: nat, r: nat, e: Event)
    requires IsTrace(trace, steps) && a < q < p < |steps| && InPass(trace, a, p, r) && ReadsOn(trace, steps, q, r)
    requires steps[p] == Run(r, true) && trace[p + 1].log == trace[p].log + [e]
    ensures e.Applied? && trace[q].version <= e.hi
  {
    ReadsCovered(trace, steps, a, q, p, r, trace[p].runners[r].phase.hi);
    TraceStep(trace, steps, p);
    ApplyLogs(trace[p], r, e);
  }

  lemma ApplyLogs(st: System, r: nat, e: Event)
    requires Inv(st) && r < |st.runners| && st.runners[r].phase.Apply? && Do(st, Run(r, true)).log == st.log + [e]
    ensures e.Applied? && e.hi == st.runners[r].phase.hi
  {
    assert Do(st, Run(r, true)).log[|st.log|] == e;
    assert |Do(st, Run(r, true)).log| > |st.log|;
  }
}
