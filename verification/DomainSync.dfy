/**
  The coalescing single-flight sync of the domain rules. The request flags of the IP-block sync are the same; who
  pushes its drop lists is the subject of `IPBlockSync`.

  A request starts the background goroutine or marks the running one dirty. The goroutine, the periodic
  worker and a manual resync all contend for one mutex that is held for a whole pass: read the
  database statement by statement, then push the complete rule set.
*/
module DomainSync {
  import opened Option

  datatype Flags = Flags(running: bool, dirty: bool)
  {
    /** A request: the new flags, and whether a goroutine has to be started. */
    function Request(): (Flags, bool) {
      if running then (Flags(true, true), false) else (Flags(true, dirty), true)
    }

    /** The end of a background pass: the new flags, and whether another pass follows. */
    function AfterPass(): (Flags, bool) {
      if !dirty then (Flags(false, false), false) else (Flags(running, false), true)
    }
  }

  class SyncRequests {
    var running: bool
    var dirty: bool

    constructor ()
      ensures Flags(running, dirty) == Flags(false, false)
    {
      running, dirty := false, false;
    }

    method Request() returns (start: bool)
      modifies this
      ensures (Flags(running, dirty), start) == old(Flags(running, dirty)).Request()
    {
      if running {
        dirty := true;
        return false;
      }
      running := true;
      return true;
    }

    method AfterPass() returns (again: bool)
      modifies this
      ensures (Flags(running, dirty), again) == old(Flags(running, dirty)).AfterPass()
    {
      if !dirty {
        running := false;
        return false;
      }
      dirty := false;
      return true;
    }
  }

  // ----- the concurrent system -----

  /** `Reading(lo, hi)`: the statements run so far saw the database at versions from `lo` to `hi`. */
  datatype Phase = Waiting | Locked | Reading(lo: nat, hi: nat) | Unlocking | Check | Done

  datatype Thread = Thread(background: bool, phase: Phase)

  datatype Event =
    | Requested(version: nat)
    | PassStarted(version: nat)
    | Pushed(lo: nat, hi: nat)

  /** `runner` is the background goroutine started last; `holder` is the thread that holds the mutex. */
  datatype System = System(
    flags: Flags,
    threads: seq<Thread>,
    runner: nat,
    holder: Option<nat>,
    version: nat,
    log: seq<Event>)

  const INITIAL := System(Flags(false, false), [], 0, None, 0, [])

  datatype Choice = ReadMore | Push | Fail

  datatype Step =
    | Request
    | StartDirect
    | Commit
    | Run(thread: nat, choice: Choice)

  function Goto(st: System, t: nat, phase: Phase): System
    requires t < |st.threads|
  {
    st.(threads := st.threads[t := st.threads[t].(phase := phase)])
  }

  function RunStep(st: System, t: nat, choice: Choice): System
    requires t < |st.threads|
  {
    match st.threads[t].phase
    case Waiting =>
      if st.holder.None? then Goto(st.(holder := Some(t)), t, Locked) else st
    case Locked =>
      Goto(st.(log := st.log + [PassStarted(st.version)]), t, Reading(st.version, st.version))
    case Reading(lo, hi) =>
      (match choice
       case ReadMore => Goto(st, t, Reading(lo, st.version))
       case Push => Goto(st.(log := st.log + [Pushed(lo, hi)]), t, Unlocking)
       case Fail => Goto(st, t, Unlocking))
    case Unlocking =>
      Goto(st.(holder := None), t, if st.threads[t].background then Check else Done)
    case Check =>
      var (flags, again) := st.flags.AfterPass();
      Goto(st.(flags := flags), t, if again then Waiting else Done)
    case Done => st
  }

  function Do(st: System, step: Step): System {
    match step
    case Request =>
      var (flags, start) := st.flags.Request();
      var asked := st.(flags := flags, log := st.log + [Requested(st.version)]);
      if start then asked.(threads := st.threads + [Thread(true, Waiting)], runner := |st.threads|) else asked
    case StartDirect => st.(threads := st.threads + [Thread(false, Waiting)])
    case Commit => st.(version := st.version + 1)
    case Run(t, choice) => if t < |st.threads| then RunStep(st, t, choice) else st
  }

  // ----- the invariant -----

  predicate Holds(phase: Phase) {
    phase.Locked? || phase.Reading? || phase.Unlocking?
  }

  predicate LiveRunner(st: System, t: nat)
    requires t < |st.threads|
  {
    st.threads[t].background && st.threads[t].phase != Done
  }

  ghost predicate Structure(st: System) {
    && (forall t | 0 <= t < |st.threads| :: Holds(st.threads[t].phase) <==> st.holder == Some(t))
    && (st.holder.Some? ==> st.holder.value < |st.threads|)
    && (forall t | 0 <= t < |st.threads| && LiveRunner(st, t) :: t == st.runner)
    && (st.flags.running <==> st.runner < |st.threads| && LiveRunner(st, st.runner))
    && (!st.flags.running ==> !st.flags.dirty)
    && (forall t | 0 <= t < |st.threads| && !st.threads[t].background :: st.threads[t].phase != Check)
  }

  ghost predicate PushedUpTo(log: seq<Event>, version: nat) {
    forall i | 0 <= i < |log| && log[i].Pushed? :: log[i].hi <= version
  }

  ghost predicate Reads(st: System) {
    && PushedUpTo(st.log, st.version)
    && forall t | 0 <= t < |st.threads| && st.threads[t].phase.Reading? ::
         && st.threads[t].phase.lo <= st.threads[t].phase.hi <= st.version
         && PushedUpTo(st.log, st.threads[t].phase.lo)
  }

  ghost predicate PushesOrdered(log: seq<Event>) {
    forall i, k | 0 <= i < k < |log| && log[i].Pushed? && log[k].Pushed? :: log[i].hi <= log[k].lo
  }

  predicate Pending(st: System)
    requires Structure(st)
  {
    st.flags.running && (st.flags.dirty || st.threads[st.runner].phase in {Waiting, Locked})
  }

  predicate Serves(e: Event, version: nat) {
    e.PassStarted? && version <= e.version
  }

  ghost predicate Served(log: seq<Event>, i: nat)
    requires i < |log| && log[i].Requested?
  {
    exists k | i < k < |log| :: Serves(log[k], log[i].version)
  }

  ghost predicate RequestOk(st: System, i: nat)
    requires Structure(st) && i < |st.log|
  {
    st.log[i].Requested? ==> st.log[i].version <= st.version && (Served(st.log, i) || Pending(st))
  }

  ghost predicate Inv(st: System) {
    && Structure(st)
    && Reads(st)
    && PushesOrdered(st.log)
    && forall i | 0 <= i < |st.log| :: RequestOk(st, i)
  }

  lemma StructureKeptByRun(st: System, t: nat, choice: Choice)
    requires Structure(st) && t < |st.threads|
    ensures Structure(RunStep(st, t, choice))
  {
    var st' := RunStep(st, t, choice);
    assert st'.runner == st.runner && |st'.threads| == |st.threads|;
    assert st'.threads[t].background == st.threads[t].background;
    assert forall u | 0 <= u < |st.threads| && u != t :: st'.threads[u] == st.threads[u];
    assert LiveRunner(st, t) ==> t == st.runner;
    assert st.runner < |st.threads| ==>
      (LiveRunner(st', st.runner) <==> LiveRunner(st, st.runner) && !(t == st.runner && st'.threads[t].phase == Done));
    forall u | 0 <= u < |st'.threads| && LiveRunner(st', u) ensures u == st'.runner {
      assert LiveRunner(st, u);
    }
  }

  lemma StructureKept(st: System, step: Step)
    requires Structure(st)
    ensures Structure(Do(st, step))
  {
    var st' := Do(st, step);
    match step
    case Run(t, choice) => if t < |st.threads| { StructureKeptByRun(st, t, choice); }
    case _ =>
      forall u | 0 <= u < |st'.threads| && LiveRunner(st', u) ensures u == st'.runner {
        assert u < |st.threads| ==> LiveRunner(st, u);
      }
  }

  lemma PushedUpToGrows(log: seq<Event>, e: Event, version: nat)
    requires PushedUpTo(log, version) && (e.Pushed? ==> e.hi <= version)
    ensures PushedUpTo(log + [e], version)
  {
  }

  lemma ReadsKeptByRun(st: System, t: nat, choice: Choice)
    requires Structure(st) && Reads(st) && PushesOrdered(st.log) && t < |st.threads|
    ensures Reads(RunStep(st, t, choice)) && PushesOrdered(RunStep(st, t, choice).log)
  {
    var st' := RunStep(st, t, choice);
    assert forall u | 0 <= u < |st.threads| && u != t && Holds(st.threads[t].phase) :: !Holds(st.threads[u].phase);
    if st'.log != st.log {
      PushedUpToGrows(st.log, st'.log[|st.log|], st.version);
    }
  }

  lemma ReadsKept(st: System, step: Step)
    requires Structure(st) && Reads(st) && PushesOrdered(st.log)
    ensures Reads(Do(st, step)) && PushesOrdered(Do(st, step).log)
  {
    match step
    case Run(t, choice) => if t < |st.threads| { ReadsKeptByRun(st, t, choice); }
    case _ =>
  }

  lemma PendingOrServed(st: System, step: Step)
    requires Structure(st) && Structure(Do(st, step)) && Pending(st)
    ensures var st' := Do(st, step);
            Pending(st') || (|st'.log| == |st.log| + 1 && Serves(st'.log[|st.log|], st.version))
  {
    assert LiveRunner(st, st.runner);
    if step.Run? && step.thread < |st.threads| && step.thread != st.runner {
      assert !LiveRunner(st, step.thread);
      assert Do(st, step).threads[st.runner] == st.threads[st.runner];
    }
  }

  lemma RequestKept(st: System, step: Step, i: nat)
    requires Structure(st) && Structure(Do(st, step)) && i < |st.log| && RequestOk(st, i)
    ensures i < |Do(st, step).log| && RequestOk(Do(st, step), i)
  {
    var st' := Do(st, step);
    assert st'.log[i] == st.log[i];
    if st.log[i].Requested? {
      if Served(st.log, i) {
        var k :| i < k < |st.log| && Serves(st.log[k], st.log[i].version);
        assert st'.log[k] == st.log[k];
      } else {
        PendingOrServed(st, step);
      }
    }
  }

  lemma InvKept(st: System, step: Step)
    requires Inv(st)
    ensures Inv(Do(st, step))
  {
    StructureKept(st, step);
    ReadsKept(st, step);
    forall i | 0 <= i < |Do(st, step).log| ensures RequestOk(Do(st, step), i) {
      if i < |st.log| {
        assert RequestOk(st, i);
        RequestKept(st, step, i);
      }
    }
  }

  // ----- every run -----

  function Exec(steps: seq<Step>): System {
    if steps == [] then INITIAL else Do(Exec(steps[..|steps| - 1]), steps[|steps| - 1])
  }

  lemma {:induction false} ExecKeepsInv(steps: seq<Step>)
    ensures Inv(Exec(steps))
  {
    if steps != [] {
      ExecKeepsInv(steps[..|steps| - 1]);
      InvKept(Exec(steps[..|steps| - 1]), steps[|steps| - 1]);
    }
  }

  ghost predicate Reachable(st: System) {
    exists steps :: st == Exec(steps)
  }

  lemma ReachableInv(st: System)
    requires Reachable(st)
    ensures Inv(st)
  {
    var steps :| st == Exec(steps);
    ExecKeepsInv(steps);
  }

  /** Once no background goroutine runs, every request was followed by a pass that read the database later. */
  lemma NoRequestUnseen(st: System, i: nat)
    requires Reachable(st) && i < |st.log| && st.log[i].Requested? && !st.flags.running
    ensures Served(st.log, i)
  {
    ReachableInv(st);
    assert RequestOk(st, i);
  }

  /** There is never more than one background goroutine, and the flag tells whether there is one. */
  lemma SingleFlight(st: System, t: nat, u: nat)
    requires Reachable(st) && t < |st.threads| && u < |st.threads| && LiveRunner(st, t) && LiveRunner(st, u)
    ensures t == u && st.flags.running
  {
    ReachableInv(st);
  }

  /** A stale rule set never overwrites a fresher one: every read behind a push follows all reads behind the pushes before. */
  lemma PushesNeverGoBack(st: System, i: nat, k: nat)
    requires Reachable(st) && i < k < |st.log| && st.log[i].Pushed? && st.log[k].Pushed?
    ensures st.log[i].hi <= st.log[k].lo
  {
    ReachableInv(st);
  }

  // ----- passes come to an end -----

  /** How far a thread is from its end; a background goroutine that was asked again has another pass to make. */
  function Left(st: System, t: nat): nat
    requires t < |st.threads|
  {
    (match st.threads[t].phase
     case Waiting => 5
     case Locked => 4
     case Reading(_, _) => 3
     case Unlocking => 2
     case Check => 1
     case Done => 0)
    + (if st.threads[t].background && st.flags.dirty && st.threads[t].phase != Done then 5 else 0)
  }

  /** Reading goes on while there is something to read, and taking the mutex waits while another thread holds it. */
  predicate Advances(st: System, t: nat, choice: Choice)
    requires t < |st.threads|
  {
    match st.threads[t].phase
    case Waiting => st.holder.None?
    case Reading(_, _) => choice != ReadMore
    case Done => false
    case _ => true
  }

  /** Every other own step brings a thread nearer to its end, at most ten steps away. */
  lemma ThreadFinishes(st: System, t: nat, choice: Choice)
    requires Reachable(st) && t < |st.threads| && Advances(st, t, choice)
    ensures Left(Do(st, Run(t, choice)), t) < Left(st, t) <= 10
  {
    ReachableInv(st);
  }

  /** The holder of the mutex is on its way: four such steps and it is free. */
  lemma MutexIsReleased(st: System, t: nat, choice: Choice)
    requires Reachable(st) && st.holder == Some(t) && t < |st.threads| && Advances(st, t, choice)
    ensures var st' := Do(st, Run(t, choice));
            st'.holder.None? || (st'.holder == Some(t) && Left(st', t) < Left(st, t))
    ensures 2 <= Left(st, t) - (if st.threads[t].background && st.flags.dirty then 5 else 0) <= 4
  {
    ReachableInv(st);
  }

  /** Nothing but its own steps moves a thread, and nothing but a request asks the goroutine for another pass. */
  lemma OnlyRequestsDelay(st: System, step: Step, t: nat)
    requires Reachable(st) && t < |st.threads| && !(step.Run? && step.thread == t)
    ensures Do(st, step).threads[t] == st.threads[t]
    ensures !step.Request? && LiveRunner(st, t) ==> Left(Do(st, step), t) <= Left(st, t)
  {
    ReachableInv(st);
    if step.Run? && step.thread < |st.threads| && st.threads[step.thread].phase.Check? {
      assert LiveRunner(st, step.thread);
    }
  }
}
