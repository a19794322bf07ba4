/**
  Who writes the kernel's drop list of one server.

  The reconcile pass and the background sync hold a mutex from reading the rules to pushing them. The per-server
  queue pushes a drop list too, as a part of its apply, and does not take that mutex.
*/
module IPBlockSync {
  import opened Option

  /** `Read`: the version of the rules read, and how many lists had been pushed by then. */
  datatype Phase = Waiting | Locked | Read(version: nat, seen: nat) | Done

  /** `guarded` passes take the mutex; the others are the queue's. */
  datatype Pass = Pass(guarded: bool, phase: Phase)

  /** A list pushed: who pushed it, of which version, and how many lists had been pushed when that was read. */
  datatype Drops = Drops(guarded: bool, version: nat, seen: nat)

  /** The list pushed last is in force. */
  datatype System = System(passes: seq<Pass>, holder: Option<nat>, version: nat, pushed: seq<Drops>)

  const INITIAL := System([], None, 0, [])

  datatype Step = Start(guarded: bool) | Commit | Go(i: nat)

  function Goto(st: System, i: nat, phase: Phase): System
    requires i < |st.passes|
  {
    st.(passes := st.passes[i := st.passes[i].(phase := phase)])
  }

  function DoGo(st: System, i: nat): System
    requires i < |st.passes|
  {
    match st.passes[i].phase
    case Waiting =>
      if !st.passes[i].guarded then Goto(st, i, Read(st.version, |st.pushed|))
      else if st.holder.None? then Goto(st.(holder := Some(i)), i, Locked)
      else st
    case Locked => Goto(st, i, Read(st.version, |st.pushed|))
    case Read(version, seen) =>
      Goto(st.(pushed := st.pushed + [Drops(st.passes[i].guarded, version, seen)],
               holder := if st.passes[i].guarded then None else st.holder), i, Done)
    case Done => st
  }

  function Do(st: System, step: Step): System {
    match step
    case Start(guarded) => st.(passes := st.passes + [Pass(guarded, Waiting)])
    case Commit => st.(version := st.version + 1)
    case Go(i) => if i < |st.passes| then DoGo(st, i) else st
  }

  function Run(steps: seq<Step>): System {
    if steps == [] then INITIAL else Do(Run(steps[..|steps| - 1]), steps[|steps| - 1])
  }

  /** The passes of the queue in a run. */
  function QueuePasses(steps: seq<Step>): nat {
    if steps == [] then 0
    else QueuePasses(steps[..|steps| - 1]) + (if steps[|steps| - 1] == Start(false) then 1 else 0)
  }

  ghost predicate NeverBack(pushed: seq<Drops>) {
    forall x, y | 0 <= x < y < |pushed| :: pushed[x].version <= pushed[y].version
  }

  /** A newer list was pushed between the read and the push of list `y`. */
  predicate Overtaken(pushed: seq<Drops>, x: nat, y: nat) {
    x < y < |pushed| && pushed[y].seen <= x && pushed[x].version > pushed[y].version
  }

  // ----- what every step keeps -----

  ghost predicate UpTo(pushed: seq<Drops>, n: nat, version: nat) {
    n <= |pushed| && forall x | 0 <= x < n :: pushed[x].version <= version
  }

  /** What was pushed before a read is no newer than the read. */
  ghost predicate ReadOk(st: System, pass: Pass) {
    pass.phase.Read? ==> pass.phase.version <= st.version && UpTo(st.pushed, pass.phase.seen, pass.phase.version)
  }

  predicate Holds(pass: Pass) { pass.guarded && (pass.phase.Locked? || pass.phase.Read?) }

  /** Between a guarded read and its push no other guarded pass pushes. */
  ghost predicate Alone(st: System, pass: Pass) {
    Holds(pass) && pass.phase.Read? ==> forall x | pass.phase.seen <= x < |st.pushed| :: !st.pushed[x].guarded
  }

  ghost predicate Apart(pushed: seq<Drops>, x: nat, y: nat) {
    x < y < |pushed| && pushed[x].guarded && pushed[y].guarded ==> x < pushed[y].seen
  }

  ghost predicate Inv(st: System) {
    && (forall i | 0 <= i < |st.passes| :: Holds(st.passes[i]) ==> st.holder == Some(i))
    && (forall i | 0 <= i < |st.passes| :: st.passes[i].phase.Locked? ==> st.passes[i].guarded)
    && (forall i | 0 <= i < |st.passes| :: ReadOk(st, st.passes[i]) && Alone(st, st.passes[i]))
    && UpTo(st.pushed, |st.pushed|, st.version)
    && (forall y | 0 <= y < |st.pushed| :: UpTo(st.pushed, st.pushed[y].seen, st.pushed[y].version))
    && (forall x, y | 0 <= x < y < |st.pushed| :: Apart(st.pushed, x, y))
  }

  lemma PushKeepsInv(st: System, i: nat)
    requires Inv(st) && i < |st.passes| && st.passes[i].phase.Read?
    ensures Inv(DoGo(st, i))
  {
    var st' := DoGo(st, i);
    assert ReadOk(st, st.passes[i]) && Alone(st, st.passes[i]);
    forall j | 0 <= j < |st'.passes| ensures ReadOk(st', st'.passes[j]) && Alone(st', st'.passes[j]) {
      assert ReadOk(st, st.passes[j]) && Alone(st, st.passes[j]);
      assert j != i && Holds(st.passes[j]) ==> !Holds(st.passes[i]);
    }
    forall x, y | 0 <= x < y < |st'.pushed| ensures Apart(st'.pushed, x, y) {
      if y < |st.pushed| { assert Apart(st.pushed, x, y); }
    }
  }

  lemma OtherStepKeepsInv(st: System, step: Step)
    requires Inv(st) && !(step.Go? && step.i < |st.passes| && st.passes[step.i].phase.Read?)
    ensures Inv(Do(st, step))
  {
    var st' := Do(st, step);
    forall j | 0 <= j < |st'.passes| ensures ReadOk(st', st'.passes[j]) && Alone(st', st'.passes[j]) {
      if j < |st.passes| { assert ReadOk(st, st.passes[j]) && Alone(st, st.passes[j]); }
    }
  }

  lemma {:induction false} RunKeepsInv(steps: seq<Step>)
    ensures Inv(Run(steps))
  {
    if steps != [] {
      var st, step := Run(steps[..|steps| - 1]), steps[|steps| - 1];
      RunKeepsInv(steps[..|steps| - 1]);
      if step.Go? && step.i < |st.passes| && st.passes[step.i].phase.Read? {
        PushKeepsInv(st, step.i);
      } else {
        OtherStepKeepsInv(st, step);
      }
    }
  }

  // ----- exactly when a stale list lands -----

  /** In every run the lists go back exactly when some list is pushed after a newer one was pushed since its read. */
  lemma GoesBackExactly(steps: seq<Step>)
    ensures NeverBack(Run(steps).pushed) <==>
              forall x: nat, y: nat | x < y < |Run(steps).pushed| :: !Overtaken(Run(steps).pushed, x, y)
  {
    RunKeepsInv(steps);
    var pushed := Run(steps).pushed;
    forall x: nat, y: nat | x < y < |pushed| && pushed[x].version > pushed[y].version ensures Overtaken(pushed, x, y) {
      assert UpTo(pushed, pushed[y].seen, pushed[y].version);
    }
  }

  /** The passes of the mutex never do that to each other: one of the two is the queue's. */
  lemma OvertakingTakesTheQueue(steps: seq<Step>, x: nat, y: nat)
    requires Overtaken(Run(steps).pushed, x, y)
    ensures !Run(steps).pushed[x].guarded || !Run(steps).pushed[y].guarded
  {
    RunKeepsInv(steps);
    assert Apart(Run(steps).pushed, x, y);
  }

  lemma {:induction false} WithoutTheQueue(steps: seq<Step>)
    requires QueuePasses(steps) == 0
    ensures forall i | 0 <= i < |Run(steps).passes| :: Run(steps).passes[i].guarded
    ensures forall x | 0 <= x < |Run(steps).pushed| :: Run(steps).pushed[x].guarded
  {
    if steps != [] { WithoutTheQueue(steps[..|steps| - 1]); }
  }

  // ----- both ways round -----

  lemma OneMoreStep(steps: seq<Step>, step: Step)
    ensures Run(steps + [step]) == Do(Run(steps), step)
    ensures QueuePasses(steps + [step]) == QueuePasses(steps) + (if step == Start(false) then 1 else 0)
  {
    assert (steps + [step])[..|steps|] == steps;
  }

  function QueueReadsFirst(): seq<Step> {
    [] + [Start(false)] + [Go(0)] + [Commit] + [Start(true)] + [Go(1)]
  }

  /** The queue reads, the rules change, a guarded pass pushes the new list, and the queue pushes the old one over it. */
  function StaleRun(): seq<Step> {
    QueueReadsFirst() + [Go(1)] + [Go(1)] + [Go(0)]
  }

  lemma QueueReadsFirstWorld()
    ensures QueuePasses(QueueReadsFirst()) == 1
    ensures Run(QueueReadsFirst()) == System([Pass(false, Read(0, 0)), Pass(true, Locked)], Some(1), 1, [])
  {
    OneMoreStep([], Start(false));
    OneMoreStep([] + [Start(false)], Go(0));
    OneMoreStep([] + [Start(false)] + [Go(0)], Commit);
    OneMoreStep([] + [Start(false)] + [Go(0)] + [Commit], Start(true));
    OneMoreStep([] + [Start(false)] + [Go(0)] + [Commit] + [Start(true)], Go(1));
  }

  lemma StaleRunGoesBack()
    ensures QueuePasses(StaleRun()) == 1
    ensures Run(StaleRun()).pushed == [Drops(true, 1, 0), Drops(false, 0, 0)]
  {
    QueueReadsFirstWorld();
    OneMoreStep(QueueReadsFirst(), Go(1));
    OneMoreStep(QueueReadsFirst() + [Go(1)], Go(1));
    OneMoreStep(QueueReadsFirst() + [Go(1)] + [Go(1)], Go(0));
  }

  function MutexReadsFirst(): seq<Step> {
    [] + [Start(true)] + [Go(0)] + [Go(0)] + [Commit] + [Start(false)]
  }

  /** A guarded pass reads, the rules change, the queue pushes the new list, and the guarded pass the old one over it. */
  function StaleMutexRun(): seq<Step> {
    MutexReadsFirst() + [Go(1)] + [Go(1)] + [Go(0)]
  }

  lemma MutexReadsFirstWorld()
    ensures QueuePasses(MutexReadsFirst()) == 1
    ensures Run(MutexReadsFirst()) == System([Pass(true, Read(0, 0)), Pass(false, Waiting)], Some(0), 1, [])
  {
    OneMoreStep([], Start(true));
    OneMoreStep([] + [Start(true)], Go(0));
    OneMoreStep([] + [Start(true)] + [Go(0)], Go(0));
    OneMoreStep([] + [Start(true)] + [Go(0)] + [Go(0)], Commit);
    OneMoreStep([] + [Start(true)] + [Go(0)] + [Go(0)] + [Commit], Start(false));
  }

  lemma StaleMutexRunGoesBack()
    ensures QueuePasses(StaleMutexRun()) == 1
    ensures Run(StaleMutexRun()).pushed == [Drops(false, 1, 0), Drops(true, 0, 0)]
  {
    MutexReadsFirstWorld();
    OneMoreStep(MutexReadsFirst(), Go(1));
    OneMoreStep(MutexReadsFirst() + [Go(1)], Go(1));
    OneMoreStep(MutexReadsFirst() + [Go(1)] + [Go(1)], Go(0));
  }

  /** Over all runs with at most so many passes of the queue, the lists never go back exactly when there are none. */
  lemma NeverBackExactly(queuePasses: nat)
    ensures (forall steps | QueuePasses(steps) <= queuePasses :: NeverBack(Run(steps).pushed)) <==> queuePasses == 0
  {
    if queuePasses == 0 {
      forall steps | QueuePasses(steps) <= queuePasses ensures NeverBack(Run(steps).pushed) {
        WithoutTheQueue(steps);
        GoesBackExactly(steps);
        forall x: nat, y: nat | x < y < |Run(steps).pushed| ensures !Overtaken(Run(steps).pushed, x, y) {
          if Overtaken(Run(steps).pushed, x, y) { OvertakingTakesTheQueue(steps, x, y); }
        }
      }
    } else {
      StaleRunGoesBack();
      assert Run(StaleRun()).pushed[0].version > Run(StaleRun()).pushed[1].version;
      assert !NeverBack(Run(StaleRun()).pushed);
    }
  }
}
