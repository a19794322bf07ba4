/**
  The per-address login lockout: too many failures lock the address out for a while, and idle entries are
  swept away.

  Times are nanoseconds; 0 is the unset time, long before every clock reading.
*/
module LoginLockout {
  type Ip = string
  type Time = nat

  const IDLE_TTL := 15 * 60 * 1_000_000_000

  datatype Entry = Entry(failures: int, lockedUntil: Time, lastSeen: Time)

  predicate Idle(e: Entry, now: Time) { now - e.lastSeen > IDLE_TTL }

  predicate Stale(e: Entry, now: Time) { Idle(e, now) && e.lockedUntil <= now }

  datatype Tracker = Tracker(entries: map<Ip, Entry>, lastSweep: Time)
  {
    function Sweep(now: Time): Tracker {
      if now - lastSweep < IDLE_TTL then this
      else Tracker(map ip | ip in entries && !Stale(entries[ip], now) :: entries[ip], now)
    }

    function Remaining(ip: Ip, now: Time): (Tracker, int) {
      if ip !in entries then (this, 0)
      else if now < entries[ip].lockedUntil then (this, entries[ip].lockedUntil - now)
      else
        var e := if entries[ip].lockedUntil != 0 then entries[ip].(lockedUntil := 0, failures := 0) else entries[ip];
        (this.(entries := if Idle(e, now) then entries - {ip} else entries[ip := e]), 0)
    }

    /** Counting one failure, without the sweep. */
    function Count(ip: Ip, now: Time, threshold: int, duration: nat): (Tracker, int) {
      var e := if ip in entries then entries[ip] else Entry(0, 0, 0);
      var failures := (if Stale(e, now) then 0 else e.failures) + 1;
      if failures >= threshold then (this.(entries := entries[ip := Entry(0, now + duration, now)]), duration)
      else (this.(entries := entries[ip := Entry(failures, e.lockedUntil, now)]), 0)
    }

    function RecordFailure(ip: Ip, now: Time, threshold: int, duration: nat): (Tracker, int) {
      Sweep(now).Count(ip, now, threshold, duration)
    }

    function Reset(ip: Ip): Tracker {
      this.(entries := entries - {ip})
    }
  }

  class LoginLockoutTracker {
    var entries: map<Ip, Entry>
    var lastSweep: Time

    ghost function Now(): Tracker
      reads this
    {
      Tracker(entries, lastSweep)
    }

    constructor ()
      ensures Now() == Tracker(map[], 0)
    {
      entries, lastSweep := map[], 0;
    }

    method SweepLocked(now: Time)
      modifies this
      ensures Now() == old(Now()).Sweep(now)
    {
      if now - lastSweep < IDLE_TTL {
        return;
      }
      var todo := entries.Keys;
      while todo != {}
        invariant todo <= entries.Keys <= old(entries).Keys && lastSweep == old(lastSweep)
        invariant forall ip | ip in entries :: entries[ip] == old(entries)[ip]
        invariant forall ip | ip in old(entries) && ip !in todo :: ip in entries <==> !Stale(old(entries)[ip], now)
        decreases todo
      {
        var ip :| ip in todo;
        todo := todo - {ip};
        if now - entries[ip].lastSeen > IDLE_TTL && !(now < entries[ip].lockedUntil) {
          entries := entries - {ip};
        }
      }
      lastSweep := now;
    }

    method Remaining(ip: Ip, now: Time) returns (left: int)
      modifies this
      ensures (Now(), left) == old(Now()).Remaining(ip, now)
    {
      if ip !in entries {
        return 0;
      }
      var e := entries[ip];
      if now < e.lockedUntil {
        return e.lockedUntil - now;
      }
      if e.lockedUntil != 0 {
        e := e.(lockedUntil := 0, failures := 0);
      }
      entries := entries[ip := e];
      if now - e.lastSeen > IDLE_TTL {
        entries := entries - {ip};
      }
      assert entries == old(Now()).Remaining(ip, now).0.entries;
      return 0;
    }

    method RecordFailure(ip: Ip, now: Time, threshold: int, duration: nat) returns (locked: int)
      modifies this
      ensures (Now(), locked) == old(Now()).RecordFailure(ip, now, threshold, duration)
    {
      SweepLocked(now);
      if ip !in entries {
        entries := entries[ip := Entry(0, 0, 0)];
      }
      var e := entries[ip];
      if now - e.lastSeen > IDLE_TTL && !(now < e.lockedUntil) {
        e := e.(failures := 0);
      }
      e := e.(failures := e.failures + 1, lastSeen := now);
      if e.failures >= threshold {
        entries := entries[ip := e.(lockedUntil := now + duration, failures := 0)];
        assert entries == old(Now()).RecordFailure(ip, now, threshold, duration).0.entries;
        return duration;
      }
      entries := entries[ip := e];
      assert entries == old(Now()).RecordFailure(ip, now, threshold, duration).0.entries;
      return 0;
    }

    method Reset(ip: Ip)
      modifies this
      ensures Now() == old(Now()).Reset(ip)
    {
      entries := entries - {ip};
    }
  }

  // ----- runs -----

  /** The critical sections of the callers: a login asks, and counts a wrong password later; others only count. */
  datatype Op =
    | Ask(ip: Ip, now: Time)
    | Fail(ip: Ip, now: Time, threshold: int, duration: nat)
    | Clear(ip: Ip, now: Time)

  /** One operation and what its caller sees; `sweeping` is false for the reference that never sweeps. */
  function Do(t: Tracker, op: Op, sweeping: bool): (Tracker, int) {
    match op
    case Ask(ip, now) => t.Remaining(ip, now)
    case Fail(ip, now, threshold, duration) => (if sweeping then t.Sweep(now) else t).Count(ip, now, threshold, duration)
    case Clear(ip, _) => (t.Reset(ip), 0)
  }

  function Run(ops: seq<Op>, sweeping: bool): (Tracker, seq<int>) {
    if ops == [] then (Tracker(map[], 0), [])
    else
      var (t, seen) := Run(ops[..|ops| - 1], sweeping);
      var (t', answer) := Do(t, ops[|ops| - 1], sweeping);
      (t', seen + [answer])
  }

  ghost predicate ClockMovesForward(ops: seq<Op>) {
    forall i, j | 0 <= i < j < |ops| :: ops[i].now <= ops[j].now
  }

  lemma RunAppend(ops: seq<Op>, op: Op, sweeping: bool)
    ensures Run(ops + [op], sweeping).0 == Do(Run(ops, sweeping).0, op, sweeping).0
    ensures Run(ops + [op], sweeping).1 == Run(ops, sweeping).1 + [Do(Run(ops, sweeping).0, op, sweeping).1]
  {
    assert (ops + [op])[..|ops|] == ops;
  }

  lemma {:induction false} AnswersGrow(ops: seq<Op>, k: nat, sweeping: bool)
    requires k < |ops|
    ensures |Run(ops, sweeping).1| == |ops|
    ensures Run(ops, sweeping).1[k] == Do(Run(ops[..k], sweeping).0, ops[k], sweeping).1
  {
    var n := |ops| - 1;
    if n > 0 { AnswersGrow(ops[..n], if k < n then k else 0, sweeping); }
    if k < n { assert ops[..n][..k] == ops[..k]; }
  }

  // ----- a lock lasts -----

  ghost predicate LockedUntil(t: Tracker, ip: Ip, until: Time) {
    ip in t.entries && t.entries[ip].lockedUntil >= until
  }

  /** The operation neither resets the address nor happens after the lock, and it locks for `duration`. */
  ghost predicate DuringLock(op: Op, ip: Ip, start: Time, duration: nat) {
    && start <= op.now < start + duration
    && !(op.Clear? && op.ip == ip)
    && (op.Fail? ==> op.duration == duration)
  }

  lemma StepKeepsLock(t: Tracker, op: Op, ip: Ip, start: Time, duration: nat)
    requires LockedUntil(t, ip, start + duration) && DuringLock(op, ip, start, duration)
    ensures LockedUntil(Do(t, op, true).0, ip, start + duration)
  {
  }

  function RunFrom(t: Tracker, ops: seq<Op>): Tracker {
    if ops == [] then t else Do(RunFrom(t, ops[..|ops| - 1]), ops[|ops| - 1], true).0
  }

  /** A lock started at `start` is still reported in full at any time before its end, whatever happens to any address meanwhile. */
  lemma LockLasts(t: Tracker, ip: Ip, start: Time, threshold: int, duration: nat, ops: seq<Op>, now: Time)
    requires t.RecordFailure(ip, start, threshold, duration).1 > 0
    requires forall i | 0 <= i < |ops| :: DuringLock(ops[i], ip, start, duration)
    requires now < start + duration
    ensures RunFrom(t.RecordFailure(ip, start, threshold, duration).0, ops).Remaining(ip, now).1 >= start + duration - now
  {
    LockSurvives(t.RecordFailure(ip, start, threshold, duration).0, ip, start, duration, ops);
  }

  lemma {:induction false} LockSurvives(t: Tracker, ip: Ip, start: Time, duration: nat, ops: seq<Op>)
    requires LockedUntil(t, ip, start + duration)
    requires forall i | 0 <= i < |ops| :: DuringLock(ops[i], ip, start, duration)
    ensures LockedUntil(RunFrom(t, ops), ip, start + duration)
  {
    if ops != [] {
      LockSurvives(t, ip, start, duration, ops[..|ops| - 1]);
      StepKeepsLock(RunFrom(t, ops[..|ops| - 1]), ops[|ops| - 1], ip, start, duration);
    }
  }

  // ----- locks are paid for -----

  /** The failures an operation counts against `ip`, and the locks it starts. */
  function Counted(op: Op, ip: Ip): nat {
    if op.Fail? && op.ip == ip then 1 else 0
  }

  function Locks(t: Tracker, op: Op, ip: Ip): nat {
    if Counted(op, ip) == 0 then 0
    else
      var e := if ip in t.Sweep(op.now).entries then t.Sweep(op.now).entries[ip] else Entry(0, 0, 0);
      if (if Stale(e, op.now) then 0 else e.failures) + 1 >= op.threshold then 1 else 0
  }

  function TotalCounted(ops: seq<Op>, ip: Ip): nat {
    if ops == [] then 0 else TotalCounted(ops[..|ops| - 1], ip) + Counted(ops[|ops| - 1], ip)
  }

  function TotalLocks(ops: seq<Op>, ip: Ip): nat {
    if ops == [] then 0
    else TotalLocks(ops[..|ops| - 1], ip) + Locks(Run(ops[..|ops| - 1], true).0, ops[|ops| - 1], ip)
  }

  function Failures(t: Tracker, ip: Ip): int {
    if ip in t.entries then t.entries[ip].failures else 0
  }

  lemma StepPays(t: Tracker, op: Op, ip: Ip, threshold: int)
    requires Failures(t, ip) >= 0
    requires op.Fail? ==> op.threshold == threshold
    ensures Failures(Do(t, op, true).0, ip) >= 0
    ensures threshold * Locks(t, op, ip) + Failures(Do(t, op, true).0, ip) <= Failures(t, ip) + Counted(op, ip)
  {
    if Locks(t, op, ip) == 1 { assert threshold * Locks(t, op, ip) == threshold; }
  }

  /** The number of locks of an address times the threshold never exceeds the failures counted against it. */
  lemma {:induction false} LocksArePaidFor(ops: seq<Op>, ip: Ip, threshold: int)
    requires forall i | 0 <= i < |ops| && ops[i].Fail? :: ops[i].threshold == threshold
    ensures threshold * TotalLocks(ops, ip) + Failures(Run(ops, true).0, ip) <= TotalCounted(ops, ip)
    ensures Failures(Run(ops, true).0, ip) >= 0
  {
    if ops == [] {
      assert threshold * TotalLocks(ops, ip) == 0;
    } else {
      var before := ops[..|ops| - 1];
      var last := ops[|ops| - 1];
      LocksArePaidFor(before, ip, threshold);
      StepPays(Run(before, true).0, last, ip, threshold);
      var locks := Locks(Run(before, true).0, last, ip);
      assert threshold * (TotalLocks(before, ip) + locks) == threshold * TotalLocks(before, ip) + threshold * locks;
    }
  }

  // ----- sweeping cannot be observed by those who ask -----

  /** The sweeping tracker has lost nothing but stale entries. */
  ghost predicate Refines(swept: Tracker, full: Tracker, now: Time) {
    && (forall ip | ip in swept.entries :: ip in full.entries && full.entries[ip] == swept.entries[ip])
    && (forall ip | ip in full.entries && ip !in swept.entries :: Stale(full.entries[ip], now))
  }

  lemma AskRefines(swept: Tracker, full: Tracker, before: Time, ip: Ip, now: Time)
    requires Refines(swept, full, before) && before <= now
    ensures swept.Remaining(ip, now).1 == full.Remaining(ip, now).1
    ensures Refines(swept.Remaining(ip, now).0, full.Remaining(ip, now).0, now)
  {
  }

  lemma SweepRefines(swept: Tracker, full: Tracker, before: Time, now: Time)
    requires Refines(swept, full, before) && before <= now
    ensures Refines(swept.Sweep(now), full, now)
  {
  }

  /** A swept entry that is counted on again must not remember a lock. */
  predicate Forgotten(swept: Tracker, full: Tracker, ip: Ip) {
    ip in full.entries && ip !in swept.entries ==> full.entries[ip].lockedUntil == 0
  }

  lemma CountRefines(swept: Tracker, full: Tracker, ip: Ip, now: Time, threshold: int, duration: nat)
    requires Refines(swept, full, now) && Forgotten(swept, full, ip)
    ensures swept.Count(ip, now, threshold, duration).1 == full.Count(ip, now, threshold, duration).1
    ensures Refines(swept.Count(ip, now, threshold, duration).0, full.Count(ip, now, threshold, duration).0, now)
  {
  }

  /** An earlier question for the address was answered "not locked", less than the idle time before. */
  ghost predicate Asked(before: seq<Op>, answers: seq<int>, op: Op) {
    exists i | 0 <= i < |before| && i < |answers| ::
      before[i].Ask? && before[i].ip == op.ip && answers[i] == 0 && op.now - before[i].now <= IDLE_TTL
  }

  ghost predicate Bare(before: seq<Op>, op: Op) {
    op.Fail? && !Asked(before, Run(before, true).1, op)
  }

  /** The counts of a run that no question precedes. */
  ghost function BareCounts(ops: seq<Op>): nat {
    if ops == [] then 0
    else BareCounts(ops[..|ops| - 1]) + (if Bare(ops[..|ops| - 1], ops[|ops| - 1]) then 1 else 0)
  }

  /** Since a question was answered "not locked" the address was locked, if at all, by a failure counted later. */
  predicate LockIsNewer(t: Tracker, ip: Ip, asked: Time) {
    ip in t.entries ==> t.entries[ip].lockedUntil == 0 || t.entries[ip].lastSeen >= asked
  }

  lemma StaysNewer(t: Tracker, op: Op, ip: Ip, asked: Time)
    requires LockIsNewer(t, ip, asked) && asked <= op.now
    ensures LockIsNewer(Do(t, op, false).0, ip, asked)
  {
  }

  lemma AnsweredMeansNewer(t: Tracker, ip: Ip, now: Time)
    requires t.Remaining(ip, now).1 == 0
    ensures LockIsNewer(t.Remaining(ip, now).0, ip, now)
  {
  }

  lemma {:induction false} NewerSinceAsked(ops: seq<Op>, i: nat)
    requires ClockMovesForward(ops) && i < |ops| && ops[i].Ask? && Do(Run(ops[..i], false).0, ops[i], false).1 == 0
    ensures LockIsNewer(Run(ops, false).0, ops[i].ip, ops[i].now)
  {
    var n := |ops| - 1;
    if i == n {
      AnsweredMeansNewer(Run(ops[..n], false).0, ops[n].ip, ops[n].now);
    } else {
      assert ops[..n][..i] == ops[..i];
      NewerSinceAsked(ops[..n], i);
      StaysNewer(Run(ops[..n], false).0, ops[n], ops[i].ip, ops[i].now);
    }
  }

  function LastTime(ops: seq<Op>): Time {
    if ops == [] then 0 else ops[|ops| - 1].now
  }

  lemma AskedMeansForgotten(before: seq<Op>, op: Op)
    requires ClockMovesForward(before) && LastTime(before) <= op.now && op.Fail?
    requires Asked(before, Run(before, false).1, op)
    requires Refines(Run(before, true).0, Run(before, false).0, op.now)
    ensures Forgotten(Run(before, true).0.Sweep(op.now), Run(before, false).0, op.ip)
  {
    var i :| 0 <= i < |before| && i < |Run(before, false).1| && before[i].Ask? && before[i].ip == op.ip
      && Run(before, false).1[i] == 0 && op.now - before[i].now <= IDLE_TTL;
    AnswersGrow(before, i, false);
    NewerSinceAsked(before, i);
  }

  lemma StepRefines(swept: Tracker, full: Tracker, before: Time, op: Op)
    requires Refines(swept, full, before) && before <= op.now
    requires op.Fail? ==> Forgotten(swept.Sweep(op.now), full, op.ip)
    ensures Do(swept, op, true).1 == Do(full, op, false).1
    ensures Refines(Do(swept, op, true).0, Do(full, op, false).0, op.now)
  {
    match op
    case Ask(ip, now) => AskRefines(swept, full, before, ip, now);
    case Fail(ip, now, threshold, duration) =>
      SweepRefines(swept, full, before, now);
      CountRefines(swept.Sweep(now), full, ip, now, threshold, duration);
    case Clear(_, _) =>
  }

  lemma {:induction false} RunRefines(ops: seq<Op>)
    requires ClockMovesForward(ops) && BareCounts(ops) == 0
    ensures Run(ops, true).1 == Run(ops, false).1
    ensures Refines(Run(ops, true).0, Run(ops, false).0, LastTime(ops))
  {
    if ops != [] {
      var before, op := ops[..|ops| - 1], ops[|ops| - 1];
      RunRefines(before);
      assert before + [op] == ops;
      var swept, full := Run(before, true).0, Run(before, false).0;
      assert Refines(swept, full, op.now);
      if op.Fail? { AskedMeansForgotten(before, op); }
      StepRefines(swept, full, LastTime(before), op);
    }
  }

  /**
    However the sections of all callers interleave: when every failure is counted less than the idle time after a
    question for its address was answered "not locked", all answers are those of a tracker that never sweeps.
  */
  lemma SweepIsUnobservable(ops: seq<Op>)
    requires ClockMovesForward(ops) && BareCounts(ops) == 0
    ensures Run(ops, true).1 == Run(ops, false).1
  {
    RunRefines(ops);
  }

  // ----- exactly when nobody can tell -----

  ghost predicate OnePolicy(ops: seq<Op>, threshold: int, duration: nat) {
    forall i | 0 <= i < |ops| && ops[i].Fail? :: ops[i].threshold == threshold && ops[i].duration == duration
  }

  /** A run of callers under one policy, with at most `n` counts that no question precedes. */
  ghost predicate IsRun(ops: seq<Op>, threshold: int, duration: nat, n: nat) {
    ClockMovesForward(ops) && OnePolicy(ops, threshold, duration) && BareCounts(ops) <= n
  }

  ghost predicate NoNegative(t: Tracker) {
    forall ip | ip in t.entries :: t.entries[ip].failures >= 0
  }

  lemma {:induction false} AtOnceRefines(ops: seq<Op>, threshold: int, duration: nat)
    requires ClockMovesForward(ops) && OnePolicy(ops, threshold, duration) && threshold <= 1
    ensures Run(ops, true).1 == Run(ops, false).1
    ensures Refines(Run(ops, true).0, Run(ops, false).0, LastTime(ops)) && NoNegative(Run(ops, false).0)
  {
    if ops != [] {
      var before, op := ops[..|ops| - 1], ops[|ops| - 1];
      AtOnceRefines(before, threshold, duration);
      StepAtOnce(Run(before, true).0, Run(before, false).0, LastTime(before), op);
    }
  }

  lemma StepAtOnce(swept: Tracker, full: Tracker, before: Time, op: Op)
    requires Refines(swept, full, before) && NoNegative(full) && before <= op.now && (op.Fail? ==> op.threshold <= 1)
    ensures Do(swept, op, true).1 == Do(full, op, false).1
    ensures Refines(Do(swept, op, true).0, Do(full, op, false).0, op.now) && NoNegative(Do(full, op, false).0)
  {
    match op
    case Ask(ip, now) => AskRefines(swept, full, before, ip, now);
    case Fail(ip, now, _, _) => SweepRefines(swept, full, before, now);
    case Clear(_, _) =>
  }

  lemma {:induction false} NoDurationNoAnswers(ops: seq<Op>, threshold: int, sweeping: bool)
    requires ClockMovesForward(ops) && OnePolicy(ops, threshold, 0)
    ensures |Run(ops, sweeping).1| == |ops| && forall k | 0 <= k < |ops| :: Run(ops, sweeping).1[k] == 0
    ensures forall ip | ip in Run(ops, sweeping).0.entries :: Run(ops, sweeping).0.entries[ip].lockedUntil <= LastTime(ops)
  {
    if ops != [] {
      NoDurationNoAnswers(ops[..|ops| - 1], threshold, sweeping);
      assert LastTime(ops[..|ops| - 1]) <= LastTime(ops);
    }
  }

  /** What both trackers know of the one address, when the run has come to `now`. */
  ghost predicate Knows(ops: seq<Op>, swept: Entry, full: Entry, now: Time) {
    && Run(ops, true).0.entries == map["ip" := swept] && Run(ops, true).0.lastSweep <= now
    && Run(ops, false).0.entries == map["ip" := full]
  }

  /** The run has come to `now`, under one policy. */
  ghost predicate Timed(ops: seq<Op>, now: Time, threshold: int, duration: nat) {
    LastTime(ops) == now && ClockMovesForward(ops) && OnePolicy(ops, threshold, duration)
  }

  /** The question that covers the coming counts. */
  ghost predicate Covers(ops: seq<Op>, i: nat, now: Time) {
    i < |ops| && ops[i] == Ask("ip", now) && |Run(ops, true).1| == |ops| && Run(ops, true).1[i] == 0
  }

  lemma Later(ops: seq<Op>, op: Op, now: Time, threshold: int, duration: nat)
    requires Timed(ops, now, threshold, duration) && now <= op.now
    requires op.Fail? ==> op.threshold == threshold && op.duration == duration
    ensures Timed(ops + [op], op.now, threshold, duration)
  {
    forall j, k | 0 <= j < k < |ops + [op]| ensures (ops + [op])[j].now <= (ops + [op])[k].now {
      if k == |ops| && j < |ops| - 1 { assert ops[j].now <= ops[|ops| - 1].now; }
    }
  }

  lemma CoveredIsNotBare(ops: seq<Op>, i: nat, now: Time, op: Op)
    requires Covers(ops, i, now) && op.ip == "ip" && op.now == now
    ensures op.Fail? ==> BareCounts(ops + [op]) == BareCounts(ops)
    ensures Covers(ops + [op], i, now)
  {
    assert (ops + [op])[..|ops|] == ops;
    RunAppend(ops, op, true);
    assert ops[i].Ask? && now - ops[i].now <= IDLE_TTL;
  }

  /** Both trackers have counted on since the question, and no lock is remembered. */
  ghost predicate Built(ops: seq<Op>, a: int, b: int, i: nat, now: Time) {
    Knows(ops, Entry(a, 0, now), Entry(b, 0, now), now) && Covers(ops, i, now)
  }

  lemma OneFail(ops: seq<Op>, a: int, b: int, i: nat, now: Time, threshold: int, duration: nat)
    requires Built(ops, a, b, i, now) && a + 1 < threshold && b + 1 < threshold
    ensures var all := ops + [Fail("ip", now, threshold, duration)];
            Built(all, a + 1, b + 1, i, now) && BareCounts(all) == BareCounts(ops)
  {
    var op := Fail("ip", now, threshold, duration);
    CoveredIsNotBare(ops, i, now, op);
    RunAppend(ops, op, true);
    RunAppend(ops, op, false);
    assert Run(ops, true).0.Sweep(now).entries == map["ip" := Entry(a, 0, now)];
  }

  /** The run, and `k` more failures. */
  function Failing(ops: seq<Op>, now: Time, threshold: int, duration: nat, k: nat): seq<Op>
    decreases k
  {
    if k == 0 then ops else Failing(ops + [Fail("ip", now, threshold, duration)], now, threshold, duration, k - 1)
  }

  lemma {:induction false} ManyFails(ops: seq<Op>, a: int, b: int, i: nat, now: Time, threshold: int, duration: nat, k: nat)
    requires Built(ops, a, b, i, now) && a + k < threshold && b + k < threshold
    ensures Built(Failing(ops, now, threshold, duration, k), a + k, b + k, i, now)
    ensures BareCounts(Failing(ops, now, threshold, duration, k)) == BareCounts(ops)
    decreases k
  {
    if k > 0 {
      OneFail(ops, a, b, i, now, threshold, duration);
      ManyFails(ops + [Fail("ip", now, threshold, duration)], a + 1, b + 1, i, now, threshold, duration, k - 1);
    }
  }

  const NOON: Time := 4 * IDLE_TTL

  function Evening(duration: nat): Time { NOON + duration + 2 * IDLE_TTL }

  /** Locked out at noon: the first failure, and as many as it takes. */
  function Noon(threshold: int, duration: nat): seq<Op>
    requires threshold >= 2
  {
    Failing([Ask("ip", NOON)] + [Fail("ip", NOON, threshold, duration)], NOON, threshold, duration, threshold - 2)
  }

  lemma NoonKnows(threshold: int, duration: nat)
    requires threshold >= 2
    ensures Built(Noon(threshold, duration), threshold - 1, threshold - 1, 0, NOON)
    ensures BareCounts(Noon(threshold, duration)) == 0
  {
    var ask, first := Ask("ip", NOON), Fail("ip", NOON, threshold, duration);
    FirstQuestion();
    CoveredIsNotBare([ask], 0, NOON, first);
    RunAppend([ask], first, true);
    RunAppend([ask], first, false);
    ManyFails([ask] + [first], 1, 1, 0, NOON, threshold, duration, threshold - 2);
  }

  lemma FirstOp(op: Op, sweeping: bool)
    ensures Run([op], sweeping).0 == Do(Tracker(map[], 0), op, sweeping).0
    ensures Run([op], sweeping).1 == [Do(Tracker(map[], 0), op, sweeping).1]
  {
    assert [op][..0] == [];
    assert Run([], sweeping) == (Tracker(map[], 0), []);
  }

  lemma NothingKnown(ip: Ip, now: Time, sweeping: bool)
    ensures Do(Tracker(map[], 0), Ask(ip, now), sweeping) == (Tracker(map[], 0), 0)
  {
  }

  lemma FirstIsNotBare(ip: Ip, now: Time)
    ensures BareCounts([Ask(ip, now)]) == 0
  {
    assert [Ask(ip, now)][..0] == [];
  }

  lemma FirstQuestion()
    ensures var ask := [Ask("ip", NOON)];
            && Run(ask, true).0 == Tracker(map[], 0) == Run(ask, false).0
            && Covers(ask, 0, NOON) && BareCounts(ask) == 0
  {
    FirstOp(Ask("ip", NOON), true);
    FirstOp(Ask("ip", NOON), false);
    NothingKnown("ip", NOON, true);
    NothingKnown("ip", NOON, false);
    FirstIsNotBare("ip", NOON);
  }

  lemma Locking(ops: seq<Op>, threshold: int, duration: nat)
    requires threshold >= 2
    requires Built(ops, threshold - 1, threshold - 1, 0, NOON)
    ensures var all := ops + [Fail("ip", NOON, threshold, duration)];
            Knows(all, Entry(0, NOON + duration, NOON), Entry(0, NOON + duration, NOON), NOON) && BareCounts(all) == BareCounts(ops)
  {
    var op := Fail("ip", NOON, threshold, duration);
    CoveredIsNotBare(ops, 0, NOON, op);
    RunAppend(ops, op, true);
    RunAppend(ops, op, false);
    assert Run(ops, true).0.Sweep(NOON).entries == map["ip" := Entry(threshold - 1, 0, NOON)];
  }

  /** The bare count: the sweeping tracker forgets the lock, the other one remembers it. */
  lemma BareFail(ops: seq<Op>, threshold: int, duration: nat)
    requires threshold >= 2 && Knows(ops, Entry(0, NOON + duration, NOON), Entry(0, NOON + duration, NOON), NOON)
    ensures var evening := Evening(duration);
            var all := ops + [Fail("ip", evening, threshold, duration)];
            Knows(all, Entry(1, 0, evening), Entry(1, NOON + duration, evening), evening) && BareCounts(all) <= BareCounts(ops) + 1
  {
    var op := Fail("ip", Evening(duration), threshold, duration);
    RunAppend(ops, op, true);
    RunAppend(ops, op, false);
    assert (ops + [op])[..|ops|] == ops;
    assert Run(ops, true).0.Sweep(op.now).entries == map[];
  }

  lemma EveningQuestion(ops: seq<Op>, duration: nat)
    requires var evening := Evening(duration);
             Knows(ops, Entry(1, 0, evening), Entry(1, NOON + duration, evening), evening)
    ensures var evening := Evening(duration);
            var all := ops + [Ask("ip", evening)];
            && Knows(all, Entry(1, 0, evening), Entry(0, 0, evening), evening)
            && Covers(all, |ops|, evening) && BareCounts(all) == BareCounts(ops)
  {
    var op := Ask("ip", Evening(duration));
    RunAppend(ops, op, true);
    RunAppend(ops, op, false);
    assert (ops + [op])[..|ops|] == ops;
    AnswersGrow(ops, 0, true);
  }

  lemma LastFailTells(ops: seq<Op>, i: nat, now: Time, threshold: int, duration: nat)
    requires duration > 0 && threshold >= 2 && Built(ops, threshold - 1, threshold - 2, i, now)
    ensures var all := ops + [Fail("ip", now, threshold, duration)];
            Run(all, true).1 != Run(all, false).1 && BareCounts(all) == BareCounts(ops)
  {
    var op := Fail("ip", now, threshold, duration);
    CoveredIsNotBare(ops, i, now, op);
    RunAppend(ops, op, true);
    RunAppend(ops, op, false);
    assert Run(ops, true).0.Sweep(now).entries == map["ip" := Entry(threshold - 1, 0, now)];
    DifferentLast(Run(ops, true).1, Run(ops, false).1, duration, 0);
  }

  lemma DifferentLast(a: seq<int>, b: seq<int>, x: int, y: int)
    requires x != y
    ensures a + [x] != b + [y]
  {
    assert (a + [x])[|a + [x]| - 1] == x;
    assert (b + [y])[|b + [y]| - 1] == y;
  }

  function Locked(threshold: int, duration: nat): seq<Op>
    requires threshold >= 2
  {
    Noon(threshold, duration) + [Fail("ip", NOON, threshold, duration)]
  }

  function Evenings(threshold: int, duration: nat): seq<Op>
    requires threshold >= 2
  {
    Locked(threshold, duration) + [Fail("ip", Evening(duration), threshold, duration)] + [Ask("ip", Evening(duration))]
  }

  /** One bare count in the evening, and a login that asks then. */
  function Telling(threshold: int, duration: nat): seq<Op>
    requires threshold >= 2
  {
    var evening := Evening(duration);
    Failing(Evenings(threshold, duration), evening, threshold, duration, threshold - 2) + [Fail("ip", evening, threshold, duration)]
  }

  lemma LockedKnows(threshold: int, duration: nat)
    requires threshold >= 2
    ensures Knows(Locked(threshold, duration), Entry(0, NOON + duration, NOON), Entry(0, NOON + duration, NOON), NOON)
    ensures BareCounts(Locked(threshold, duration)) == 0
  {
    NoonKnows(threshold, duration);
    Locking(Noon(threshold, duration), threshold, duration);
  }

  lemma EveningsKnow(threshold: int, duration: nat) returns (i: nat)
    requires threshold >= 2
    ensures Built(Evenings(threshold, duration), 1, 0, i, Evening(duration))
    ensures BareCounts(Evenings(threshold, duration)) <= 1
  {
    LockedKnows(threshold, duration);
    BareFail(Locked(threshold, duration), threshold, duration);
    EveningQuestion(Locked(threshold, duration) + [Fail("ip", Evening(duration), threshold, duration)], duration);
    i := |Locked(threshold, duration) + [Fail("ip", Evening(duration), threshold, duration)]|;
  }

  lemma {:induction false} FailingIsTimed(ops: seq<Op>, now: Time, threshold: int, duration: nat, k: nat)
    requires Timed(ops, now, threshold, duration)
    ensures Timed(Failing(ops, now, threshold, duration, k), now, threshold, duration)
    decreases k
  {
    if k > 0 {
      var fail := Fail("ip", now, threshold, duration);
      Later(ops, fail, now, threshold, duration);
      FailingIsTimed(ops + [fail], now, threshold, duration, k - 1);
    }
  }

  lemma TellingIsTimed(threshold: int, duration: nat)
    requires threshold >= 2
    ensures Timed(Telling(threshold, duration), Evening(duration), threshold, duration)
  {
    var evening := Evening(duration);
    var ask, fail, late := Ask("ip", NOON), Fail("ip", NOON, threshold, duration), Fail("ip", evening, threshold, duration);
    assert Timed([ask], NOON, threshold, duration);
    Later([ask], fail, NOON, threshold, duration);
    FailingIsTimed([ask] + [fail], NOON, threshold, duration, threshold - 2);
    Later(Noon(threshold, duration), fail, NOON, threshold, duration);
    Later(Locked(threshold, duration), late, NOON, threshold, duration);
    Later(Locked(threshold, duration) + [late], Ask("ip", evening), evening, threshold, duration);
    FailingIsTimed(Evenings(threshold, duration), evening, threshold, duration, threshold - 2);
    Later(Failing(Evenings(threshold, duration), evening, threshold, duration, threshold - 2), late, evening, threshold, duration);
  }

  lemma SweepShowsWithoutAsking(threshold: int, duration: nat)
    requires threshold >= 2 && duration > 0
    ensures IsRun(Telling(threshold, duration), threshold, duration, 1)
    ensures Run(Telling(threshold, duration), true).1 != Run(Telling(threshold, duration), false).1
  {
    TellingIsTimed(threshold, duration);
    var evening := Evening(duration);
    var i := EveningsKnow(threshold, duration);
    ManyFails(Evenings(threshold, duration), 1, 0, i, evening, threshold, duration, threshold - 2);
    LastFailTells(Failing(Evenings(threshold, duration), evening, threshold, duration, threshold - 2), i, evening, threshold, duration);
  }

  /**
    Under one policy, over all runs with at most `n` bare counts, the sweep cannot be observed exactly when there are
    none, or the first failure locks, or locks take no time.
  */
  lemma SweepUnobservableExactly(threshold: int, duration: nat, n: nat)
    ensures (forall ops | IsRun(ops, threshold, duration, n) :: Run(ops, true).1 == Run(ops, false).1) <==>
              n == 0 || threshold <= 1 || duration == 0
  {
    forall ops | IsRun(ops, threshold, duration, n) && (n == 0 || threshold <= 1 || duration == 0)
      ensures Run(ops, true).1 == Run(ops, false).1
    {
      if n == 0 {
        SweepIsUnobservable(ops);
      } else if threshold <= 1 {
        AtOnceRefines(ops, threshold, duration);
      } else {
        NoDurationNoAnswers(ops, threshold, true);
        NoDurationNoAnswers(ops, threshold, false);
      }
    }
    if n > 0 && threshold >= 2 && duration > 0 {
      SweepShowsWithoutAsking(threshold, duration);
      assert IsRun(Telling(threshold, duration), threshold, duration, n);
    }
  }
}
