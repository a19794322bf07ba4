/**
  The lockout as the outside sees it: every answer, told from what was asked and counted before and what was answered.

  Nothing here looks at the tracker's entries, save the proof that they remember just enough.
*/
module LockoutHistory {
  import opened LoginLockout
  import opened Option

  /** An operation and what its caller saw. */
  datatype Seen = Seen(op: Op, answer: int)

  /** What the callers of a run saw. */
  function Observed(ops: seq<Op>, sweeping: bool): (h: seq<Seen>)
    ensures |h| == |ops|
  {
    if ops == [] then []
    else
      var before := ops[..|ops| - 1];
      Observed(before, sweeping) + [Seen(ops[|ops| - 1], Do(Run(before, sweeping).0, ops[|ops| - 1], sweeping).1)]
  }

  predicate IsFail(e: Seen, ip: Ip) { e.op.Fail? && e.op.ip == ip }

  /** A failure that was answered with a lock. */
  predicate Starts(e: Seen, ip: Ip) { IsFail(e, ip) && e.answer > 0 }

  predicate Clears(e: Seen, ip: Ip) { e.op.Clear? && e.op.ip == ip }

  /** A question that was answered "not locked". */
  predicate FoundOpen(e: Seen, ip: Ip) { e.op.Ask? && e.op.ip == ip && e.answer == 0 }

  function Before(h: seq<Seen>): seq<Seen>
    requires h != []
  {
    h[..|h| - 1]
  }

  function Last(h: seq<Seen>): Seen
    requires h != []
  {
    h[|h| - 1]
  }

  /** When the address's last lock ends or ended. */
  function LockEnd(h: seq<Seen>, ip: Ip): int {
    if h == [] then 0
    else if Clears(Last(h), ip) then 0
    else if Starts(Last(h), ip) then Last(h).op.now + Last(h).answer
    else LockEnd(Before(h), ip)
  }

  function LastFail(h: seq<Seen>, ip: Ip): Option<Time> {
    if h == [] then None else if IsFail(Last(h), ip) then Some(Last(h).op.now) else LastFail(Before(h), ip)
  }

  /** Neither locked nor failing lately. */
  predicate Quiet(h: seq<Seen>, ip: Ip, now: Time) {
    LockEnd(h, ip) <= now && (LastFail(h, ip).Some? ==> now - LastFail(h, ip).value > IDLE_TTL)
  }

  /** The sweeping tracker sweeps when a failure is counted long enough after the last sweep. */
  predicate Sweeps(h: seq<Seen>, op: Op)
    decreases |h|, 1
  {
    op.Fail? && op.now - LastSweep(h) >= IDLE_TTL
  }

  function LastSweep(h: seq<Seen>): Time
    decreases |h|, 0
  {
    if h == [] then 0 else if Sweeps(Before(h), Last(h).op) then Last(h).op.now else LastSweep(Before(h))
  }

  /** There was a lock, and nothing has yet found it over. */
  predicate Owed(h: seq<Seen>, ip: Ip, sweeping: bool) {
    && h != [] && !Clears(Last(h), ip) && !FoundOpen(Last(h), ip)
    && (Starts(Last(h), ip)
        || (Owed(Before(h), ip, sweeping)
            && !(sweeping && Sweeps(Before(h), Last(h).op) && Quiet(Before(h), ip, Last(h).op.now))))
  }

  /** From here on the failures before count no more: a reset, a lock, or a question that finds a lock over. */
  predicate Wipes(before: seq<Seen>, e: Seen, ip: Ip, sweeping: bool) {
    Clears(e, ip) || Starts(e, ip) || (FoundOpen(e, ip) && Owed(before, ip, sweeping))
  }

  predicate Pauses(before: seq<Seen>, op: Op, ip: Ip) { op.Fail? && op.ip == ip && Quiet(before, ip, op.now) }

  /**
    From place `k` to a failure that is counted now the address has been failing on: nothing wiped its failures and no
    failure after the first came after a pause.
  */
  ghost predicate Streak(h: seq<Seen>, k: nat, op: Op, sweeping: bool) {
    && k <= |h|
    && (forall j | k <= j < |h| :: !Wipes(h[..j], h[j], op.ip, sweeping))
    && (forall j | k < j < |h| :: !Pauses(h[..j], h[j].op, op.ip))
    && (k < |h| ==> !Pauses(h, op, op.ip))
  }

  function FailsFrom(h: seq<Seen>, k: nat, ip: Ip): nat {
    if |h| <= k then 0 else FailsFrom(Before(h), k, ip) + (if IsFail(Last(h), ip) then 1 else 0)
  }

  // ----- the longest streak -----

  function Standing(h: seq<Seen>, ip: Ip, sweeping: bool): nat
    decreases |h|, 0
  {
    if h == [] then 0
    else if Wipes(Before(h), Last(h), ip, sweeping) then 0
    else if IsFail(Last(h), ip) then Counting(Before(h), Last(h).op, sweeping) + 1
    else Standing(Before(h), ip, sweeping)
  }

  function Counting(h: seq<Seen>, op: Op, sweeping: bool): nat
    decreases |h|, 1
  {
    if Pauses(h, op, op.ip) then 0 else Standing(h, op.ip, sweeping)
  }

  lemma ShorterStreak(h: seq<Seen>, k: nat, op: Op, sweeping: bool)
    requires Streak(h, k, op, sweeping) && k < |h| && IsFail(Last(h), op.ip)
    ensures Streak(Before(h), k, Last(h).op, sweeping) && !Wipes(Before(h), Last(h), op.ip, sweeping)
  {
    forall j | k <= j < |h| - 1
      ensures !Wipes(Before(h)[..j], Before(h)[j], op.ip, sweeping)
      ensures k < j ==> !Pauses(Before(h)[..j], Before(h)[j].op, op.ip)
    {
      assert Before(h)[..j] == h[..j];
    }
    assert h[..|h| - 1] == Before(h);
  }

  /** Any failure of the address at a later time would do as well, were it not for the pause. */
  ghost predicate Unwiped(h: seq<Seen>, k: nat, ip: Ip, sweeping: bool) {
    && k <= |h|
    && (forall j | k <= j < |h| :: !Wipes(h[..j], h[j], ip, sweeping))
    && (forall j | k < j < |h| :: !Pauses(h[..j], h[j].op, ip))
  }

  lemma UnwipedBefore(h: seq<Seen>, k: nat, ip: Ip, sweeping: bool)
    requires Unwiped(h, k, ip, sweeping) && k < |h|
    ensures Unwiped(Before(h), k, ip, sweeping) && !Wipes(Before(h), Last(h), ip, sweeping)
    ensures k < |h| - 1 ==> !Pauses(Before(h), Last(h).op, ip)
  {
    forall j | k <= j < |h| - 1
      ensures !Wipes(Before(h)[..j], Before(h)[j], ip, sweeping)
      ensures k < j ==> !Pauses(Before(h)[..j], Before(h)[j].op, ip)
    {
      assert Before(h)[..j] == h[..j];
    }
    assert h[..|h| - 1] == Before(h);
  }

  lemma {:induction false} StandingCovers(h: seq<Seen>, k: nat, ip: Ip, sweeping: bool)
    requires Unwiped(h, k, ip, sweeping)
    ensures FailsFrom(h, k, ip) <= Standing(h, ip, sweeping)
  {
    if k < |h| {
      UnwipedBefore(h, k, ip, sweeping);
      StandingCovers(Before(h), k, ip, sweeping);
    }
  }

  lemma UnwipedAfter(h: seq<Seen>, k: nat, ip: Ip, sweeping: bool)
    requires h != [] && Unwiped(Before(h), k, ip, sweeping) && !Wipes(Before(h), Last(h), ip, sweeping)
    requires k < |h| - 1 ==> !Pauses(Before(h), Last(h).op, ip)
    ensures Unwiped(h, k, ip, sweeping)
  {
    forall j | k <= j < |h|
      ensures !Wipes(h[..j], h[j], ip, sweeping)
      ensures k < j ==> !Pauses(h[..j], h[j].op, ip)
    {
      if j < |h| - 1 { assert Before(h)[..j] == h[..j] && Before(h)[j] == h[j]; } else { assert h[..j] == Before(h); }
    }
  }

  lemma {:induction false} StandingIsReached(h: seq<Seen>, ip: Ip, sweeping: bool) returns (k: nat)
    ensures Unwiped(h, k, ip, sweeping) && FailsFrom(h, k, ip) == Standing(h, ip, sweeping)
  {
    if h == [] || Wipes(Before(h), Last(h), ip, sweeping) {
      k := |h|;
    } else if Pauses(Before(h), Last(h).op, ip) {
      k := |h| - 1;
      assert h[..k] == Before(h);
      assert FailsFrom(Before(h), k, ip) == 0;
    } else {
      k := StandingIsReached(Before(h), ip, sweeping);
      UnwipedAfter(h, k, ip, sweeping);
    }
  }

  /** The longest streak, with the failure counted now, has reached the threshold. */
  ghost predicate EnoughFailures(h: seq<Seen>, op: Op, sweeping: bool)
    requires op.Fail?
  {
    exists k | 0 <= k <= |h| :: Streak(h, k, op, sweeping) && FailsFrom(h, k, op.ip) + 1 >= op.threshold
  }

  lemma EnoughExactly(h: seq<Seen>, op: Op, sweeping: bool)
    requires op.Fail?
    ensures EnoughFailures(h, op, sweeping) <==> Counting(h, op, sweeping) + 1 >= op.threshold
  {
    if k :| 0 <= k <= |h| && Streak(h, k, op, sweeping) && FailsFrom(h, k, op.ip) + 1 >= op.threshold {
      StandingCovers(h, k, op.ip, sweeping);
    }
    if Counting(h, op, sweeping) + 1 >= op.threshold {
      var k := StandingIsReached(h, op.ip, sweeping);
      if Pauses(h, op, op.ip) { k := |h|; }
      assert Streak(h, k, op, sweeping);
      assert FailsFrom(h, k, op.ip) + 1 >= op.threshold;
    }
  }

  // ----- what the tracker remembers of an address -----

  function EntryOf(t: Tracker, ip: Ip): Entry {
    if ip in t.entries then t.entries[ip] else Entry(0, 0, 0)
  }

  ghost predicate LockKnown(t: Tracker, h: seq<Seen>, ip: Ip, now: Time, sweeping: bool) {
    if Owed(h, ip, sweeping) then EntryOf(t, ip).lockedUntil == LockEnd(h, ip) > 0
    else EntryOf(t, ip).lockedUntil == 0 && LockEnd(h, ip) <= now
  }

  ghost predicate FailuresKnown(t: Tracker, h: seq<Seen>, ip: Ip, now: Time, sweeping: bool) {
    || EntryOf(t, ip).failures == Standing(h, ip, sweeping)
    || (ip !in t.entries && Quiet(h, ip, now))
  }

  ghost predicate Remembers(t: Tracker, h: seq<Seen>, ip: Ip, now: Time, sweeping: bool) {
    && LockKnown(t, h, ip, now, sweeping)
    && FailuresKnown(t, h, ip, now, sweeping)
    && (ip in t.entries ==> LastFail(h, ip) == Some(t.entries[ip].lastSeen))
    && (sweeping ==> t.lastSweep == LastSweep(h))
  }

  predicate UnderPolicy(op: Op, threshold: int, duration: nat) {
    op.Fail? ==> op.threshold == threshold && op.duration == duration
  }

  function Told(t: Tracker, h: seq<Seen>, op: Op, sweeping: bool): seq<Seen> {
    h + [Seen(op, Do(t, op, sweeping).1)]
  }

  lemma OneMoreSeen(h: seq<Seen>, e: Seen)
    ensures Before(h + [e]) == h && Last(h + [e]) == e
  {
  }

  lemma AskAnswered(t: Tracker, h: seq<Seen>, before: Time, ip: Ip, now: Time, sweeping: bool)
    requires Remembers(t, h, ip, before, sweeping) && before <= now
    ensures t.Remaining(ip, now).1 == if now < LockEnd(h, ip) then LockEnd(h, ip) - now else 0
  {
  }

  lemma AskRemembered(t: Tracker, h: seq<Seen>, before: Time, ip: Ip, now: Time, sweeping: bool)
    requires Remembers(t, h, ip, before, sweeping) && before <= now
    ensures Remembers(t.Remaining(ip, now).0, Told(t, h, Ask(ip, now), sweeping), ip, now, sweeping)
  {
    OneMoreSeen(h, Seen(Ask(ip, now), t.Remaining(ip, now).1));
  }

  lemma SweepRemembered(t: Tracker, h: seq<Seen>, before: Time, ip: Ip, now: Time)
    requires Remembers(t, h, ip, before, true) && before <= now
    ensures ip in t.Sweep(now).entries <==>
              ip in t.entries && !(now - LastSweep(h) >= IDLE_TTL && Quiet(h, ip, now))
    ensures ip in t.Sweep(now).entries ==> t.Sweep(now).entries[ip] == t.entries[ip]
  {
  }

  /** The entry a failure is counted on. */
  function Ready(t: Tracker, op: Op, sweeping: bool): Tracker {
    if sweeping then t.Sweep(op.now) else t
  }

  lemma CountsAsTold(t: Tracker, h: seq<Seen>, before: Time, op: Op, sweeping: bool)
    requires op.Fail? && Remembers(t, h, op.ip, before, sweeping) && before <= op.now
    ensures var e := EntryOf(Ready(t, op, sweeping), op.ip);
            (if Stale(e, op.now) then 0 else e.failures) == Counting(h, op, sweeping)
  {
    if sweeping { SweepRemembered(t, h, before, op.ip, op.now); }
  }

  lemma FailAnswered(t: Tracker, h: seq<Seen>, before: Time, op: Op, sweeping: bool)
    requires op.Fail? && Remembers(t, h, op.ip, before, sweeping) && before <= op.now
    ensures Do(t, op, sweeping).1 == if Counting(h, op, sweeping) + 1 >= op.threshold then op.duration else 0
  {
    CountsAsTold(t, h, before, op, sweeping);
  }

  /** The lock a failure leaves remembered is one that is still owed. */
  lemma ReadyKnowsLock(t: Tracker, h: seq<Seen>, before: Time, op: Op, ip: Ip, sweeping: bool)
    requires op.Fail? && Remembers(t, h, ip, before, sweeping) && before <= op.now
    ensures var e := EntryOf(Ready(t, op, sweeping), ip);
            if Owed(h, ip, sweeping) && !(sweeping && Sweeps(h, op) && Quiet(h, ip, op.now)) then
              e.lockedUntil == LockEnd(h, ip) > 0
            else e.lockedUntil == 0 && LockEnd(h, ip) <= op.now
    ensures sweeping ==> Ready(t, op, sweeping).lastSweep == if Sweeps(h, op) then op.now else LastSweep(h)
  {
    if sweeping { SweepRemembered(t, h, before, ip, op.now); }
  }

  lemma FailRemembered(t: Tracker, h: seq<Seen>, before: Time, op: Op, sweeping: bool)
    requires op.Fail? && op.duration > 0 && Remembers(t, h, op.ip, before, sweeping) && before <= op.now
    ensures Remembers(Do(t, op, sweeping).0, Told(t, h, op, sweeping), op.ip, op.now, sweeping)
  {
    CountsAsTold(t, h, before, op, sweeping);
    ReadyKnowsLock(t, h, before, op, op.ip, sweeping);
    FailAnswered(t, h, before, op, sweeping);
    OneMoreSeen(h, Seen(op, Do(t, op, sweeping).1));
  }

  /** A failure of another address may sweep this one's entry away. */
  lemma OtherFailRemembered(t: Tracker, h: seq<Seen>, before: Time, op: Op, ip: Ip, sweeping: bool)
    requires op.Fail? && op.ip != ip && Remembers(t, h, ip, before, sweeping) && before <= op.now
    ensures Remembers(Do(t, op, sweeping).0, Told(t, h, op, sweeping), ip, op.now, sweeping)
  {
    if sweeping { SweepRemembered(t, h, before, ip, op.now); }
    ReadyKnowsLock(t, h, before, op, ip, sweeping);
    OneMoreSeen(h, Seen(op, Do(t, op, sweeping).1));
  }

  lemma OtherRemembered(t: Tracker, h: seq<Seen>, before: Time, op: Op, ip: Ip, sweeping: bool)
    requires !op.Fail? && (op.ip == ip ==> op.Clear?) && Remembers(t, h, ip, before, sweeping) && before <= op.now
    ensures Remembers(Do(t, op, sweeping).0, Told(t, h, op, sweeping), ip, op.now, sweeping)
  {
    OneMoreSeen(h, Seen(op, Do(t, op, sweeping).1));
  }

  lemma StepRemembered(t: Tracker, h: seq<Seen>, before: Time, op: Op, ip: Ip, sweeping: bool)
    requires Remembers(t, h, ip, before, sweeping) && before <= op.now && (op.Fail? ==> op.duration > 0)
    ensures Remembers(Do(t, op, sweeping).0, Told(t, h, op, sweeping), ip, op.now, sweeping)
  {
    if op.Fail? && op.ip == ip {
      FailRemembered(t, h, before, op, sweeping);
    } else if op.Fail? {
      OtherFailRemembered(t, h, before, op, ip, sweeping);
    } else if op.Ask? && op.ip == ip {
      AskRemembered(t, h, before, ip, op.now, sweeping);
    } else {
      OtherRemembered(t, h, before, op, ip, sweeping);
    }
  }

  // ----- every answer, for every run -----

  /** Locks last: the policy may change from failure to failure, but a lock always has a duration. */
  ghost predicate LocksLast(ops: seq<Op>) {
    forall i | 0 <= i < |ops| && ops[i].Fail? :: ops[i].duration > 0
  }

  lemma {:induction false} RunRemembers(ops: seq<Op>, ip: Ip, sweeping: bool)
    requires ClockMovesForward(ops) && LocksLast(ops)
    ensures Remembers(Run(ops, sweeping).0, Observed(ops, sweeping), ip, LastTime(ops), sweeping)
  {
    if ops != [] {
      var before, op := ops[..|ops| - 1], ops[|ops| - 1];
      RunRemembers(before, ip, sweeping);
      StepRemembered(Run(before, sweeping).0, Observed(before, sweeping), LastTime(before), op, ip, sweeping);
    }
  }

  /**
    Over every run, with or without the sweep, whatever the other addresses do: a failure is answered with a lock
    exactly when, with it, the address has failed on as often as the threshold says, no neighbours further apart than
    the idle time unless a lock held between them, and without a reset, a lock, or a question that found a lock over.
  */
  lemma FailLocksExactly(ops: seq<Op>, op: Op, sweeping: bool)
    requires ClockMovesForward(ops) && LocksLast(ops) && LastTime(ops) <= op.now && op.Fail?
    ensures Do(Run(ops, sweeping).0, op, sweeping).1 ==
              if EnoughFailures(Observed(ops, sweeping), op, sweeping) then op.duration else 0
  {
    var h := Observed(ops, sweeping);
    RunRemembers(ops, op.ip, sweeping);
    FailAnswered(Run(ops, sweeping).0, h, LastTime(ops), op, sweeping);
    EnoughExactly(h, op, sweeping);
  }

  /** And a question is answered with what is left of the last lock that was not reset. */
  lemma AskTellsExactly(ops: seq<Op>, ip: Ip, now: Time, sweeping: bool)
    requires ClockMovesForward(ops) && LocksLast(ops) && LastTime(ops) <= now
    ensures var end := LockEnd(Observed(ops, sweeping), ip);
            Do(Run(ops, sweeping).0, Ask(ip, now), sweeping).1 == if now < end then end - now else 0
  {
    RunRemembers(ops, ip, sweeping);
    AskAnswered(Run(ops, sweeping).0, Observed(ops, sweeping), LastTime(ops), ip, now, sweeping);
  }
}
