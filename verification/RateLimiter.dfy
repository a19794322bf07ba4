/**
  The sliding-window limiter: at most `maxAttempts` accepted attempts per key and window.

  The limiter forgets times that left the window and drops idle keys in a periodic sweep. The reference
  it is compared with keeps every accepted time for ever.
*/
module RateLimiter {

  type Key = string
  type Time = int

  /** The times strictly later than the cutoff, in order. */
  function After(times: seq<Time>, cutoff: Time): seq<Time> {
    if times == [] then []
    else
      var last := times[|times| - 1];
      After(times[..|times| - 1], cutoff) + (if last > cutoff then [last] else [])
  }

  function Times(attempts: map<Key, seq<Time>>, key: Key): seq<Time> {
    if key in attempts then attempts[key] else []
  }

  datatype State = State(attempts: map<Key, seq<Time>>, lastSweep: Time)

  datatype Limits = Limits(window: int, maxAttempts: int)

  function Swept(attempts: map<Key, seq<Time>>, cutoff: Time): map<Key, seq<Time>> {
    map key | key in attempts && After(attempts[key], cutoff) != [] :: After(attempts[key], cutoff)
  }

  function Store(attempts: map<Key, seq<Time>>, key: Key, times: seq<Time>): map<Key, seq<Time>> {
    if times == [] then attempts - {key} else attempts[key := times]
  }

  /** One call: the new state and whether the attempt is refused. */
  function Call(limits: Limits, st: State, key: Key, now: Time): (State, bool) {
    var cutoff := now - limits.window;
    var due := now - st.lastSweep >= limits.window;
    var attempts := if due then Swept(st.attempts, cutoff) else st.attempts;
    var lastSweep := if due then now else st.lastSweep;
    var valid := After(Times(attempts, key), cutoff);
    var trimmed := Store(attempts, key, valid);
    if |valid| >= limits.maxAttempts then (State(trimmed, lastSweep), true)
    else (State(trimmed[key := Times(trimmed, key) + [now]], lastSweep), false)
  }

  class Limiter {
    var attempts: map<Key, seq<Time>>
    var lastSweep: Time
    const window: int
    const maxAttempts: int

    ghost function Now(): State
      reads this
    {
      State(attempts, lastSweep)
    }

    constructor (window: int, maxAttempts: int, now: Time)
      ensures this.window == window && this.maxAttempts == maxAttempts
      ensures Now() == State(map[], now)
    {
      this.window, this.maxAttempts := window, maxAttempts;
      attempts, lastSweep := map[], now;
    }

    method Sweep(cutoff: Time)
      modifies this`attempts
      ensures attempts == Swept(old(attempts), cutoff)
    {
      var todo := attempts.Keys;
      while todo != {}
        invariant todo <= attempts.Keys <= old(attempts).Keys
        invariant forall k | k in todo :: attempts[k] == old(attempts)[k]
        invariant forall k | k in old(attempts) && k !in todo ::
                    if After(old(attempts)[k], cutoff) == [] then k !in attempts
                    else k in attempts && attempts[k] == After(old(attempts)[k], cutoff)
        decreases todo
      {
        var key :| key in todo;
        todo := todo - {key};
        var valid := Filter(attempts[key], cutoff);
        if |valid| == 0 {
          attempts := attempts - {key};
        } else {
          attempts := attempts[key := valid];
        }
      }
    }

    method IsLimited(key: Key, now: Time) returns (limited: bool)
      modifies this
      ensures (Now(), limited) == Call(Limits(window, maxAttempts), old(Now()), key, now)
    {
      var cutoff := now - window;
      if now - lastSweep >= window {
        Sweep(cutoff);
        lastSweep := now;
      }
      var valid := Filter(if key in attempts then attempts[key] else [], cutoff);
      if |valid| == 0 {
        attempts := attempts - {key};
      } else {
        attempts := attempts[key := valid];
      }
      if |valid| >= maxAttempts {
        return true;
      }
      attempts := attempts[key := (if key in attempts then attempts[key] else []) + [now]];
      return false;
    }
  }

  method Filter(times: seq<Time>, cutoff: Time) returns (valid: seq<Time>)
    ensures valid == After(times, cutoff)
  {
    valid := [];
    for i := 0 to |times|
      invariant valid == After(times[..i], cutoff)
    {
      assert times[..i + 1][..i] == times[..i];
      if times[i] > cutoff {
        valid := valid + [times[i]];
      }
    }
    assert times[..|times|] == times;
  }

  // ----- the reference -----

  /** The reference keeps every accepted time of every key. */
  function Reference(limits: Limits, history: map<Key, seq<Time>>, key: Key, now: Time): (map<Key, seq<Time>>, bool) {
    if |After(Times(history, key), now - limits.window)| >= limits.maxAttempts then (history, true)
    else (history[key := Times(history, key) + [now]], false)
  }

  /** The limiter and the reference agree on everything that is still inside the window. */
  ghost predicate Agree(st: State, history: map<Key, seq<Time>>, horizon: Time) {
    forall key, cutoff | horizon <= cutoff :: After(Times(st.attempts, key), cutoff) == After(Times(history, key), cutoff)
  }

  lemma AfterAppend(times: seq<Time>, last: Time, cutoff: Time)
    ensures After(times + [last], cutoff) == After(times, cutoff) + (if last > cutoff then [last] else [])
  {
    assert (times + [last])[..|times|] == times;
  }

  lemma {:induction false} AfterAfter(times: seq<Time>, early: Time, late: Time)
    requires early <= late
    ensures After(After(times, early), late) == After(times, late)
  {
    if times != [] {
      var last := times[|times| - 1];
      AfterAfter(times[..|times| - 1], early, late);
      var kept := After(times[..|times| - 1], early);
      if last > early {
        AfterAppend(kept, last, late);
      } else {
        assert kept + [] == kept;
      }
    }
  }

  lemma SweepAgrees(attempts: map<Key, seq<Time>>, key: Key, early: Time, late: Time)
    requires early <= late
    ensures After(Times(Swept(attempts, early), key), late) == After(Times(attempts, key), late)
  {
    AfterAfter(Times(attempts, key), early, late);
  }

  lemma StoredTimes(attempts: map<Key, seq<Time>>, key: Key, times: seq<Time>, other: Key)
    ensures Times(Store(attempts, key, times), other) == if other == key then times else Times(attempts, other)
  {
  }

  lemma TrimKeeps(attempts: map<Key, seq<Time>>, key: Key, cutoff: Time, k: Key, late: Time)
    requires cutoff <= late
    ensures After(Times(Store(attempts, key, After(Times(attempts, key), cutoff)), k), late) == After(Times(attempts, k), late)
  {
    StoredTimes(attempts, key, After(Times(attempts, key), cutoff), k);
    if k == key { AfterAfter(Times(attempts, key), cutoff, late); }
  }

  lemma AcceptKeeps(attempts: map<Key, seq<Time>>, key: Key, now: Time, k: Key, late: Time)
    ensures After(Times(attempts[key := Times(attempts, key) + [now]], k), late) ==
              After(Times(attempts, k), late) + (if k == key && now > late then [now] else [])
  {
    AfterAppend(Times(attempts, key), now, late);
  }

  function SweptIfDue(limits: Limits, st: State, now: Time): map<Key, seq<Time>> {
    if now - st.lastSweep >= limits.window then Swept(st.attempts, now - limits.window) else st.attempts
  }

  lemma CallInSteps(limits: Limits, st: State, key: Key, now: Time)
    ensures var attempts := SweptIfDue(limits, st, now);
            var valid := After(Times(attempts, key), now - limits.window);
            var trimmed := Store(attempts, key, valid);
            var (st', limited) := Call(limits, st, key, now);
            && limited == (|valid| >= limits.maxAttempts)
            && st'.attempts == if limited then trimmed else trimmed[key := Times(trimmed, key) + [now]]
  {
  }

  /** What a call leaves behind for each key, up to what has left the window. */
  lemma CallKeeps(limits: Limits, st: State, st': State, limited: bool, key: Key, now: Time, k: Key, late: Time)
    requires now - limits.window <= late && (st', limited) == Call(limits, st, key, now)
    ensures After(Times(st'.attempts, k), late) ==
              After(Times(st.attempts, k), late) + (if k == key && !limited && now > late then [now] else [])
  {
    var cutoff := now - limits.window;
    var attempts := SweptIfDue(limits, st, now);
    var trimmed := Store(attempts, key, After(Times(attempts, key), cutoff));
    CallInSteps(limits, st, key, now);
    SweepAgrees(st.attempts, k, cutoff, late);
    TrimKeeps(attempts, key, cutoff, k, late);
    AcceptKeeps(trimmed, key, now, k, late);
    assert After(Times(st.attempts, k), late) + [] == After(Times(st.attempts, k), late);
  }

  lemma CallAnswers(limits: Limits, st: State, key: Key, now: Time)
    ensures Call(limits, st, key, now).1 == (|After(Times(st.attempts, key), now - limits.window)| >= limits.maxAttempts)
  {
    SweepAgrees(st.attempts, key, now - limits.window, now - limits.window);
  }

  lemma ReferenceKeeps(limits: Limits, history: map<Key, seq<Time>>, key: Key, now: Time, k: Key, late: Time)
    ensures var (history', limited) := Reference(limits, history, key, now);
            After(Times(history', k), late) ==
              After(Times(history, k), late) + (if k == key && !limited && now > late then [now] else [])
  {
    AfterAppend(Times(history, key), now, late);
  }

  /** One call: the same answer, and the two still agree. */
  lemma CallRefines(limits: Limits, st: State, history: map<Key, seq<Time>>, key: Key, now: Time, horizon: Time)
    requires Agree(st, history, horizon) && horizon <= now - limits.window
    ensures Call(limits, st, key, now).1 == Reference(limits, history, key, now).1
    ensures Agree(Call(limits, st, key, now).0, Reference(limits, history, key, now).0, now - limits.window)
  {
    CallAnswers(limits, st, key, now);
    var (st', limited) := Call(limits, st, key, now);
    var (history', limited') := Reference(limits, history, key, now);
    assert limited == limited';
    forall k, late | now - limits.window <= late
      ensures After(Times(st'.attempts, k), late) == After(Times(history', k), late)
    {
      CallKeeps(limits, st, st', limited, key, now, k, late);
      ReferenceKeeps(limits, history, key, now, k, late);
    }
  }

  // ----- runs -----

  datatype Ask = Ask(key: Key, now: Time)

  ghost predicate ClockMovesForward(calls: seq<Ask>) {
    forall i, j | 0 <= i < j < |calls| :: calls[i].now <= calls[j].now
  }

  function Run(limits: Limits, start: Time, calls: seq<Ask>): (State, seq<bool>) {
    if calls == [] then (State(map[], start), [])
    else
      var (st, answers) := Run(limits, start, calls[..|calls| - 1]);
      var last := calls[|calls| - 1];
      var (st', answer) := Call(limits, st, last.key, last.now);
      (st', answers + [answer])
  }

  function ReferenceRun(limits: Limits, calls: seq<Ask>): (map<Key, seq<Time>>, seq<bool>) {
    if calls == [] then (map[], [])
    else
      var (history, answers) := ReferenceRun(limits, calls[..|calls| - 1]);
      var last := calls[|calls| - 1];
      var (history', answer) := Reference(limits, history, last.key, last.now);
      (history', answers + [answer])
  }

  lemma {:induction false} RunAgrees(limits: Limits, start: Time, calls: seq<Ask>, horizon: Time)
    requires ClockMovesForward(calls)
    requires calls == [] || horizon == calls[|calls| - 1].now - limits.window
    ensures Run(limits, start, calls).1 == ReferenceRun(limits, calls).1
    ensures Agree(Run(limits, start, calls).0, ReferenceRun(limits, calls).0, horizon)
  {
    if calls != [] {
      var before := calls[..|calls| - 1];
      var last := calls[|calls| - 1];
      var earlier := if before == [] then horizon else before[|before| - 1].now - limits.window;
      RunAgrees(limits, start, before, earlier);
      CallRefines(limits, Run(limits, start, before).0, ReferenceRun(limits, before).0, last.key, last.now, earlier);
    }
  }

  /** Trimming and sweeping cannot be observed: every call is answered as if nothing were ever forgotten. */
  lemma AnswersLikeTheReference(limits: Limits, start: Time, calls: seq<Ask>)
    requires ClockMovesForward(calls)
    ensures Run(limits, start, calls).1 == ReferenceRun(limits, calls).1
  {
    RunAgrees(limits, start, calls, if calls == [] then 0 else calls[|calls| - 1].now - limits.window);
  }

  // ----- the bound -----

  /** Accepted times in order, and any `maxAttempts + 1` of them in a row span at least one window. */
  ghost predicate Spaced(limits: Limits, times: seq<Time>) {
    && (forall i, j | 0 <= i < j < |times| :: times[i] <= times[j])
    && (limits.maxAttempts <= 0 ==> times == [])
    && (limits.maxAttempts > 0 ==>
          forall i, j | 0 <= i && j == i + limits.maxAttempts && j < |times| :: times[i] + limits.window <= times[j])
  }

  lemma {:induction false} LateOnesAreAfter(times: seq<Time>, i: nat, cutoff: Time)
    requires i < |times| && (forall j, k | 0 <= j < k < |times| :: times[j] <= times[k]) && times[i] > cutoff
    ensures |After(times, cutoff)| >= |times| - i
  {
    if i < |times| - 1 {
      LateOnesAreAfter(times[..|times| - 1], i, cutoff);
    }
  }

  lemma AcceptKeepsSpaced(limits: Limits, times: seq<Time>, now: Time)
    requires Spaced(limits, times) && UpTo(times, now)
    requires |After(times, now - limits.window)| < limits.maxAttempts
    ensures Spaced(limits, times + [now])
  {
    var first := |times| - limits.maxAttempts;
    if 0 <= first && times[first] > now - limits.window {
      LateOnesAreAfter(times, first, now - limits.window);
    }
  }

  ghost predicate UpTo(times: seq<Time>, now: Time) {
    forall i | 0 <= i < |times| :: times[i] <= now
  }

  lemma ReferenceKeepsSpaced(limits: Limits, history: map<Key, seq<Time>>, asked: Key, key: Key, now: Time)
    requires Spaced(limits, Times(history, key)) && UpTo(Times(history, key), now)
    ensures Spaced(limits, Times(Reference(limits, history, asked, now).0, key))
    ensures UpTo(Times(Reference(limits, history, asked, now).0, key), now)
  {
    var times := Times(history, key);
    if asked == key && |After(times, now - limits.window)| < limits.maxAttempts {
      AcceptKeepsSpaced(limits, times, now);
      assert Times(Reference(limits, history, asked, now).0, key) == times + [now];
    } else {
      assert Times(Reference(limits, history, asked, now).0, key) == times;
    }
  }

  lemma {:induction false} HistoryIsSpaced(limits: Limits, calls: seq<Ask>, key: Key, now: Time)
    requires ClockMovesForward(calls) && (calls != [] ==> calls[|calls| - 1].now <= now)
    ensures Spaced(limits, Times(ReferenceRun(limits, calls).0, key))
    ensures UpTo(Times(ReferenceRun(limits, calls).0, key), now)
  {
    if calls != [] {
      var last := calls[|calls| - 1];
      HistoryIsSpaced(limits, calls[..|calls| - 1], key, last.now);
      ReferenceKeepsSpaced(limits, ReferenceRun(limits, calls[..|calls| - 1]).0, last.key, key, last.now);
    }
  }

  function CountIn(times: seq<Time>, from: Time, to: Time): nat {
    if times == [] then 0
    else
      var last := times[|times| - 1];
      CountIn(times[..|times| - 1], from, to) + (if from < last <= to then 1 else 0)
  }

  /** In an ordered list, what lies in an interval lies between the positions where the interval starts and ends. */
  lemma {:induction false} CountBetween(times: seq<Time>, from: Time, to: Time) returns (start: nat, end: nat)
    requires forall i, j | 0 <= i < j < |times| :: times[i] <= times[j]
    ensures start <= end <= |times| && CountIn(times, from, to) <= end - start
    ensures start < end ==> from < times[start] && times[end - 1] <= to
  {
    if times == [] {
      return 0, 0;
    }
    var n := |times| - 1;
    start, end := CountBetween(times[..n], from, to);
    if from < times[n] <= to {
      if start == end { start := n; }
      end := n + 1;
    }
  }

  lemma SpacedBound(limits: Limits, times: seq<Time>, from: Time)
    requires Spaced(limits, times)
    ensures CountIn(times, from, from + limits.window) <= if limits.maxAttempts > 0 then limits.maxAttempts else 0
  {
    var start, end := CountBetween(times, from, from + limits.window);
    if 0 < limits.maxAttempts < |times| - start {
      assert times[start] + limits.window <= times[start + limits.maxAttempts];
    }
  }

  /** At most `maxAttempts` attempts per key are accepted in any interval of one window. */
  lemma AtMostMaxPerWindow(limits: Limits, calls: seq<Ask>, key: Key, from: Time)
    requires ClockMovesForward(calls)
    ensures CountIn(Times(ReferenceRun(limits, calls).0, key), from, from + limits.window)
            <= if limits.maxAttempts > 0 then limits.maxAttempts else 0
  {
    HistoryIsSpaced(limits, calls, key, if calls == [] then 0 else calls[|calls| - 1].now);
    SpacedBound(limits, Times(ReferenceRun(limits, calls).0, key), from);
  }
}
