/**
  The limiter as its callers see it: an attempt is refused exactly when enough of those before it were let through.
*/
module LimiterHistory {
  import opened RateLimiter

  /** The attempt that a run is continued with, and its answer. */
  function Answer(limits: Limits, start: Time, calls: seq<Ask>, ask: Ask): bool {
    Call(limits, Run(limits, start, calls).0, ask.key, ask.now).1
  }

  /** How many attempts for the key were let through later than the cutoff. */
  function LetThrough(limits: Limits, start: Time, calls: seq<Ask>, key: Key, cutoff: Time): nat {
    if calls == [] then 0
    else
      var before, last := calls[..|calls| - 1], calls[|calls| - 1];
      LetThrough(limits, start, before, key, cutoff) +
        (if last.key == key && last.now > cutoff && !Answer(limits, start, before, last) then 1 else 0)
  }

  lemma ForwardBefore(calls: seq<Ask>)
    requires ClockMovesForward(calls) && calls != []
    ensures ClockMovesForward(calls[..|calls| - 1])
    ensures |calls| > 1 ==> calls[|calls| - 2].now <= calls[|calls| - 1].now
  {
  }

  /** One more attempt is one more answer. */
  lemma OneMoreCall(limits: Limits, start: Time, calls: seq<Ask>, ask: Ask)
    ensures Run(limits, start, calls + [ask]).1 == Run(limits, start, calls).1 + [Answer(limits, start, calls, ask)]
    ensures ReferenceRun(limits, calls + [ask]) ==
              var (history, answers) := ReferenceRun(limits, calls);
              var (history', answer) := Reference(limits, history, ask.key, ask.now);
              (history', answers + [answer])
  {
    assert (calls + [ask])[..|calls|] == calls;
  }

  lemma SameLast(a: seq<bool>, b: seq<bool>, x: bool, y: bool)
    requires a + [x] == b + [y]
    ensures x == y
  {
    assert (a + [x])[|a + [x]| - 1] == x && (b + [y])[|b + [y]| - 1] == y;
  }

  lemma ReferenceAnswers(limits: Limits, start: Time, calls: seq<Ask>, ask: Ask)
    requires ClockMovesForward(calls + [ask])
    ensures Answer(limits, start, calls, ask) == Reference(limits, ReferenceRun(limits, calls).0, ask.key, ask.now).1
  {
    OneMoreCall(limits, start, calls, ask);
    AnswersLikeTheReference(limits, start, calls + [ask]);
    SameLast(Run(limits, start, calls).1, ReferenceRun(limits, calls).1, Answer(limits, start, calls, ask),
             Reference(limits, ReferenceRun(limits, calls).0, ask.key, ask.now).1);
  }

  /** The reference's history of a key is what was let through. */
  lemma {:induction false} HistoryIsLetThrough(limits: Limits, start: Time, calls: seq<Ask>, key: Key, cutoff: Time)
    requires ClockMovesForward(calls)
    ensures |After(Times(ReferenceRun(limits, calls).0, key), cutoff)| == LetThrough(limits, start, calls, key, cutoff)
  {
    if calls != [] {
      var before, last := calls[..|calls| - 1], calls[|calls| - 1];
      ForwardBefore(calls);
      HistoryIsLetThrough(limits, start, before, key, cutoff);
      assert before + [last] == calls;
      ReferenceAnswers(limits, start, before, last);
      ReferenceKeeps(limits, ReferenceRun(limits, before).0, last.key, last.now, key, cutoff);
    }
  }

  lemma ForwardPrefix(calls: seq<Ask>, ask: Ask)
    requires ClockMovesForward(calls + [ask])
    ensures ClockMovesForward(calls)
  {
    assert (calls + [ask])[..|calls + [ask]| - 1] == calls;
    ForwardBefore(calls + [ask]);
  }

  lemma ReferenceRefuses(limits: Limits, start: Time, calls: seq<Ask>, ask: Ask, answer: bool)
    requires ClockMovesForward(calls + [ask])
    requires answer == Answer(limits, start, calls, ask)
    ensures answer <==> LetThrough(limits, start, calls, ask.key, ask.now - limits.window) >= limits.maxAttempts
  {
    ReferenceAnswers(limits, start, calls, ask);
    ForwardPrefix(calls, ask);
    HistoryIsLetThrough(limits, start, calls, ask.key, ask.now - limits.window);
  }

  /**
    After every run of calls for all keys an attempt is refused exactly when, in the window that ends with it, as many
    attempts for its key were let through as the limit allows.
  */
  lemma RefusedExactly(limits: Limits, start: Time, calls: seq<Ask>, ask: Ask)
    requires ClockMovesForward(calls + [ask])
    ensures Answer(limits, start, calls, ask) <==>
              LetThrough(limits, start, calls, ask.key, ask.now - limits.window) >= limits.maxAttempts
  {
    var answer := Answer(limits, start, calls, ask);
    ReferenceRefuses(limits, start, calls, ask, answer);
  }
}
