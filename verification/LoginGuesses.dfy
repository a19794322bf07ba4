/**
  How many wrong factors can be tried on one pending row.

  A handler judges the factor first and records the failure afterwards, in a statement of its own. What has been
  judged and not recorded does not count yet.
*/
module LoginGuesses {
  import opened LoginSessions
  import MfaFactors
  import opened Option

  type AdminId = MfaFactors.AdminId
  type Token = MfaFactors.Token

  predicate FailingOn(f: Flight, t: Token) { f.phase.Failing? && f.pending == Some(t) }

  /** The wrong factors on a row whose failure is still to be recorded. */
  function Waiting(flights: seq<Flight>, t: Token): nat {
    if flights == [] then 0
    else Waiting(flights[..|flights| - 1], t) + (if FailingOn(flights[|flights| - 1], t) then 1 else 0)
  }

  predicate OnRow(w: World, i: nat, t: Token) { i < |w.flights| && w.flights[i].pending == Some(t) }

  /** The step tries a wrong factor on the row. */
  predicate Tries(w: World, step: Step, t: Token) {
    Proves(step) && Enabled(w, step) && OnRow(w, step.i, t) && InFlight(Do(w, step), step.i, Failing)
  }

  /** A failure is recorded against the row. */
  predicate Records(w: World, step: Step, t: Token) {
    step.RecordFailure? && Enabled(w, step) && OnRow(w, step.i, t) && t in w.rows && w.rows[t].Pending?
  }

  /** A handler gives up before it has recorded the failure, or finds no row to record it against. */
  predicate Skips(w: World, step: Step, t: Token) {
    && (step.Abandon? || step.RecordFailure?) && Enabled(w, step) && OnRow(w, step.i, t)
    && InFlight(w, step.i, Failing) && !Records(w, step, t)
  }

  function Tried(steps: seq<Step>, t: Token): nat {
    if steps == [] then 0
    else Tried(steps[..|steps| - 1], t) + (if Tries(Run(steps[..|steps| - 1]), steps[|steps| - 1], t) then 1 else 0)
  }

  function Skipped(steps: seq<Step>, t: Token): nat {
    if steps == [] then 0
    else Skipped(steps[..|steps| - 1], t) + (if Skips(Run(steps[..|steps| - 1]), steps[|steps| - 1], t) then 1 else 0)
  }

  // ----- accounting -----

  lemma {:induction false} WaitingOne(flights: seq<Flight>, i: nat, f: Flight, t: Token)
    requires i < |flights|
    ensures Waiting(flights[i := f], t) + (if FailingOn(flights[i], t) then 1 else 0) ==
              Waiting(flights, t) + (if FailingOn(f, t) then 1 else 0)
  {
    var n := |flights| - 1;
    if i == n {
      assert flights[i := f][..n] == flights[..n];
    } else {
      WaitingOne(flights[..n], i, f, t);
      assert flights[i := f][..n] == flights[..n][i := f];
    }
  }

  /** What one step does to the failures of a row: `settled` when it takes a flight off the waiting ones. */
  ghost predicate Accounts(w: World, w': World, t: Token, tries: bool, recorded: bool, skipped: bool) {
    && Failures(w', t) == Failures(w, t) + (if recorded then 1 else 0)
    && Waiting(w'.flights, t) + (if recorded || skipped then 1 else 0) ==
         Waiting(w.flights, t) + (if tries then 1 else 0)
  }

  lemma ProvingAccounts(w: World, step: Step, t: Token)
    requires Proves(step) && Enabled(w, step)
    ensures Accounts(w, Do(w, step), t, Tries(w, step, t), false, false)
  {
    ProvingEffect(w, step);
    WaitingOne(w.flights, step.i, Do(w, step).flights[step.i], t);
  }

  lemma RecordingAccounts(w: World, i: nat, t: Token)
    requires InFlight(w, i, Failing) && w.flights[i].pending.Some?
    ensures var step := RecordFailure(i);
            Accounts(w, Do(w, step), t, false, Records(w, step, t), Skips(w, step, t))
  {
    RecordingTouches(w, i);
    WaitingOne(w.flights, i, DoRecordFailure(w, i).flights[i], t);
  }

  lemma OtherPhaseAccounts(w: World, w': World, i: nat, t: Token)
    requires OneMoved(w, w', i) && w'.failures == w.failures && !w'.flights[i].phase.Failing?
    ensures Accounts(w, w', t, false, false, FailingOn(w.flights[i], t))
  {
    WaitingOne(w.flights, i, w'.flights[i], t);
  }

  lemma FinishingAccounts(w: World, step: Step, t: Token)
    requires Finishes(step) && Enabled(w, step)
    ensures Accounts(w, Do(w, step), t, false, Records(w, step, t), Skips(w, step, t))
  {
    if step.RecordFailure? {
      RecordingAccounts(w, step.i, t);
    } else {
      FinishingEffect(w, step);
      FinishingCountsNothing(w, step);
      if !step.Abandon? { OnlyAbandonsFailing(w, step); }
      OtherPhaseAccounts(w, Do(w, step), step.i, t);
    }
  }

  lemma OnlyAbandonsFailing(w: World, step: Step)
    requires Finishes(step) && !step.RecordFailure? && !step.Abandon? && Enabled(w, step)
    ensures !w.flights[step.i].phase.Failing?
  {
  }

  lemma PasswordlessAccounts(w: World, step: Step, t: Token)
    requires IsPasswordless(step) && Enabled(w, step)
    ensures Accounts(w, Do(w, step), t, false, false, false)
  {
    PasswordlessEffect(w, step);
    if step.ClaimPasswordless? {
      assert Do(w, step).flights[..|w.flights|] == w.flights;
    } else {
      OtherPhaseAccounts(w, Do(w, step), step.i, t);
    }
  }

  lemma OthersAccount(w: World, step: Step, t: Token)
    requires Enabled(w, step) && !Proves(step) && !Finishes(step) && !IsPasswordless(step)
    ensures Accounts(w, Do(w, step), t, false, false, false)
  {
    if step.Resolve? {
      assert Do(w, step).flights[..|w.flights|] == w.flights;
    }
  }

  lemma StepAccounts(w: World, step: Step, t: Token)
    ensures Accounts(w, Do(w, step), t, Tries(w, step, t), Records(w, step, t), Skips(w, step, t))
  {
    if Enabled(w, step) {
      if Proves(step) {
        ProvingAccounts(w, step, t);
      } else if Finishes(step) {
        FinishingAccounts(w, step, t);
      } else if IsPasswordless(step) {
        PasswordlessAccounts(w, step, t);
      } else {
        OthersAccount(w, step, t);
      }
    }
  }

  /** Every wrong factor tried is recorded, waits to be, or was given up on. */
  lemma {:induction false} GuessesAreAccountedFor(steps: seq<Step>, t: Token)
    ensures Tried(steps, t) == Failures(Run(steps), t) + Waiting(Run(steps).flights, t) + Skipped(steps, t)
  {
    if steps != [] {
      var before := steps[..|steps| - 1];
      GuessesAreAccountedFor(before, t);
      StepAccounts(Run(before), steps[|steps| - 1], t);
    }
  }

  // ----- the bound -----

  /** While a row is pending and nobody is deleting it, at most four wrong factors beyond the unrecorded ones were tried. */
  lemma AtMostFourRecorded(steps: seq<Step>, t: Token)
    requires t in Run(steps).rows && Run(steps).rows[t].Pending? && !BeingDropped(Run(steps), t)
    ensures Tried(steps, t) <= 4 + Waiting(Run(steps).flights, t) + Skipped(steps, t)
  {
    GuessesAreAccountedFor(steps, t);
    if Failures(Run(steps), t) >= MAX_ATTEMPTS {
      PendingSurvivesFourFailures(steps, t);
    }
  }

  ghost predicate NobodyOn(w: World, t: Token) {
    forall i | 0 <= i < |w.flights| && w.flights[i].pending == Some(t) :: w.flights[i].phase.Closed?
  }

  lemma {:induction false} NobodyWaits(flights: seq<Flight>, t: Token)
    requires forall i | 0 <= i < |flights| && flights[i].pending == Some(t) :: flights[i].phase.Closed?
    ensures Waiting(flights, t) == 0
  {
    if flights != [] { NobodyWaits(flights[..|flights| - 1], t); }
  }

  /** With handlers in turn, none of which stopped short, every handler that begins finds at most four wrong factors tried. */
  lemma FourInTurn(steps: seq<Step>, t: Token, way: Way)
    requires MayResolve(Run(steps), t, way)
    requires NobodyOn(Run(steps), t) && t !in Run(steps).lost && Skipped(steps, t) == 0
    ensures Tried(steps, t) <= 4
  {
    NobodyWaits(Run(steps).flights, t);
    AtMostFourRecorded(steps, t);
  }

  // ----- without the turn -----

  /** Logging in, and `n` wrong codes that are all judged before any is recorded. */
  function Guesses(admin: AdminId, n: nat): seq<Step> {
    if n == 0 then [] + [SetFactors(admin, MfaFactors.Factors(true, 0))] + [Login(admin, MfaFactors.AnyFactor, false)]
    else Guesses(admin, n - 1) + [Resolve(0, TotpCode)] + [Verdict(n - 1, false)]
  }

  lemma OneMore(steps: seq<Step>, step: Step, t: Token)
    ensures Run(steps + [step]) == Do(Run(steps), step)
    ensures Tried(steps + [step], t) == Tried(steps, t) + (if Tries(Run(steps), step, t) then 1 else 0)
    ensures Skipped(steps + [step], t) == Skipped(steps, t) + (if Skips(Run(steps), step, t) then 1 else 0)
  {
    assert (steps + [step])[..|steps|] == steps;
  }

  predicate GuessWorld(w: World, admin: AdminId, n: nat) {
    && w.now == 0 && w.next == 1 && |w.flights| == n && w.failures == map[]
    && w.rows == map[0 := Pending(admin, Verify, PENDING_LIFE, 0)]
  }

  lemma GuessOnce(w: World, admin: AdminId, n: nat)
    requires GuessWorld(w, admin, n)
    ensures var resolved := Do(w, Resolve(0, TotpCode));
            && InFlight(resolved, n, Resolved) && GuessWorld(resolved, admin, n + 1)
            && resolved.flights[n] == Flight(TotpCode, admin, Some(0), Resolved)
            && Tries(resolved, Verdict(n, false), 0) && GuessWorld(Do(resolved, Verdict(n, false)), admin, n + 1)
  {
  }

  lemma GuessStart(admin: AdminId)
    ensures GuessWorld(Run(Guesses(admin, 0)), admin, 0)
    ensures Tried(Guesses(admin, 0), 0) == 0 && Skipped(Guesses(admin, 0), 0) == 0
  {
    OneMore([], SetFactors(admin, MfaFactors.Factors(true, 0)), 0);
    OneMore([] + [SetFactors(admin, MfaFactors.Factors(true, 0))], Login(admin, MfaFactors.AnyFactor, false), 0);
  }

  lemma GuessStep(steps: seq<Step>, admin: AdminId, n: nat)
    requires GuessWorld(Run(steps), admin, n)
    ensures var all := steps + [Resolve(0, TotpCode)] + [Verdict(n, false)];
            GuessWorld(Run(all), admin, n + 1) && Tried(all, 0) == Tried(steps, 0) + 1 && Skipped(all, 0) == Skipped(steps, 0)
  {
    GuessOnce(Run(steps), admin, n);
    OneMore(steps, Resolve(0, TotpCode), 0);
    OneMore(steps + [Resolve(0, TotpCode)], Verdict(n, false), 0);
  }

  lemma {:induction false} GuessesWorld(admin: AdminId, n: nat)
    ensures GuessWorld(Run(Guesses(admin, n)), admin, n)
    ensures Tried(Guesses(admin, n), 0) == n && Skipped(Guesses(admin, n), 0) == 0
  {
    if n == 0 {
      GuessStart(admin);
    } else {
      GuessesWorld(admin, n - 1);
      GuessStep(Guesses(admin, n - 1), admin, n - 1);
    }
  }

  lemma RightGuess(w: World, admin: AdminId, n: nat)
    requires GuessWorld(w, admin, n)
    ensures var proved := Do(Do(w, Resolve(0, TotpCode)), Verdict(n, true));
            Accepts(Do(Do(proved, ConsumePending(n)), Mint(n, true)), 1)
  {
    GuessOnce(w, admin, n);
    var proved := Do(Do(w, Resolve(0, TotpCode)), Verdict(n, true));
    assert proved.flights[n] == Flight(TotpCode, admin, Some(0), Proven);
  }

  /** Handlers that overlap can try any number of wrong codes on one row, and a right one after them still logs in. */
  lemma AnyNumberOfGuesses(admin: AdminId, n: nat)
    ensures var steps := Guesses(admin, n);
            && Tried(steps, 0) == n && Skipped(steps, 0) == 0 && Failures(Run(steps), 0) == 0
            && Accepts(Run(steps + [Resolve(0, TotpCode)] + [Verdict(n, true)] + [ConsumePending(n)] + [Mint(n, true)]), 1)
  {
    var steps := Guesses(admin, n);
    GuessesWorld(admin, n);
    RightGuess(Run(steps), admin, n);
    OneMore(steps, Resolve(0, TotpCode), 0);
    OneMore(steps + [Resolve(0, TotpCode)], Verdict(n, true), 0);
    OneMore(steps + [Resolve(0, TotpCode)] + [Verdict(n, true)], ConsumePending(n), 0);
    OneMore(steps + [Resolve(0, TotpCode)] + [Verdict(n, true)] + [ConsumePending(n)], Mint(n, true), 0);
  }
}
