/**
  Where a session comes from: the login, the verdict on the factor and the statement that used up the pending row,
  each in its own place in the run and all of one flight. Where a stamp comes from: an assertion that verified.
*/
module LoginProvenance {
  import LoginResets
  import opened LoginSessions
  import MfaFactors
  import opened Option

  type AdminId = MfaFactors.AdminId
  type Token = MfaFactors.Token

  // ----- the states of a run -----

  predicate Next(trace: seq<World>, steps: seq<Step>, n: nat) {
    n < |steps| && n + 1 < |trace| && trace[n + 1] == Do(trace[n], steps[n])
  }

  /** `trace` holds the state before every step and the last one. */
  ghost predicate IsTrace(trace: seq<World>, steps: seq<Step>) {
    |trace| == |steps| + 1 && trace[0] == FIRST && forall n | 0 <= n < |steps| :: Next(trace, steps, n)
  }

  lemma {:induction false} TraceAt(trace: seq<World>, steps: seq<Step>, n: nat)
    requires IsTrace(trace, steps) && n <= |steps|
    ensures trace[n] == Run(steps[..n])
  {
    if n > 0 {
      TraceAt(trace, steps, n - 1);
      assert Next(trace, steps, n - 1);
      assert steps[..n][..n - 1] == steps[..n - 1];
    }
  }

  ghost predicate Safe(w: World) { Inv(w) && HeldOk(w) && OnceNow(w) }

  lemma TraceIsSafe(trace: seq<World>, steps: seq<Step>, n: nat)
    requires IsTrace(trace, steps) && n <= |steps|
    ensures Safe(trace[n])
  {
    TraceAt(trace, steps, n);
    RunKeepsInv(steps[..n]);
  }

  lemma TraceStep(trace: seq<World>, steps: seq<Step>, n: nat)
    requires IsTrace(trace, steps) && n < |steps|
    ensures Safe(trace[n]) && trace[n + 1] == Do(trace[n], steps[n])
  {
    TraceIsSafe(trace, steps, n);
    assert Next(trace, steps, n);
  }

  // ----- what each step of a login must have had -----

  /** The password was right: a pending row for the factors the policy then asked for. */
  predicate LogsIn(w: World, step: Step, t: Token, row: Row)
    requires row.Pending?
  {
    && step.Login? && t == w.next && row.admin == step.admin && row.expires == w.now + PENDING_LIFE
    && (row.kind.Verify? <==> MfaFactors.PolicySatisfied(step.policy, FactorsOf(w, step.admin), step.passkeyAvailable))
  }

  predicate IsOpenCeremony(w: World, c: OneTime, purpose: Purpose) {
    c in w.open && c.Challenge? && c.purpose == purpose && w.now < c.expires
  }

  /** A flight begins with a pending row in time, of the kind its handler serves, or by claiming a ceremony. */
  predicate Begins(w: World, step: Step, i: nat, f: Flight) {
    && i == |w.flights|
    && match step
       case Resolve(token, way) =>
         && f == Flight(way, f.admin, Some(token), Resolved)
         && token in w.rows && w.rows[token].Pending? && w.now < w.rows[token].expires
         && f.admin == w.rows[token].admin
         && !way.Passwordless? && (way in {Enrolment, TotpEnrolment} <==> w.rows[token].kind.Enroll?)
       case ClaimPasswordless(c, admin, handle) =>
         f == Flight(Passwordless, admin, None, Claimed(|w.spent|, handle)) && IsOpenCeremony(w, c, PasswordlessCeremony)
       case _ => false
  }

  /** The step shows the factor that the flight was to prove. */
  predicate Shows(w: World, step: Step, i: nat) {
    && i < |w.flights|
    && var f := w.flights[i];
       match step
       case Verdict(j, ok) => j == i && ok && f.way.TotpCode? && f.phase.Resolved?
       case Assertion(j, c, ok) =>
         && j == i && ok && f.way.PasskeyAssertion? && f.phase.Resolved?
         && IsOpenCeremony(w, c, LoginCeremony) && f.pending == Some(c.binding)
       case TakeCode(j) =>
         j == i && f.way.Recovery? && f.phase.Matched? && RecoveryCode(f.phase.code, f.admin) in w.open
       case CheckPolicy(j, policy, passkeyAvailable) =>
         && j == i && f.way.Enrolment? && f.phase.Resolved?
         && MfaFactors.PolicySatisfied(policy, FactorsOf(w, f.admin), passkeyAvailable)
       case FinishPasswordless(j, accepted) => j == i && accepted && f.way.Passwordless? && f.phase.Loaded?
       case _ => false
  }

  predicate UsesRow(w: World, step: Step, i: nat) {
    && step == ConsumePending(i) && i < |w.flights| && w.flights[i].phase.Proven?
    && w.flights[i].pending.Some? && w.flights[i].pending.value in w.rows && w.rows[w.flights[i].pending.value].Pending?
  }

  predicate Mints(w: World, step: Step, t: Token, row: Row)
    requires row.Session?
  {
    && step == Mint(row.flight, true) && t == w.next
    && row.flight < |w.flights| && row.admin == w.flights[row.flight].admin
    && (w.flights[row.flight].phase.Minting?
        || (w.flights[row.flight].pending.None? && w.flights[row.flight].phase.Proven?))
    && row.created == w.now && row.expires == w.now + SESSION_LIFE
  }

  /** The account is the one the assertion's handle names. */
  predicate FindsAccount(w: World, step: Step, i: nat) {
    && step == ReadAccount(i) && i < |w.flights| && w.flights[i].phase.Claimed?
    && w.flights[i].admin in w.handles && w.handles[w.flights[i].admin] == w.flights[i].phase.handle
  }

  predicate LoadsPasskeys(w: World, step: Step, i: nat) {
    && step == LoadCredentials(i) && i < |w.flights| && w.flights[i].phase.Named?
    && FactorsOf(w, w.flights[i].admin).passkeyCount > 0
  }

  // ----- one step -----

  /** The step at which the factor of flight `i` is decided on. */
  predicate Judges(w: World, step: Step, i: nat) {
    && i < |w.flights| && Enabled(w, step)
    && match step
       case Verdict(j, _) => j == i && w.flights[i].way.TotpCode?
       case Assertion(j, _, _) => j == i
       case TakeCode(j) => j == i
       case CheckPolicy(j, _, _) => j == i
       case FinishPasswordless(j, _) => j == i
       case _ => false
  }

  predicate Undecided(phase: Phase) {
    phase.Resolved? || phase.Matched? || Holds(phase)
  }

  predicate SameLogin(f: Flight, g: Flight) { f.way == g.way && f.admin == g.admin && f.pending == g.pending }

  /** A flight gets on only by the step that earns it. */
  predicate GetsOn(w: World, step: Step, i: nat, f: Flight, g: Flight) {
    && SameLogin(f, g)
    && (PastProof(g.phase) ==> PastProof(f.phase) || Shows(w, step, i))
    && (Consumed(g.phase) && g.pending.Some? ==> Consumed(f.phase) || UsesRow(w, step, i))
    && (g.phase.Named? ==> f.phase.Named? || FindsAccount(w, step, i))
    && (g.phase.Loaded? ==> f.phase.Loaded? || LoadsPasskeys(w, step, i))
    && (Undecided(g.phase) ==> Undecided(f.phase) && !Judges(w, step, i))
  }

  /** Only one flight, if any, is in another phase. */
  ghost predicate AllGetOn(w: World, step: Step, w': World) {
    && |w.flights| <= |w'.flights|
    && (forall i | 0 <= i < |w.flights| :: GetsOn(w, step, i, w.flights[i], w'.flights[i]))
    && (forall i | |w.flights| <= i < |w'.flights| :: Begins(w, step, i, w'.flights[i]))
  }

  lemma OneGetsOn(w: World, step: Step, w': World, i: nat)
    requires OneMoved(w, w', i) && GetsOn(w, step, i, w.flights[i], w'.flights[i])
    requires forall j | j != i :: !Judges(w, step, j)
    ensures AllGetOn(w, step, w')
  {
  }

  /** Phases that need nothing shown. */
  predicate Unearned(phase: Phase) {
    !PastProof(phase) && !phase.Named? && !phase.Loaded?
  }

  lemma UnearnedGetsOn(w: World, step: Step, i: nat, phase: Phase)
    requires i < |w.flights| && Unearned(phase)
    requires Undecided(phase) ==> Undecided(w.flights[i].phase) && !Judges(w, step, i)
    ensures GetsOn(w, step, i, w.flights[i], Become(w, i, phase).flights[i])
  {
  }

  lemma ProvenGetsOn(w: World, step: Step, i: nat)
    requires Shows(w, step, i)
    ensures GetsOn(w, step, i, w.flights[i], Become(w, i, Proven).flights[i])
  {
  }

  lemma AssertionGetsOn(w: World, i: nat, c: OneTime, ok: bool)
    requires Safe(w) && Enabled(w, Assertion(i, c, ok))
    ensures GetsOn(w, Assertion(i, c, ok), i, w.flights[i], DoAssertion(w, i, c, ok).flights[i])
  {
    assert FlightFits(w, i);
    UnearnedGetsOn(w, Assertion(i, c, ok), i, Failing);
    if MayClaim(w, c, LoginCeremony, w.flights[i].pending) && ok { ProvenGetsOn(w, Assertion(i, c, ok), i); }
  }

  lemma TakeCodeGetsOn(w: World, i: nat)
    requires Safe(w) && Enabled(w, TakeCode(i))
    ensures GetsOn(w, TakeCode(i), i, w.flights[i], DoTakeCode(w, i).flights[i])
  {
    assert FlightFits(w, i);
    UnearnedGetsOn(w, TakeCode(i), i, Failing);
    if RecoveryCode(w.flights[i].phase.code, w.flights[i].admin) in w.open { ProvenGetsOn(w, TakeCode(i), i); }
  }

  lemma VerdictGetsOn(w: World, i: nat, ok: bool)
    requires Enabled(w, Verdict(i, ok))
    ensures GetsOn(w, Verdict(i, ok), i, w.flights[i], Do(w, Verdict(i, ok)).flights[i])
  {
    UnearnedGetsOn(w, Verdict(i, ok), i, Failing);
    UnearnedGetsOn(w, Verdict(i, ok), i, Verified);
    if ok && w.flights[i].way.TotpCode? { ProvenGetsOn(w, Verdict(i, ok), i); }
  }

  lemma MatchGetsOn(w: World, i: nat, code: nat)
    requires Enabled(w, MatchCode(i, code))
    ensures GetsOn(w, MatchCode(i, code), i, w.flights[i], Do(w, MatchCode(i, code)).flights[i])
  {
    UnearnedGetsOn(w, MatchCode(i, code), i, Failing);
    UnearnedGetsOn(w, MatchCode(i, code), i, Matched(code));
  }

  lemma PolicyGetsOn(w: World, step: Step)
    requires step.CheckPolicy? && Enabled(w, step)
    ensures GetsOn(w, step, step.i, w.flights[step.i], Do(w, step).flights[step.i])
  {
    UnearnedGetsOn(w, step, step.i, Closed(false));
    if MfaFactors.PolicySatisfied(step.policy, FactorsOf(w, w.flights[step.i].admin), step.passkeyAvailable) {
      ProvenGetsOn(w, step, step.i);
    }
  }

  lemma ProvingGetsOn(w: World, step: Step)
    requires Safe(w) && Proves(step) && Enabled(w, step)
    ensures AllGetOn(w, step, Do(w, step))
  {
    ProvingEffect(w, step);
    if step.Assertion? {
      AssertionGetsOn(w, step.i, step.challenge, step.ok);
    } else if step.TakeCode? {
      TakeCodeGetsOn(w, step.i);
    } else if step.Verdict? {
      VerdictGetsOn(w, step.i, step.ok);
    } else if step.MatchCode? {
      MatchGetsOn(w, step.i, step.code);
    } else {
      PolicyGetsOn(w, step);
    }
    OneGetsOn(w, step, Do(w, step), step.i);
  }

  lemma UsingGetsOn(w: World, i: nat)
    requires UsesRow(w, ConsumePending(i), i)
    ensures GetsOn(w, ConsumePending(i), i, w.flights[i], Become(w, i, Minting).flights[i])
  {
  }

  lemma ConsumingGetsOn(w: World, i: nat)
    requires Enabled(w, ConsumePending(i))
    ensures GetsOn(w, ConsumePending(i), i, w.flights[i], DoConsumePending(w, i).flights[i])
  {
    UnearnedGetsOn(w, ConsumePending(i), i, Closed(false));
    if UsesRow(w, ConsumePending(i), i) { UsingGetsOn(w, i); }
  }

  lemma RecordingGetsOn(w: World, i: nat)
    requires Enabled(w, RecordFailure(i))
    ensures GetsOn(w, RecordFailure(i), i, w.flights[i], DoRecordFailure(w, i).flights[i])
  {
    UnearnedGetsOn(w, RecordFailure(i), i, Closed(false));
    UnearnedGetsOn(w, RecordFailure(i), i, Dropping);
  }

  lemma MintingGetsOn(w: World, i: nat, ok: bool)
    requires Safe(w) && Enabled(w, Mint(i, ok))
    ensures GetsOn(w, Mint(i, ok), i, w.flights[i], Do(w, Mint(i, ok)).flights[i])
  {
    assert FlightFits(w, i);
  }

  lemma ClosingGetsOn(w: World, step: Step)
    requires (step.DropPending? || step.Abandon? || step.EnableTotp?) && Enabled(w, step)
    ensures GetsOn(w, step, step.i, w.flights[step.i], Do(w, step).flights[step.i])
  {
    UnearnedGetsOn(w, step, step.i, Closed(false));
  }

  lemma FinishingGetsOn(w: World, step: Step)
    requires Safe(w) && Finishes(step) && Enabled(w, step)
    ensures AllGetOn(w, step, Do(w, step))
  {
    FinishingEffect(w, step);
    if step.ConsumePending? {
      ConsumingGetsOn(w, step.i);
    } else if step.RecordFailure? {
      RecordingGetsOn(w, step.i);
    } else if step.Mint? {
      MintingGetsOn(w, step.i, step.ok);
    } else {
      ClosingGetsOn(w, step);
    }
    OneGetsOn(w, step, Do(w, step), step.i);
  }

  lemma ClaimingGetsOn(w: World, step: Step)
    requires (step.ClaimPasswordless? || step.Resolve?) && Enabled(w, step)
    ensures AllGetOn(w, step, Do(w, step))
  {
  }

  lemma ReadingGetsOn(w: World, i: nat)
    requires Enabled(w, ReadAccount(i))
    ensures GetsOn(w, ReadAccount(i), i, w.flights[i], DoReadAccount(w, i).flights[i])
  {
    UnearnedGetsOn(w, ReadAccount(i), i, Closed(false));
  }

  lemma LoadingGetsOn(w: World, i: nat)
    requires Enabled(w, LoadCredentials(i))
    ensures GetsOn(w, LoadCredentials(i), i, w.flights[i], DoLoadCredentials(w, i).flights[i])
  {
  }

  lemma AcceptingGetsOn(w: World, i: nat, accepted: bool)
    requires Safe(w) && Enabled(w, FinishPasswordless(i, accepted))
    ensures GetsOn(w, FinishPasswordless(i, accepted), i, w.flights[i], Do(w, FinishPasswordless(i, accepted)).flights[i])
  {
    assert HeldFits(w, w.flights[i]);
    UnearnedGetsOn(w, FinishPasswordless(i, accepted), i, Closed(false));
    if accepted { ProvenGetsOn(w, FinishPasswordless(i, accepted), i); }
  }

  lemma PasswordlessGetsOn(w: World, step: Step)
    requires Safe(w) && IsPasswordless(step) && !step.ClaimPasswordless? && Enabled(w, step)
    ensures AllGetOn(w, step, Do(w, step))
  {
    PasswordlessEffect(w, step);
    match step {
      case ReadAccount(i) => ReadingGetsOn(w, i);
      case LoadCredentials(i) => LoadingGetsOn(w, i);
      case FinishPasswordless(i, accepted) => AcceptingGetsOn(w, i, accepted);
    }
    OneGetsOn(w, step, Do(w, step), step.i);
  }

  lemma FlightsStay(w: World, step: Step)
    requires Enabled(w, step) && !Proves(step) && !Finishes(step) && !IsPasswordless(step) && !step.Resolve?
    ensures Do(w, step).flights == w.flights
  {
    if !step.Login? && !step.Revoke? && !step.ResetMFA? { ElsewhereEffect(w, step); }
  }

  lemma StepGetsOn(w: World, step: Step)
    requires Safe(w)
    ensures AllGetOn(w, step, Do(w, step))
  {
    if Enabled(w, step) {
      if Proves(step) {
        ProvingGetsOn(w, step);
      } else if Finishes(step) {
        FinishingGetsOn(w, step);
      } else if step.ClaimPasswordless? || step.Resolve? {
        ClaimingGetsOn(w, step);
      } else if IsPasswordless(step) {
        PasswordlessGetsOn(w, step);
      } else {
        FlightsStay(w, step);
      }
    }
  }

  predicate SamePending(row: Row, row': Row) {
    row.Pending? && row'.Pending? && row' == row.(attempts := row'.attempts)
  }

  /** A row is one there was, but for its attempts, or the step made it. */
  predicate RowEarned(w: World, step: Step, t: Token, row: Row) {
    || (t in w.rows && (w.rows[t] == row || SamePending(w.rows[t], row)))
    || (row.Pending? && LogsIn(w, step, t, row))
    || (row.Session? && Mints(w, step, t, row))
  }

  ghost predicate RowsEarned(w: World, step: Step, w': World) {
    forall t | t in w'.rows :: RowEarned(w, step, t, w'.rows[t])
  }

  lemma MintEarned(w: World, i: nat, ok: bool)
    requires Safe(w) && Enabled(w, Mint(i, ok))
    ensures RowsEarned(w, Mint(i, ok), Do(w, Mint(i, ok)))
  {
    assert FlightFits(w, i);
  }

  lemma RecordingEarned(w: World, i: nat)
    requires Enabled(w, RecordFailure(i))
    ensures RowsEarned(w, RecordFailure(i), DoRecordFailure(w, i))
  {
  }

  lemma FewerRowsEarned(w: World, step: Step, w': World)
    requires forall t | t in w'.rows :: t in w.rows && w'.rows[t] == w.rows[t]
    ensures RowsEarned(w, step, w')
  {
  }

  lemma DroppingEarned(w: World, i: nat, ok: bool)
    requires Enabled(w, DropPending(i, ok))
    ensures RowsEarned(w, DropPending(i, ok), DoDropPending(w, i, ok))
  {
    FewerRowsEarned(w, DropPending(i, ok), DoDropPending(w, i, ok));
  }

  lemma ConsumingEarned(w: World, i: nat)
    requires Enabled(w, ConsumePending(i))
    ensures RowsEarned(w, ConsumePending(i), DoConsumePending(w, i))
  {
    FewerRowsEarned(w, ConsumePending(i), DoConsumePending(w, i));
  }

  lemma ClosingEarned(w: World, step: Step)
    requires (step.Abandon? || step.EnableTotp?) && Enabled(w, step)
    ensures RowsEarned(w, step, Do(w, step))
  {
    FewerRowsEarned(w, step, Do(w, step));
  }

  lemma LoginEarned(w: World, step: Step)
    requires step.Login? || step.Revoke? || step.ResetMFA? || step.Resolve?
    ensures RowsEarned(w, step, Do(w, step))
  {
  }

  lemma FinishingEarned(w: World, step: Step)
    requires Safe(w) && Finishes(step) && Enabled(w, step)
    ensures RowsEarned(w, step, Do(w, step))
  {
    match step
    case Mint(i, ok) => MintEarned(w, i, ok);
    case RecordFailure(i) => RecordingEarned(w, i);
    case DropPending(i, ok) => DroppingEarned(w, i, ok);
    case ConsumePending(i) => ConsumingEarned(w, i);
    case _ => ClosingEarned(w, step);
  }

  lemma RowsStay(w: World, step: Step)
    requires Enabled(w, step) && !ChangesRows(step)
    ensures Do(w, step).rows == w.rows
  {
    if Proves(step) {
      ProvingEffect(w, step);
    } else if IsPasswordless(step) {
      PasswordlessEffect(w, step);
    } else {
      ElsewhereEffect(w, step);
    }
  }

  lemma StepEarns(w: World, step: Step)
    requires Safe(w)
    ensures RowsEarned(w, step, Do(w, step))
  {
    if Enabled(w, step) {
      if Finishes(step) {
        FinishingEarned(w, step);
      } else if ChangesRows(step) {
        LoginEarned(w, step);
      } else {
        RowsStay(w, step);
        FewerRowsEarned(w, step, Do(w, step));
      }
    }
  }

  // ----- looking back over a run -----

  lemma GetsOnAt(trace: seq<World>, steps: seq<Step>, n: nat)
    requires IsTrace(trace, steps) && n < |steps|
    ensures AllGetOn(trace[n], steps[n], trace[n + 1])
  {
    TraceStep(trace, steps, n);
    StepGetsOn(trace[n], steps[n]);
  }

  lemma RowsAt(trace: seq<World>, steps: seq<Step>, n: nat)
    requires IsTrace(trace, steps) && n < |steps|
    ensures RowsEarned(trace[n], steps[n], trace[n + 1]) && trace[n].next <= trace[n + 1].next
  {
    TraceStep(trace, steps, n);
    StepEarns(trace[n], steps[n]);
    StepKeepsOnce(trace[n], steps[n]);
  }

  lemma {:induction false} Birth(trace: seq<World>, steps: seq<Step>, n: nat, i: nat) returns (b: nat)
    requires IsTrace(trace, steps) && n <= |steps| && i < |trace[n].flights|
    ensures b < n && i < |trace[b + 1].flights| && Begins(trace[b], steps[b], i, trace[b + 1].flights[i])
    ensures SameLogin(trace[b + 1].flights[i], trace[n].flights[i])
    decreases n
  {
    GetsOnAt(trace, steps, n - 1);
    if i < |trace[n - 1].flights| {
      assert GetsOn(trace[n - 1], steps[n - 1], i, trace[n - 1].flights[i], trace[n].flights[i]);
      b := Birth(trace, steps, n - 1, i);
    } else {
      b := n - 1;
    }
  }

  /** The flight before a step that it had already begun at. */
  lemma Before(trace: seq<World>, steps: seq<Step>, n: nat, i: nat)
    requires IsTrace(trace, steps) && 0 < n <= |steps| && i < |trace[n].flights| && !Fresh(trace[n].flights[i].phase)
    ensures i < |trace[n - 1].flights|
    ensures GetsOn(trace[n - 1], steps[n - 1], i, trace[n - 1].flights[i], trace[n].flights[i])
  {
    GetsOnAt(trace, steps, n - 1);
  }

  predicate Fresh(phase: Phase) { phase.Resolved? || phase.Claimed? }

  lemma {:induction false} ShownAt(trace: seq<World>, steps: seq<Step>, n: nat, i: nat) returns (p: nat)
    requires IsTrace(trace, steps) && n <= |steps| && i < |trace[n].flights| && PastProof(trace[n].flights[i].phase)
    ensures p < n && Shows(trace[p], steps[p], i) && SameLogin(trace[p].flights[i], trace[n].flights[i])
    decreases n
  {
    Before(trace, steps, n, i);
    if PastProof(trace[n - 1].flights[i].phase) {
      p := ShownAt(trace, steps, n - 1, i);
    } else {
      p := n - 1;
    }
  }

  lemma {:induction false} UsedAt(trace: seq<World>, steps: seq<Step>, n: nat, i: nat) returns (c: nat)
    requires IsTrace(trace, steps) && n <= |steps| && i < |trace[n].flights|
    requires Consumed(trace[n].flights[i].phase) && trace[n].flights[i].pending.Some?
    ensures c < n && UsesRow(trace[c], steps[c], i) && SameLogin(trace[c].flights[i], trace[n].flights[i])
    decreases n
  {
    Before(trace, steps, n, i);
    if Consumed(trace[n - 1].flights[i].phase) {
      c := UsedAt(trace, steps, n - 1, i);
    } else {
      c := n - 1;
    }
  }

  lemma {:induction false} LoadedAt(trace: seq<World>, steps: seq<Step>, n: nat, i: nat) returns (l: nat)
    requires IsTrace(trace, steps) && n <= |steps| && i < |trace[n].flights| && trace[n].flights[i].phase.Loaded?
    ensures l < n && LoadsPasskeys(trace[l], steps[l], i) && SameLogin(trace[l].flights[i], trace[n].flights[i])
    decreases n
  {
    Before(trace, steps, n, i);
    if trace[n - 1].flights[i].phase.Loaded? {
      l := LoadedAt(trace, steps, n - 1, i);
    } else {
      l := n - 1;
    }
  }

  lemma {:induction false} FoundAt(trace: seq<World>, steps: seq<Step>, n: nat, i: nat) returns (r: nat)
    requires IsTrace(trace, steps) && n <= |steps| && i < |trace[n].flights| && trace[n].flights[i].phase.Named?
    ensures r < n && FindsAccount(trace[r], steps[r], i) && SameLogin(trace[r].flights[i], trace[n].flights[i])
    decreases n
  {
    Before(trace, steps, n, i);
    if trace[n - 1].flights[i].phase.Named? {
      r := FoundAt(trace, steps, n - 1, i);
    } else {
      r := n - 1;
    }
  }

  lemma {:induction false} LoggedInAt(trace: seq<World>, steps: seq<Step>, n: nat, t: Token) returns (l: nat)
    requires IsTrace(trace, steps) && n <= |steps| && t in trace[n].rows && trace[n].rows[t].Pending?
    ensures l < n && LogsIn(trace[l], steps[l], t, trace[n].rows[t])
    decreases n
  {
    RowsAt(trace, steps, n - 1);
    assert RowEarned(trace[n - 1], steps[n - 1], t, trace[n].rows[t]);
    if LogsIn(trace[n - 1], steps[n - 1], t, trace[n].rows[t]) {
      l := n - 1;
    } else {
      l := LoggedInAt(trace, steps, n - 1, t);
    }
  }

  lemma {:induction false} MintedAt(trace: seq<World>, steps: seq<Step>, n: nat, t: Token) returns (m: nat)
    requires IsTrace(trace, steps) && n <= |steps| && t in trace[n].rows && trace[n].rows[t].Session?
    ensures m < n && Mints(trace[m], steps[m], t, trace[n].rows[t])
    decreases n
  {
    RowsAt(trace, steps, n - 1);
    assert RowEarned(trace[n - 1], steps[n - 1], t, trace[n].rows[t]);
    if Mints(trace[n - 1], steps[n - 1], t, trace[n].rows[t]) {
      m := n - 1;
    } else {
      m := MintedAt(trace, steps, n - 1, t);
    }
  }

  // ----- the promises -----

  /** A login with a password: the steps at `l`, `b`, `p`, `c` and `m` of the run, in this order. */
  ghost predicate EarnedWithPassword(trace: seq<World>, steps: seq<Step>, t: Token, row: Row, l: nat, b: nat, p: nat, c: nat, m: nat)
    requires |trace| == |steps| + 1 && row.Session?
  {
    && l < b < p < c < m < |steps|
    && row.flight < |trace[m].flights| && trace[m].flights[row.flight].pending.Some?
    && var login, i := trace[m].flights[row.flight], row.flight;
       var token := login.pending.value;
       && token in trace[b].rows && trace[b].rows[token].Pending? && LogsIn(trace[l], steps[l], token, trace[b].rows[token])
       && steps[l] == Login(row.admin, steps[l].policy, steps[l].passkeyAvailable)
       && i < |trace[b + 1].flights| && Begins(trace[b], steps[b], i, trace[b + 1].flights[i])
       && SameLogin(trace[b + 1].flights[i], login)
       && Shows(trace[p], steps[p], i) && SameLogin(trace[p].flights[i], login)
       && UsesRow(trace[c], steps[c], i) && SameLogin(trace[c].flights[i], login)
       && Mints(trace[m], steps[m], t, row)
  }

  /** A login without one: a ceremony claimed, the account found, its passkeys loaded, the assertion accepted. */
  ghost predicate EarnedWithPasskey(trace: seq<World>, steps: seq<Step>, t: Token, row: Row, b: nat, r: nat, l: nat, p: nat, m: nat)
    requires |trace| == |steps| + 1 && row.Session?
  {
    && b < r < l < p < m < |steps|
    && row.flight < |trace[m].flights| && trace[m].flights[row.flight].pending.None?
    && var login, i := trace[m].flights[row.flight], row.flight;
       && i < |trace[b + 1].flights| && Begins(trace[b], steps[b], i, trace[b + 1].flights[i])
       && SameLogin(trace[b + 1].flights[i], login)
       && FindsAccount(trace[r], steps[r], i) && SameLogin(trace[r].flights[i], login)
       && LoadsPasskeys(trace[l], steps[l], i) && SameLogin(trace[l].flights[i], login)
       && steps[p] == FinishPasswordless(i, true) && Shows(trace[p], steps[p], i)
       && Mints(trace[m], steps[m], t, row)
  }

  lemma PasswordPedigree(trace: seq<World>, steps: seq<Step>, n: nat, t: Token, m: nat)
    requires IsTrace(trace, steps) && n <= |steps| && t in trace[n].rows && trace[n].rows[t].Session?
    requires m < n && Mints(trace[m], steps[m], t, trace[n].rows[t])
    requires trace[m].flights[trace[n].rows[t].flight].pending.Some?
    ensures exists l: nat, b: nat, p: nat, c: nat :: EarnedWithPassword(trace, steps, t, trace[n].rows[t], l, b, p, c, m)
  {
    var i := trace[n].rows[t].flight;
    var c := UsedAt(trace, steps, m, i);
    var p := ShownAt(trace, steps, c, i);
    var b := Birth(trace, steps, p, i);
    var l := LoggedInAt(trace, steps, b, trace[m].flights[i].pending.value);
    assert EarnedWithPassword(trace, steps, t, trace[n].rows[t], l, b, p, c, m);
  }

  lemma PasswordlessShows(w: World, step: Step, i: nat)
    requires Safe(w) && Shows(w, step, i) && w.flights[i].pending.None?
    ensures step == FinishPasswordless(i, true) && w.flights[i].phase.Loaded?
  {
    assert FlightFits(w, i);
  }

  lemma PasskeyPedigree(trace: seq<World>, steps: seq<Step>, n: nat, t: Token, m: nat)
    requires IsTrace(trace, steps) && n <= |steps| && t in trace[n].rows && trace[n].rows[t].Session?
    requires m < n && Mints(trace[m], steps[m], t, trace[n].rows[t])
    requires trace[m].flights[trace[n].rows[t].flight].pending.None?
    ensures exists b: nat, r: nat, l: nat, p: nat :: EarnedWithPasskey(trace, steps, t, trace[n].rows[t], b, r, l, p, m)
  {
    var i := trace[n].rows[t].flight;
    var p := ShownAt(trace, steps, m, i);
    TraceIsSafe(trace, steps, p);
    PasswordlessShows(trace[p], steps[p], i);
    var l := LoadedAt(trace, steps, p, i);
    var r := FoundAt(trace, steps, l, i);
    var b := Birth(trace, steps, r, i);
    assert EarnedWithPasskey(trace, steps, t, trace[n].rows[t], b, r, l, p, m);
  }

  /**
    Every session a protected handler accepts was earned step by step by its own flight: with a password, then a factor
    that was judged right, then the pending row; or by a passkey of the account that its handle names.
  */
  lemma EverySessionIsEarned(trace: seq<World>, steps: seq<Step>, t: Token)
    requires IsTrace(trace, steps) && Accepts(trace[|steps|], t)
    ensures var row := trace[|steps|].rows[t];
            row.Session? && trace[|steps|].now < row.created + SESSION_LIFE
    ensures var row := trace[|steps|].rows[t];
            || (exists l: nat, b: nat, p: nat, c: nat, m: nat :: EarnedWithPassword(trace, steps, t, row, l, b, p, c, m))
            || (exists b: nat, r: nat, l: nat, p: nat, m: nat :: EarnedWithPasskey(trace, steps, t, row, b, r, l, p, m))
  {
    var m := MintedAt(trace, steps, |steps|, t);
    if trace[m].flights[trace[|steps|].rows[t].flight].pending.Some? {
      PasswordPedigree(trace, steps, |steps|, t, m);
    } else {
      PasskeyPedigree(trace, steps, |steps|, t, m);
    }
  }

  // ----- what is not shown mints nothing, what is shown mints -----

  /** Every run has its states. */
  lemma {:induction false} TraceExists(steps: seq<Step>) returns (trace: seq<World>)
    ensures IsTrace(trace, steps)
  {
    if steps == [] {
      trace := [FIRST];
    } else {
      var n := |steps| - 1;
      var before := TraceExists(steps[..n]);
      TraceAt(before, steps[..n], n);
      assert steps[..n][..n] == steps[..n];
      trace := before + [Run(steps)];
      forall k | 0 <= k < |steps| ensures Next(trace, steps, k) {
        if k < n { assert Next(before, steps[..n], k); }
      }
    }
  }

  lemma {:induction false} StaysDecided(trace: seq<World>, steps: seq<Step>, a: nat, b: nat, i: nat)
    requires IsTrace(trace, steps) && a <= b <= |steps| && i < |trace[a].flights| && !Undecided(trace[a].flights[i].phase)
    ensures i < |trace[b].flights| && !Undecided(trace[b].flights[i].phase)
    decreases b
  {
    if a < b {
      StaysDecided(trace, steps, a, b - 1, i);
      GetsOnAt(trace, steps, b - 1);
      assert GetsOn(trace[b - 1], steps[b - 1], i, trace[b - 1].flights[i], trace[b].flights[i]);
    }
  }

  lemma ShowingJudges(w: World, step: Step, i: nat)
    requires Shows(w, step, i)
    ensures Judges(w, step, i) && Undecided(w.flights[i].phase)
  {
  }

  lemma JudgingDecides(w: World, step: Step, i: nat)
    requires Safe(w) && Judges(w, step, i)
    ensures Undecided(w.flights[i].phase)
    ensures i < |Do(w, step).flights| && !Undecided(Do(w, step).flights[i].phase)
  {
    StepGetsOn(w, step);
    assert GetsOn(w, step, i, w.flights[i], Do(w, step).flights[i]);
  }

  lemma JudgedAt(trace: seq<World>, steps: seq<Step>, a: nat, i: nat)
    requires IsTrace(trace, steps) && a < |steps| && Judges(trace[a], steps[a], i)
    ensures Undecided(trace[a].flights[i].phase)
    ensures i < |trace[a + 1].flights| && !Undecided(trace[a + 1].flights[i].phase)
  {
    TraceStep(trace, steps, a);
    JudgingDecides(trace[a], steps[a], i);
  }

  /** A flight is judged once. */
  lemma JudgedOnce(trace: seq<World>, steps: seq<Step>, a: nat, b: nat, i: nat)
    requires IsTrace(trace, steps) && a < |steps| && b < |steps|
    requires Judges(trace[a], steps[a], i) && Judges(trace[b], steps[b], i)
    ensures a == b
  {
    JudgedAt(trace, steps, a, i);
    JudgedAt(trace, steps, b, i);
    if a < b {
      StaysDecided(trace, steps, a + 1, b, i);
    } else if b < a {
      StaysDecided(trace, steps, b + 1, a, i);
    }
  }

  /** A token is given to one row; when that is gone it is gone for good. */
  lemma {:induction false} GoneForGood(trace: seq<World>, steps: seq<Step>, a: nat, b: nat, t: Token)
    requires IsTrace(trace, steps) && a <= b <= |steps| && t < trace[a].next && t !in trace[a].rows
    ensures t < trace[b].next && t !in trace[b].rows
    decreases b
  {
    if a < b {
      GoneForGood(trace, steps, a, b - 1, t);
      RowsAt(trace, steps, b - 1);
    }
  }

  /** The flight's pending row has not been used up, dropped or reset, where it needs one. */
  predicate RowWaits(w: World, i: nat)
    requires i < |w.flights|
  {
    w.flights[i].pending.Some? ==> w.flights[i].pending.value in w.rows && w.rows[w.flights[i].pending.value].Pending?
  }

  lemma WaitsBefore(trace: seq<World>, steps: seq<Step>, a: nat, c: nat, i: nat)
    requires IsTrace(trace, steps) && a < c < |steps| && i < |trace[a].flights|
    requires UsesRow(trace[c], steps[c], i) && SameLogin(trace[a].flights[i], trace[c].flights[i])
    ensures RowWaits(trace[a], i)
  {
    TraceIsSafe(trace, steps, a);
    RowIsPending(trace[a], i);
    var token := trace[a].flights[i].pending.value;
    if token !in trace[a].rows { GoneForGood(trace, steps, a, c, token); }
  }

  lemma RowIsPending(w: World, i: nat)
    requires Inv(w) && i < |w.flights| && w.flights[i].pending.Some?
    ensures var token := w.flights[i].pending.value; token < w.next && (token in w.rows ==> w.rows[token].Pending?)
  {
    assert FlightFits(w, i);
    var token := w.flights[i].pending.value;
    if token in w.rows { assert RowFits(w, token, w.rows[token]); }
  }

  lemma SessionNeedsShowing(trace: seq<World>, steps: seq<Step>, a: nat, t: Token, i: nat)
    requires IsTrace(trace, steps) && a < |steps| && Judges(trace[a], steps[a], i)
    requires t in trace[|steps|].rows && trace[|steps|].rows[t].Session? && trace[|steps|].rows[t].flight == i
    ensures Shows(trace[a], steps[a], i) && RowWaits(trace[a], i)
  {
    var m := MintedAt(trace, steps, |steps|, t);
    var p := ShownAt(trace, steps, m, i);
    ShowingJudges(trace[p], steps[p], i);
    JudgedOnce(trace, steps, a, p, i);
    if trace[m].flights[i].pending.Some? {
      var c := UsedAt(trace, steps, m, i);
      var p' := ShownAt(trace, steps, c, i);
      ShowingJudges(trace[p'], steps[p'], i);
      JudgedOnce(trace, steps, a, p', i);
      WaitsBefore(trace, steps, a, c, i);
    }
  }

  lemma ShowingProves(w: World, step: Step, i: nat)
    requires Safe(w) && Shows(w, step, i)
    ensures var w' := Do(w, step);
            && w'.flights == w.flights[i := w.flights[i].(phase := Proven)] && w'.rows == w.rows && w'.next == w.next
  {
    assert FlightFits(w, i);
  }

  lemma ProvenUses(w: World, i: nat)
    requires InFlight(w, i, Proven) && w.flights[i].pending.Some? && RowWaits(w, i)
    ensures var w' := Do(w, ConsumePending(i));
            i < |w'.flights| && w'.flights[i] == w.flights[i].(phase := Minting)
  {
  }

  lemma ProvenMints(steps: seq<Step>, i: nat) returns (more: seq<Step>, t: Token)
    requires InFlight(Run(steps), i, Proven) && RowWaits(Run(steps), i)
    ensures LoginResets.SessionOf(Run(steps + more), t, Run(steps).flights[i].admin, i)
  {
    RunKeepsInv(steps);
    assert FlightFits(Run(steps), i);
    if Run(steps).flights[i].pending.Some? {
      ProvenUses(Run(steps), i);
      LoginResets.OneMoreStep(steps, ConsumePending(i));
      t := Run(steps + [ConsumePending(i)]).next;
      more := LoginResets.ReadyMints(steps + [ConsumePending(i)], i);
      assert steps + [ConsumePending(i)] + more == steps + ([ConsumePending(i)] + more);
      more := [ConsumePending(i)] + more;
    } else {
      t := Run(steps).next;
      more := LoginResets.ReadyMints(steps, i);
    }
  }

  ghost predicate MintsLater(steps: seq<Step>, admin: AdminId, i: nat) {
    exists more: seq<Step>, t: Token :: LoginResets.SessionOf(Run(steps + more), t, admin, i)
  }

  lemma ShownMintsLater(steps: seq<Step>, step: Step, i: nat)
    requires Shows(Run(steps), step, i) && RowWaits(Run(steps), i)
    ensures MintsLater(steps + [step], Run(steps).flights[i].admin, i)
  {
    LoginResets.OneMoreStep(steps, step);
    RunKeepsInv(steps);
    ShowingProves(Run(steps), step, i);
    var more, t := ProvenMints(steps + [step], i);
    assert LoginResets.SessionOf(Run(steps + [step] + more), t, Run(steps).flights[i].admin, i);
  }

  lemma LaterSessionNeedsShowing(steps: seq<Step>, step: Step, more: seq<Step>, t: Token, admin: AdminId, i: nat)
    requires Judges(Run(steps), step, i) && LoginResets.SessionOf(Run(steps + [step] + more), t, admin, i)
    ensures Shows(Run(steps), step, i) && RowWaits(Run(steps), i)
  {
    var run := steps + [step] + more;
    var trace := TraceExists(run);
    TraceAt(trace, run, |steps|);
    TraceAt(trace, run, |run|);
    assert run[..|steps|] == steps && run[|steps|] == step && run[..|run|] == run;
    SessionNeedsShowing(trace, run, |steps|, t, i);
  }

  /**
    When the factor of a login is decided on, the login can still get its session exactly when the factor was shown and
    its pending row is still there: a right factor is never refused, a wrong one never accepted.
  */
  lemma FactorMintsExactly(steps: seq<Step>, step: Step, i: nat)
    requires Judges(Run(steps), step, i)
    ensures MintsLater(steps + [step], Run(steps).flights[i].admin, i) <==>
              Shows(Run(steps), step, i) && RowWaits(Run(steps), i)
  {
    var admin := Run(steps).flights[i].admin;
    if Shows(Run(steps), step, i) && RowWaits(Run(steps), i) { ShownMintsLater(steps, step, i); }
    if MintsLater(steps + [step], admin, i) {
      var more: seq<Step>, t: Token :| LoginResets.SessionOf(Run(steps + [step] + more), t, admin, i);
      LaterSessionNeedsShowing(steps, step, more, t, admin, i);
    }
  }

  lemma LoginWaits(w: World, login: Step, seconds: nat, way: Way)
    requires login.Login?
    ensures var waited := Do(Do(w, login), Wait(seconds));
            && waited.flights == w.flights
            && (MayResolve(waited, w.next, way) <==>
                  && seconds < PENDING_LIFE && !way.Passwordless?
                  && (way in {Enrolment, TotpEnrolment} <==>
                        !MfaFactors.PolicySatisfied(login.policy, FactorsOf(w, login.admin), login.passkeyAvailable)))
  {
  }

  /** After a right password a handler goes on exactly if it serves what the policy asked for, within ten minutes. */
  lemma LoginResolvesExactly(steps: seq<Step>, login: Step, seconds: nat, way: Way)
    requires login.Login?
    ensures var w := Run(steps);
            |Run(steps + [login] + [Wait(seconds)] + [Resolve(w.next, way)]).flights| == |w.flights| + 1 <==>
              && seconds < PENDING_LIFE && !way.Passwordless?
              && (way in {Enrolment, TotpEnrolment} <==>
                    !MfaFactors.PolicySatisfied(login.policy, FactorsOf(w, login.admin), login.passkeyAvailable))
  {
    var resolve := Resolve(Run(steps).next, way);
    LoginResets.OneMoreStep(steps, login);
    LoginResets.OneMoreStep(steps + [login], Wait(seconds));
    LoginResets.OneMoreStep(steps + [login] + [Wait(seconds)], resolve);
    LoginWaits(Run(steps), login, seconds, way);
    ResolveStarts(Run(steps + [login] + [Wait(seconds)]), Run(steps).next, way);
  }

  lemma ResolveStarts(w: World, token: Token, way: Way)
    ensures |Do(w, Resolve(token, way)).flights| == |w.flights| + (if MayResolve(w, token, way) then 1 else 0)
  {
  }

  /** A session whose row is deleted is never accepted again. */
  lemma RevokedStaysOut(trace: seq<World>, steps: seq<Step>, a: nat, t: Token)
    requires IsTrace(trace, steps) && a < |steps| && steps[a] == Revoke(t) && t in trace[a].rows
    ensures !Accepts(trace[|steps|], t)
  {
    TraceStep(trace, steps, a);
    FreshToken(trace[a], t);
    GoneForGood(trace, steps, a + 1, |steps|, t);
  }

  // ----- where codes, ceremonies and stamps come from -----

  /** A stamp is the mark of an assertion that verified, made for a session in force with a ceremony begun for it. */
  predicate IssuedBy(w: World, step: Step, c: OneTime) {
    match c
    case RecoveryCode(id, owner) => step == ReplaceCodes(owner) && w.next <= id < w.next + MfaFactors.RECOVERY_CODES
    case Challenge(id, purpose, binding, expires) =>
      step == BeginCeremony(purpose, binding) && id == w.next && expires == w.now + CHALLENGE_LIFE
    case Stamp(id, session, expires) =>
      && step.FinishStepUp? && step.accepted && IsOpenCeremony(w, step.challenge, StepUpCeremony)
      && step.challenge.binding == session && Accepts(w, session) && id == w.next && expires == w.now + STAMP_LIFE
  }

  /** Spent now, or before. */
  ghost predicate CredentialsEarned(w: World, step: Step, w': World) {
    && (forall c | c in w'.open :: c in w.open || IssuedBy(w, step, c))
    && |w.spent| <= |w'.spent|
    && (forall u | 0 <= u < |w.spent| :: w'.spent[u] == w.spent[u])
    && (forall u | |w.spent| <= u < |w'.spent| :: w'.spent[u].credential in w.open && w'.spent[u].at == w.now)
  }

  lemma AssertionEarns(w: World, i: nat, c: OneTime, ok: bool)
    requires i < |w.flights|
    ensures CredentialsEarned(w, Assertion(i, c, ok), DoAssertion(w, i, c, ok))
  {
  }

  lemma TakeCodeEarns(w: World, i: nat)
    requires i < |w.flights| && w.flights[i].phase.Matched?
    ensures CredentialsEarned(w, TakeCode(i), DoTakeCode(w, i))
  {
  }

  lemma StepUpEarns(w: World, c: OneTime, accepted: bool)
    requires Enabled(w, FinishStepUp(c, accepted))
    ensures CredentialsEarned(w, FinishStepUp(c, accepted), Do(w, FinishStepUp(c, accepted)))
  {
  }

  lemma IssuingEarns(w: World, step: Step)
    requires Issues(step)
    ensures CredentialsEarned(w, step, Do(w, step))
  {
  }

  lemma SpendingEarns(w: World, step: Step)
    requires Spends(step) && Enabled(w, step)
    ensures CredentialsEarned(w, step, Do(w, step))
  {
  }

  lemma OthersEarn(w: World, step: Step)
    requires Enabled(w, step) && !Proves(step) && !IsPasswordless(step) && !Finishes(step)
    requires !Issues(step) && !Spends(step) && !step.FinishStepUp?
    ensures CredentialsEarned(w, step, Do(w, step))
  {
  }

  lemma CredentialsStep(w: World, step: Step)
    ensures CredentialsEarned(w, step, Do(w, step))
  {
    if Enabled(w, step) {
      if step.Assertion? {
        AssertionEarns(w, step.i, step.challenge, step.ok);
      } else if step.TakeCode? {
        TakeCodeEarns(w, step.i);
      } else if step.FinishStepUp? {
        StepUpEarns(w, step.challenge, step.accepted);
      } else if Issues(step) {
        IssuingEarns(w, step);
      } else if Spends(step) {
        SpendingEarns(w, step);
      } else if Proves(step) {
        ProvingEffect(w, step);
      } else if Finishes(step) {
        FinishingEffect(w, step);
      } else if IsPasswordless(step) {
        PasswordlessEffect(w, step);
      } else {
        OthersEarn(w, step);
      }
    }
  }

  lemma CredentialsAt(trace: seq<World>, steps: seq<Step>, n: nat)
    requires IsTrace(trace, steps) && n < |steps|
    ensures CredentialsEarned(trace[n], steps[n], trace[n + 1])
  {
    TraceStep(trace, steps, n);
    CredentialsStep(trace[n], steps[n]);
  }

  lemma {:induction false} IssuedAt(trace: seq<World>, steps: seq<Step>, n: nat, c: OneTime) returns (k: nat)
    requires IsTrace(trace, steps) && n <= |steps| && c in trace[n].open
    ensures k < n && IssuedBy(trace[k], steps[k], c)
    decreases n
  {
    CredentialsAt(trace, steps, n - 1);
    if c in trace[n - 1].open {
      k := IssuedAt(trace, steps, n - 1, c);
    } else {
      k := n - 1;
    }
  }

  lemma {:induction false} SpentAt(trace: seq<World>, steps: seq<Step>, n: nat, u: nat) returns (k: nat)
    requires IsTrace(trace, steps) && n <= |steps| && u < |trace[n].spent|
    ensures k < n && trace[n].spent[u].credential in trace[k].open && trace[n].spent[u].at == trace[k].now
    decreases n
  {
    CredentialsAt(trace, steps, n - 1);
    if u < |trace[n - 1].spent| {
      k := SpentAt(trace, steps, n - 1, u);
    } else {
      k := n - 1;
    }
  }

  predicate IsCredential(w: World, c: OneTime) {
    c in w.open || exists u | 0 <= u < |w.spent| :: w.spent[u].credential == c
  }

  /** Every code, ceremony and stamp, open or spent, was issued by its own step: a stamp only when an assertion verified. */
  lemma EveryCredentialIsIssued(trace: seq<World>, steps: seq<Step>, c: OneTime)
    requires IsTrace(trace, steps) && IsCredential(trace[|steps|], c)
    ensures exists k | 0 <= k < |steps| :: IssuedBy(trace[k], steps[k], c)
  {
    var n := |steps|;
    if c !in trace[n].open {
      var u :| 0 <= u < |trace[n].spent| && trace[n].spent[u].credential == c;
      n := SpentAt(trace, steps, n, u);
    }
    var k := IssuedAt(trace, steps, n, c);
  }

  /** An assertion that verifies leaves the session its one stamp; one that does not, none. */
  lemma StepUpStampsExactly(w: World, c: OneTime, accepted: bool, stamp: OneTime)
    requires Enabled(w, FinishStepUp(c, accepted)) && stamp.Stamp?
    ensures stamp in Do(w, FinishStepUp(c, accepted)).open <==>
              if accepted && stamp.session == c.binding then stamp == Stamp(w.next, c.binding, w.now + STAMP_LIFE)
              else stamp in w.open
  {
  }
}
