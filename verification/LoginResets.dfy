/**
  What a reset of an admin's factors ends, and what outlives it; who gets a session from an enrolment.

  The runs are those of the logins: a reset is one transaction between the statements of any number of flights.
*/
module LoginResets {
  import opened LoginSessions
  import MfaFactors
  import opened Option

  type AdminId = MfaFactors.AdminId
  type Token = MfaFactors.Token

  // ----- resetting an admin -----

  /** Where the flights of before a reset have got to: who was not ready to mint then never mints. */
  ghost predicate ResetHolds(before: World, w: World, admin: AdminId) {
    && |before.flights| <= |w.flights|
    && (forall i | 0 <= i < |before.flights| :: FlightAfterReset(before.flights[i], w, i, admin))
    && (forall t | t in w.rows && w.rows[t].Session? && w.rows[t].admin == admin ::
          MayMintAfterReset(before, w.rows[t].flight))
  }

  predicate FlightAfterReset(f: Flight, w: World, i: nat, admin: AdminId)
    requires i < |w.flights|
  {
    && w.flights[i].way == f.way && w.flights[i].admin == f.admin && w.flights[i].pending == f.pending
    && (f.phase.Closed? ==> w.flights[i].phase == f.phase)
    && (f.admin == admin && f.pending.Some? && !Consumed(f.phase) ==>
          f.pending.value < w.next && f.pending.value !in w.rows && !Consumed(w.flights[i].phase))
    && (f.admin == admin && f.phase.Claimed? ==>
          && f.phase.handle < w.next && (admin in w.handles ==> w.handles[admin] != f.phase.handle)
          && (w.flights[i].phase == f.phase || w.flights[i].phase == Closed(false)))
  }

  predicate PastItsRow(f: Flight) {
    f.phase.Minting? || (f.pending.None? && !f.phase.Closed? && !f.phase.Claimed?)
  }

  predicate MayMintAfterReset(before: World, i: nat) {
    i < |before.flights| ==> PastItsRow(before.flights[i])
  }

  predicate PasswordlessPhase(f: Flight) {
    f.way.Passwordless? ==> Holds(f.phase) || f.phase.Proven? || f.phase.Closed?
  }

  predicate NextPhase(f: Flight, g: Flight, w: World) {
    && g.way == f.way && g.admin == f.admin && g.pending == f.pending
    && (f.phase.Closed? ==> g.phase == f.phase)
    && (Consumed(g.phase) && !Consumed(f.phase) && f.pending.Some? ==> f.pending.value in w.rows)
    && (g.phase == Closed(true) && f.phase != Closed(true) ==> ReadyToMint(f))
    && (f.phase.Claimed? ==>
          || g.phase == f.phase || g.phase == Closed(false)
          || (f.admin in w.handles && w.handles[f.admin] == f.phase.handle))
    && (PasswordlessPhase(f) ==> PasswordlessPhase(g))
    && (g.phase.Verified? ==> f.phase.Verified? || (f.phase.Resolved? && f.way.TotpEnrolment?))
    && (g.phase.Resolved? ==> f.phase.Resolved?)
  }

  ghost predicate FlightsMove(w: World, w': World) {
    && |w.flights| <= |w'.flights|
    && (forall i | 0 <= i < |w.flights| :: NextPhase(w.flights[i], w'.flights[i], w))
    && (forall i | |w.flights| <= i < |w'.flights| :: PasswordlessPhase(w'.flights[i]))
  }

  /** A row is as it was, a pending row, or the session the step has just minted. */
  predicate RowMove(w: World, step: Step, t: Token, row: Row) {
    || (t in w.rows && row.Pending?)
    || (t in w.rows && w.rows[t] == row)
    || (t == w.next && row.Pending?)
    || (t == w.next && step.Mint? && step.i < |w.flights| && ReadyToMint(w.flights[step.i])
        && row.flight == step.i && row.admin == w.flights[step.i].admin)
  }

  ghost predicate RowsMove(w: World, step: Step, w': World) {
    w.next <= w'.next && forall t | t in w'.rows :: RowMove(w, step, t, w'.rows[t])
  }

  /** A handle given to an account is a new one. */
  ghost predicate HandlesMove(w: World, w': World) {
    forall a | a in w'.handles :: (a in w.handles && w'.handles[a] == w.handles[a]) || w'.handles[a] == w.next
  }

  lemma StepMovesHandles(w: World, step: Step)
    ensures HandlesMove(w, Do(w, step))
  {
    if Enabled(w, step) {
      if Proves(step) {
        ProvingEffect(w, step);
      } else if Finishes(step) {
        FinishingEffect(w, step);
      } else if IsPasswordless(step) {
        PasswordlessEffect(w, step);
      } else {
        OthersMoveHandles(w, step);
      }
    }
  }

  lemma OthersMoveHandles(w: World, step: Step)
    requires Enabled(w, step) && !Proves(step) && !Finishes(step) && !IsPasswordless(step)
    ensures HandlesMove(w, Do(w, step))
  {
  }

  lemma OneFlightMoves(w: World, w': World, i: nat, phase: Phase)
    requires i < |w.flights| && w'.flights == w.flights[i := w.flights[i].(phase := phase)]
    requires NextPhase(w.flights[i], w.flights[i].(phase := phase), w)
    ensures FlightsMove(w, w')
  {
  }

  lemma AssertionMoves(w: World, i: nat, c: OneTime, ok: bool)
    requires InFlight(w, i, Resolved)
    ensures var w' := DoAssertion(w, i, c, ok); FlightsMove(w, w') && w'.rows == w.rows && w'.next == w.next
  {
    var w' := DoAssertion(w, i, c, ok);
    OneFlightMoves(w, w', i, w'.flights[i].phase);
  }

  lemma TakeCodeMoves(w: World, i: nat)
    requires i < |w.flights| && w.flights[i].phase.Matched?
    ensures var w' := DoTakeCode(w, i); FlightsMove(w, w') && w'.rows == w.rows && w'.next == w.next
  {
    var w' := DoTakeCode(w, i);
    OneFlightMoves(w, w', i, w'.flights[i].phase);
  }

  lemma ProvingMoves(w: World, step: Step)
    requires step.Verdict? || step.MatchCode? || step.CheckPolicy?
    requires Enabled(w, step)
    ensures FlightsMove(w, Do(w, step)) && Do(w, step).rows == w.rows && Do(w, step).next == w.next
  {
    ProvingEffect(w, step);
    var phase := Do(w, step).flights[step.i].phase;
    OneFlightMoves(w, Do(w, step), step.i, phase);
  }

  lemma ClosingMoves(w: World, w': World, i: nat)
    requires i < |w.flights| && OneMoved(w, w', i) && MayClose(w.flights[i].phase, w'.flights[i].phase)
    ensures FlightsMove(w, w')
  {
    OneFlightMoves(w, w', i, w'.flights[i].phase);
  }

  predicate MayClose(before: Phase, after: Phase) {
    !before.Closed? && (after == Closed(false) || (after == Dropping && before == Failing))
  }

  lemma ConsumingMoves(w: World, i: nat)
    requires InFlight(w, i, Proven) && w.flights[i].pending.Some? && FlightFits(w, i)
    ensures FlightsMove(w, DoConsumePending(w, i))
  {
    OneFlightMoves(w, DoConsumePending(w, i), i, DoConsumePending(w, i).flights[i].phase);
  }

  lemma MintingMoves(w: World, i: nat)
    requires i < |w.flights| && ReadyToMint(w.flights[i]) && FlightFits(w, i)
    ensures FlightsMove(w, DoMint(w, i))
  {
    OneFlightMoves(w, DoMint(w, i), i, Closed(true));
  }

  lemma FinishingMoves(w: World, step: Step)
    requires Inv(w) && Finishes(step) && Enabled(w, step)
    ensures FlightsMove(w, Do(w, step))
  {
    assert FlightFits(w, step.i);
    FinishingEffect(w, step);
    if step.ConsumePending? {
      ConsumingMoves(w, step.i);
    } else if step.Mint? && step.ok {
      MintingMoves(w, step.i);
    } else {
      ClosingMoves(w, Do(w, step), step.i);
    }
  }

  lemma MintRowsMove(w: World, i: nat, ok: bool)
    requires i < |w.flights| && ReadyToMint(w.flights[i])
    ensures RowsMove(w, Mint(i, ok), DoMint(w, i))
  {
  }

  lemma FailureRowsMove(w: World, step: Step, i: nat)
    requires i < |w.flights| && w.flights[i].pending.Some?
    ensures RowsMove(w, step, DoRecordFailure(w, i))
  {
  }

  lemma DeletedRowsMove(w: World, step: Step, w': World)
    requires w'.next == w.next && forall t | t in w'.rows :: t in w.rows && w'.rows[t] == w.rows[t]
    ensures RowsMove(w, step, w')
  {
  }

  lemma FinishingRowsMove(w: World, step: Step)
    requires Finishes(step) && Enabled(w, step)
    ensures RowsMove(w, step, Do(w, step))
  {
    if step.RecordFailure? {
      FailureRowsMove(w, step, step.i);
    } else if step.Mint? && step.ok {
      MintRowsMove(w, step.i, step.ok);
    } else {
      DeletedRowsMove(w, step, Do(w, step));
    }
  }

  lemma StepMoves(w: World, step: Step)
    requires Inv(w)
    ensures FlightsMove(w, Do(w, step)) && RowsMove(w, step, Do(w, step))
  {
    if Enabled(w, step) {
      if step.Assertion? {
        AssertionMoves(w, step.i, step.challenge, step.ok);
      } else if step.TakeCode? {
        TakeCodeMoves(w, step.i);
      } else if Proves(step) {
        ProvingMoves(w, step);
      } else if Finishes(step) {
        FinishingMoves(w, step);
        FinishingRowsMove(w, step);
      } else if IsPasswordless(step) {
        PasswordlessMoves(w, step);
      } else {
        OtherMoves(w, step);
      }
    }
  }

  lemma ClaimMoves(w: World, step: Step)
    requires step.ClaimPasswordless? && Enabled(w, step)
    ensures FlightsMove(w, Do(w, step))
  {
  }

  lemma ReadingMoves(w: World, i: nat)
    requires i < |w.flights| && w.flights[i].phase.Claimed?
    ensures FlightsMove(w, DoReadAccount(w, i))
  {
    OneFlightMoves(w, DoReadAccount(w, i), i, DoReadAccount(w, i).flights[i].phase);
  }

  lemma LoadingMoves(w: World, i: nat)
    requires i < |w.flights| && w.flights[i].phase.Named?
    ensures FlightsMove(w, DoLoadCredentials(w, i))
  {
    OneFlightMoves(w, DoLoadCredentials(w, i), i, DoLoadCredentials(w, i).flights[i].phase);
  }

  lemma LoadedMoves(w: World, i: nat, evidence: Evidence)
    requires i < |w.flights| && w.flights[i].phase.Loaded?
    ensures FlightsMove(w, Prove(w, i, evidence)) && FlightsMove(w, Become(w, i, Closed(false)))
  {
    OneFlightMoves(w, Prove(w, i, evidence), i, Proven);
    OneFlightMoves(w, Become(w, i, Closed(false)), i, Closed(false));
  }

  lemma PasswordlessMoves(w: World, step: Step)
    requires IsPasswordless(step) && Enabled(w, step)
    ensures FlightsMove(w, Do(w, step)) && RowsMove(w, step, Do(w, step))
  {
    PasswordlessEffect(w, step);
    match step
    case ClaimPasswordless(_, _, _) => ClaimMoves(w, step);
    case ReadAccount(i) => ReadingMoves(w, i);
    case LoadCredentials(i) => LoadingMoves(w, i);
    case FinishPasswordless(i, _) => LoadedMoves(w, i, Spending(w.flights[i].phase.use));
  }

  lemma OtherMoves(w: World, step: Step)
    requires Enabled(w, step) && !Proves(step) && !Finishes(step) && !IsPasswordless(step)
    ensures FlightsMove(w, Do(w, step)) && RowsMove(w, step, Do(w, step))
  {
    OtherRowsMove(w, step);
  }

  lemma OtherRowsMove(w: World, step: Step)
    requires Enabled(w, step) && !Proves(step) && !Finishes(step) && !IsPasswordless(step)
    ensures RowsMove(w, step, Do(w, step))
  {
  }

  lemma FlightStaysReset(before: World, w: World, step: Step, w': World, i: nat, admin: AdminId)
    requires ResetHolds(before, w, admin) && FlightsMove(w, w') && RowsMove(w, step, w') && HandlesMove(w, w')
    requires i < |before.flights|
    ensures FlightAfterReset(before.flights[i], w', i, admin)
  {
    assert FlightAfterReset(before.flights[i], w, i, admin) && NextPhase(w.flights[i], w'.flights[i], w);
    var f := before.flights[i];
    if f.pending.Some? && f.pending.value in w'.rows {
      assert RowMove(w, step, f.pending.value, w'.rows[f.pending.value]);
    }
  }

  lemma SessionStaysAllowed(before: World, w: World, step: Step, w': World, t: Token, admin: AdminId)
    requires Inv(w) && ResetHolds(before, w, admin) && RowsMove(w, step, w')
    requires t in w'.rows && w'.rows[t].Session? && w'.rows[t].admin == admin
    ensures MayMintAfterReset(before, w'.rows[t].flight)
  {
    assert RowMove(w, step, t, w'.rows[t]);
    var i := w'.rows[t].flight;
    if (t !in w.rows || w.rows[t] != w'.rows[t]) && i < |before.flights| {
      assert FlightAfterReset(before.flights[i], w, i, admin) && FlightFits(w, i);
    }
  }

  lemma ResetHoldsFirst(steps: seq<Step>, admin: AdminId)
    ensures ResetHolds(Run(steps), Run(steps + [ResetMFA(admin)]), admin)
  {
    RunKeepsInv(steps);
    OneMoreStep(steps, ResetMFA(admin));
    JustAfterReset(Run(steps), admin);
  }

  lemma ResetHoldsOneMore(before: World, steps: seq<Step>, step: Step, admin: AdminId)
    requires ResetHolds(before, Run(steps), admin)
    ensures ResetHolds(before, Run(steps + [step]), admin)
  {
    RunKeepsInv(steps);
    OneMoreStep(steps, step);
    ResetHoldsAfterStep(before, Run(steps), step, admin);
  }

  lemma {:induction false} ResetStillHolds(steps: seq<Step>, more: seq<Step>, admin: AdminId)
    ensures ResetHolds(Run(steps), Run(steps + [ResetMFA(admin)] + more), admin)
  {
    var reset := steps + [ResetMFA(admin)];
    if more == [] {
      ResetHoldsFirst(steps, admin);
      assert reset + more == reset;
    } else {
      var n := |more| - 1;
      ResetStillHolds(steps, more[..n], admin);
      ResetHoldsOneMore(Run(steps), reset + more[..n], more[n], admin);
      assert reset + more[..n] + [more[n]] == reset + more;
    }
  }

  lemma ResetHoldsAfterStep(before: World, w: World, step: Step, admin: AdminId)
    requires Inv(w) && ResetHolds(before, w, admin)
    ensures ResetHolds(before, Do(w, step), admin)
  {
    StepMoves(w, step);
    StepMovesHandles(w, step);
    ResetHoldsAfterMove(before, w, step, Do(w, step), admin);
  }

  lemma ResetHoldsAfterMove(before: World, w: World, step: Step, w': World, admin: AdminId)
    requires Inv(w) && ResetHolds(before, w, admin) && FlightsMove(w, w') && RowsMove(w, step, w') && HandlesMove(w, w')
    ensures ResetHolds(before, w', admin)
  {
    forall i | 0 <= i < |before.flights| ensures FlightAfterReset(before.flights[i], w', i, admin) {
      FlightStaysReset(before, w, step, w', i, admin);
    }
    forall t | t in w'.rows && w'.rows[t].Session? && w'.rows[t].admin == admin
      ensures MayMintAfterReset(before, w'.rows[t].flight)
    {
      SessionStaysAllowed(before, w, step, w', t, admin);
    }
  }

  lemma PendingIsNotMinted(w: World, t: Token)
    requires RowsOk(w) && t in w.everPending
    ensures t !in w.minted
  {
  }

  lemma JustAfterReset(before: World, admin: AdminId)
    requires Inv(before)
    ensures ResetHolds(before, DoResetMFA(before, admin), admin)
  {
    var w := DoResetMFA(before, admin);
    forall i | 0 <= i < |before.flights| ensures FlightAfterReset(before.flights[i], w, i, admin) {
      assert FlightFits(before, i);
      var f := before.flights[i];
      if f.pending.Some? && f.pending.value in w.rows {
        assert RowFits(before, f.pending.value, before.rows[f.pending.value]);
        PendingIsNotMinted(before, f.pending.value);
      }
    }
  }

  lemma {:induction false} PasswordlessPhases(steps: seq<Step>, i: nat)
    requires i < |Run(steps).flights|
    ensures PasswordlessPhase(Run(steps).flights[i])
  {
    var before, step := steps[..|steps| - 1], steps[|steps| - 1];
    RunKeepsInv(before);
    StepMoves(Run(before), step);
    if i < |Run(before).flights| {
      PasswordlessPhases(before, i);
      assert NextPhase(Run(before).flights[i], Run(steps).flights[i], Run(before));
    }
  }

  /**
    The login has deleted its pending row, or it is a passwordless one that has found its handle. From there on it
    asks for nothing that a reset takes away and that cannot be there again before it looks.
  */
  predicate BeyondReset(f: Flight) {
    f.phase.Minting? || (f.way.Passwordless? && (f.phase.Named? || f.phase.Loaded? || f.phase.Proven?))
  }

  lemma PastItsRowIsBeyond(steps: seq<Step>, i: nat)
    requires i < |Run(steps).flights| && PastItsRow(Run(steps).flights[i])
    ensures BeyondReset(Run(steps).flights[i])
  {
    RunKeepsInv(steps);
    PasswordlessPhases(steps, i);
    assert FlightFits(Run(steps), i);
  }

  /**
    A reset leaves the admin no row. Later they have a session only from a login that started after the reset, or
    from one that had deleted its pending row, or was passwordless and had found its handle, when the reset committed.
  */
  lemma ResetEndsLogins(steps: seq<Step>, more: seq<Step>, admin: AdminId, t: Token)
    ensures var w := Run(steps + [ResetMFA(admin)]); t in w.rows ==> w.rows[t].admin != admin
    ensures var w := Run(steps + [ResetMFA(admin)] + more);
            Accepts(w, t) && w.rows[t].admin == admin ==>
              var i := w.rows[t].flight;
              i >= |Run(steps).flights| || BeyondReset(Run(steps).flights[i])
  {
    assert (steps + [ResetMFA(admin)])[..|steps|] == steps;
    ResetStillHolds(steps, more, admin);
    var w := Run(steps + [ResetMFA(admin)] + more);
    if Accepts(w, t) && w.rows[t].admin == admin && w.rows[t].flight < |Run(steps).flights| {
      assert MayMintAfterReset(Run(steps), w.rows[t].flight);
      PastItsRowIsBeyond(steps, w.rows[t].flight);
    }
  }

  predicate SessionOf(w: World, t: Token, admin: AdminId, i: nat) {
    Accepts(w, t) && w.rows[t].admin == admin && w.rows[t].flight == i
  }

  ghost predicate OutlivesReset(steps: seq<Step>, admin: AdminId, i: nat) {
    exists more: seq<Step>, t: Token :: SessionOf(Run(steps + [ResetMFA(admin)] + more), t, admin, i)
  }

  lemma ReadyMints(steps: seq<Step>, i: nat) returns (more: seq<Step>)
    requires i < |Run(steps).flights| && ReadyToMint(Run(steps).flights[i])
    ensures SessionOf(Run(steps + more), Run(steps).next, Run(steps).flights[i].admin, i)
  {
    more := [Mint(i, true)];
    OneMoreStep(steps, Mint(i, true));
    MintGivesSession(Run(steps), i);
  }

  lemma LoadedFinishes(w: World, i: nat)
    requires i < |w.flights| && w.flights[i].phase.Loaded? && w.flights[i].way.Passwordless?
    ensures var w1 := Do(w, FinishPasswordless(i, true));
            OneMoved(w, w1, i) && w1.next == w.next && ReadyToMint(w1.flights[i])
  {
  }

  lemma LoadedMints(steps: seq<Step>, i: nat) returns (more: seq<Step>)
    requires i < |Run(steps).flights| && Run(steps).flights[i].phase.Loaded? && Run(steps).flights[i].way.Passwordless?
    ensures SessionOf(Run(steps + more), Run(steps).next, Run(steps).flights[i].admin, i)
  {
    LoadedFinishes(Run(steps), i);
    OneMoreStep(steps, FinishPasswordless(i, true));
    more := ReadyMints(steps + [FinishPasswordless(i, true)], i);
    assert steps + [FinishPasswordless(i, true)] + more == steps + ([FinishPasswordless(i, true)] + more);
    more := [FinishPasswordless(i, true)] + more;
  }

  lemma NamedLoads(w: World, i: nat)
    requires i < |w.flights| && w.flights[i].phase.Named? && w.flights[i].way.Passwordless?
    ensures var w1 := Do(Do(w, SetFactors(w.flights[i].admin, MfaFactors.Factors(false, 1))), LoadCredentials(i));
            OneMoved(w, w1, i) && w1.next == w.next && w1.flights[i].phase.Loaded?
  {
  }

  /** A passkey whose registration was under way may be stored before the login loads the account's passkeys. */
  lemma NamedMints(steps: seq<Step>, i: nat) returns (more: seq<Step>)
    requires i < |Run(steps).flights| && Run(steps).flights[i].phase.Named? && Run(steps).flights[i].way.Passwordless?
    ensures SessionOf(Run(steps + more), Run(steps).next, Run(steps).flights[i].admin, i)
  {
    var store := SetFactors(Run(steps).flights[i].admin, MfaFactors.Factors(false, 1));
    NamedLoads(Run(steps), i);
    OneMoreStep(steps, store);
    OneMoreStep(steps + [store], LoadCredentials(i));
    more := LoadedMints(steps + [store] + [LoadCredentials(i)], i);
    assert steps + [store] + [LoadCredentials(i)] + more == steps + ([store] + [LoadCredentials(i)] + more);
    more := [store] + [LoadCredentials(i)] + more;
  }

  lemma BeyondMints(steps: seq<Step>, i: nat) returns (more: seq<Step>)
    requires i < |Run(steps).flights| && BeyondReset(Run(steps).flights[i])
    ensures SessionOf(Run(steps + more), Run(steps).next, Run(steps).flights[i].admin, i)
  {
    if Run(steps).flights[i].phase.Named? {
      more := NamedMints(steps, i);
    } else if Run(steps).flights[i].phase.Loaded? {
      more := LoadedMints(steps, i);
    } else {
      more := ReadyMints(steps, i);
    }
  }

  /** Exactly the admin's logins that are beyond it when the reset commits can have a session after it. */
  lemma OutlivesResetExactly(steps: seq<Step>, admin: AdminId, i: nat)
    requires i < |Run(steps).flights| && Run(steps).flights[i].admin == admin
    ensures OutlivesReset(steps, admin, i) <==> BeyondReset(Run(steps).flights[i])
  {
    if BeyondReset(Run(steps).flights[i]) {
      OneMoreStep(steps, ResetMFA(admin));
      var w := Run(steps + [ResetMFA(admin)]);
      var more := BeyondMints(steps + [ResetMFA(admin)], i);
      assert SessionOf(Run(steps + [ResetMFA(admin)] + more), w.next, admin, i);
    }
    if more: seq<Step>, t: Token :| SessionOf(Run(steps + [ResetMFA(admin)] + more), t, admin, i) {
      ResetEndsLogins(steps, more, admin, t);
    }
  }

  lemma MintGivesSession(w: World, i: nat)
    requires i < |w.flights| && ReadyToMint(w.flights[i])
    ensures SessionOf(Do(w, Mint(i, true)), w.next, w.flights[i].admin, i)
  {
  }

  lemma OneMoreStep(steps: seq<Step>, step: Step)
    ensures Run(steps + [step]) == Do(Run(steps), step)
  {
    assert (steps + [step])[..|steps|] == steps;
  }

  function ProvenLogin(admin: AdminId): seq<Step> {
    [SetFactors(admin, MfaFactors.Factors(true, 0))] + [Login(admin, MfaFactors.AnyFactor, false)] + [Resolve(0, TotpCode)] + [Verdict(0, true)]
  }

  lemma ProvenLoginWorld(admin: AdminId)
    ensures var w := Run(ProvenLogin(admin));
            && w.now == 0 && w.next == 1 && w.flights == [Flight(TotpCode, admin, Some(0), Proven)]
            && w.rows == map[0 := Pending(admin, Verify, PENDING_LIFE, 0)]
  {
    var first, login := SetFactors(admin, MfaFactors.Factors(true, 0)), Login(admin, MfaFactors.AnyFactor, false);
    OneMoreStep([], first);
    assert [] + [first] == [first];
    OneMoreStep([first], login);
    OneMoreStep([first] + [login], Resolve(0, TotpCode));
    OneMoreStep([first] + [login] + [Resolve(0, TotpCode)], Verdict(0, true));
  }

  /** A login that had deleted its pending row inserts the session after the reset. */
  lemma LoginAcrossReset(admin: AdminId)
    ensures exists steps: seq<Step>, t: Token ::
              var w := Run(steps + [ResetMFA(admin)] + [Mint(0, true)]);
              Accepts(w, t) && w.rows[t].admin == admin && w.rows[t].flight < |Run(steps).flights|
  {
    var steps := ProvenLogin(admin) + [ConsumePending(0)];
    ProvenLoginWorld(admin);
    ResetBetween(Run(ProvenLogin(admin)), admin);
    OneMoreStep(ProvenLogin(admin), ConsumePending(0));
    OneMoreStep(steps, ResetMFA(admin));
    OneMoreStep(steps + [ResetMFA(admin)], Mint(0, true));
    assert Accepts(Run(steps + [ResetMFA(admin)] + [Mint(0, true)]), 1);
  }

  lemma ResetBetween(w: World, admin: AdminId)
    requires w.now == 0 && w.next == 1 && w.flights == [Flight(TotpCode, admin, Some(0), Proven)]
    requires w.rows == map[0 := Pending(admin, Verify, PENDING_LIFE, 0)]
    ensures var consumed := Do(w, ConsumePending(0));
            var minted := Do(Do(consumed, ResetMFA(admin)), Mint(0, true));
            |consumed.flights| == 1 && SessionOf(minted, 1, admin, 0)
  {
    var consumed := Do(w, ConsumePending(0));
    assert consumed.flights == [Flight(TotpCode, admin, Some(0), Minting)];
    var reset := Do(consumed, ResetMFA(admin));
    assert reset.flights == consumed.flights && reset.next == 1;
    MintGivesSession(reset, 0);
  }

  // ----- enrolment -----

  /** Enrolling an authenticator app: the request can still turn it on. */
  predicate MayEnable(f: Flight) { f.way.TotpEnrolment? && (f.phase.Resolved? || f.phase.Verified?) }

  predicate Enables(w: World, admin: AdminId, i: nat) {
    && Enabled(w, EnableTotp(i)) && w.flights[i].admin == admin && FactorsOf(Do(w, EnableTotp(i)), admin).totpEnabled
  }

  ghost predicate EnablesAfterReset(steps: seq<Step>, admin: AdminId, i: nat) {
    exists more: seq<Step> :: Enables(Run(steps + [ResetMFA(admin)] + more), admin, i)
  }

  lemma {:induction false} VerifiedWasResolved(steps: seq<Step>, more: seq<Step>, i: nat)
    requires i < |Run(steps).flights|
    ensures var f, g := Run(steps).flights, Run(steps + more).flights;
            && |f| <= |g| && g[i].way == f[i].way
            && (g[i].phase.Verified? || g[i].phase.Resolved? ==> f[i].phase.Verified? || f[i].phase.Resolved?)
  {
    if more == [] {
      assert steps + more == steps;
    } else {
      var n := |more| - 1;
      var before := steps + more[..n];
      VerifiedWasResolved(steps, more[..n], i);
      assert (steps + more)[..|steps + more| - 1] == before;
      RunKeepsInv(before);
      StepMoves(Run(before), more[n]);
      assert NextPhase(Run(before).flights[i], Run(steps + more).flights[i], Run(before));
    }
  }

  lemma VerifiedEnables(w: World, i: nat)
    requires InFlight(w, i, Verified)
    ensures Enables(w, w.flights[i].admin, i)
  {
  }

  lemma RightCodeVerifies(w: World, i: nat)
    requires InFlight(w, i, Resolved) && w.flights[i].way.TotpEnrolment?
    ensures InFlight(Do(w, Verdict(i, true)), i, Verified) && Do(w, Verdict(i, true)).flights[i].admin == w.flights[i].admin
  {
  }

  lemma OnlyEnrolmentsEnable(steps: seq<Step>, more: seq<Step>, i: nat)
    requires i < |Run(steps).flights| && Enabled(Run(steps + more), EnableTotp(i))
    ensures MayEnable(Run(steps).flights[i])
  {
    VerifiedWasResolved(steps, more, i);
    RunKeepsInv(steps + more);
    assert FlightFits(Run(steps + more), i);
  }

  /** After a reset, exactly the enrolments that were neither refused nor done can turn the authenticator app on. */
  lemma EnablesAfterResetExactly(steps: seq<Step>, admin: AdminId, i: nat)
    requires i < |Run(steps).flights| && Run(steps).flights[i].admin == admin
    ensures EnablesAfterReset(steps, admin, i) <==> MayEnable(Run(steps).flights[i])
  {
    var all := steps + [ResetMFA(admin)];
    OneMoreStep(steps, ResetMFA(admin));
    var f, w := Run(steps).flights[i], Run(all);
    assert w.flights == Run(steps).flights;
    if MayEnable(f) {
      var more := if f.phase.Verified? then [] else [Verdict(i, true)];
      assert all + [] == all;
      if f.phase.Resolved? {
        RightCodeVerifies(w, i);
        OneMoreStep(all, Verdict(i, true));
      }
      VerifiedEnables(Run(all + more), i);
    }
    if more: seq<Step> :| Enables(Run(all + more), admin, i) {
      OnlyEnrolmentsEnable(all, more, i);
    }
  }

  /** The handler that completes an enrolment, uninterrupted. */
  function Complete(w: World, i: nat, policy: MfaFactors.Policy, passkeyAvailable: bool): World {
    Do(Do(Do(w, CheckPolicy(i, policy, passkeyAvailable)), ConsumePending(i)), Mint(i, true))
  }

  predicate WaitsToComplete(w: World, i: nat) {
    && InFlight(w, i, Resolved) && w.flights[i].way.Enrolment? && w.flights[i].pending.Some?
    && w.flights[i].pending.value in w.rows && w.rows[w.flights[i].pending.value].Pending?
  }

  lemma CompleteMints(w: World, i: nat, policy: MfaFactors.Policy, passkeyAvailable: bool)
    requires WaitsToComplete(w, i) && MfaFactors.PolicySatisfied(policy, FactorsOf(w, w.flights[i].admin), passkeyAvailable)
    ensures var w', f := Complete(w, i, policy, passkeyAvailable), w.flights[i];
            && w'.rows == (w.rows - {f.pending.value})[w.next := Session(f.admin, w.now + SESSION_LIFE, i, w.now)]
            && w'.flights == w.flights[i := f.(phase := Closed(true))]
            && w'.factors == w.factors && w'.now == w.now && w'.next == w.next + 1
  {
    var proved := Prove(w, i, PolicyMet(policy, FactorsOf(w, w.flights[i].admin), passkeyAvailable));
    assert Do(w, CheckPolicy(i, policy, passkeyAvailable)) == proved;
    ProvenMints(w, proved, i);
  }

  lemma ProvenMints(w: World, proved: World, i: nat)
    requires i < |w.flights| && w.flights[i].pending.Some? && proved.flights == w.flights[i := w.flights[i].(phase := Proven)]
    requires proved == w.(flights := proved.flights, proofs := proved.proofs)
    requires w.flights[i].pending.value in w.rows && w.rows[w.flights[i].pending.value].Pending?
    ensures var w', f := Do(Do(proved, ConsumePending(i)), Mint(i, true)), w.flights[i];
            && w'.rows == (w.rows - {f.pending.value})[w.next := Session(f.admin, w.now + SESSION_LIFE, i, w.now)]
            && w'.flights == w.flights[i := f.(phase := Closed(true))]
            && w'.factors == w.factors && w'.now == w.now && w'.next == w.next + 1
  {
    var consumed := Do(proved, ConsumePending(i));
    assert consumed.flights == w.flights[i := w.flights[i].(phase := Minting)];
  }

  lemma CompleteRefuses(w: World, i: nat, policy: MfaFactors.Policy, passkeyAvailable: bool)
    requires WaitsToComplete(w, i) && !MfaFactors.PolicySatisfied(policy, FactorsOf(w, w.flights[i].admin), passkeyAvailable)
    ensures Complete(w, i, policy, passkeyAvailable).rows == w.rows
  {
    var checked := Do(w, CheckPolicy(i, policy, passkeyAvailable));
    assert checked == Become(w, i, Closed(false));
  }

  /**
    An enrolment completes with a session exactly when the account's factors satisfy the policy, whichever login
    enrolled them.
  */
  lemma EnrolmentMintsExactly(steps: seq<Step>, i: nat, policy: MfaFactors.Policy, passkeyAvailable: bool)
    requires WaitsToComplete(Run(steps), i)
    ensures var w := Run(steps);
            (exists t: Token :: SessionOf(Complete(w, i, policy, passkeyAvailable), t, w.flights[i].admin, i)) <==>
              MfaFactors.PolicySatisfied(policy, FactorsOf(w, w.flights[i].admin), passkeyAvailable)
  {
    var w := Run(steps);
    var w' := Complete(w, i, policy, passkeyAvailable);
    if MfaFactors.PolicySatisfied(policy, FactorsOf(w, w.flights[i].admin), passkeyAvailable) {
      CompleteMints(w, i, policy, passkeyAvailable);
      assert SessionOf(w', w.next, w.flights[i].admin, i);
    } else {
      CompleteRefuses(w, i, policy, passkeyAvailable);
      RunKeepsInv(steps);
      forall t: Token ensures !SessionOf(w', t, w.flights[i].admin, i) {
        NoSessionYet(w, i, t);
      }
    }
  }

  lemma NoSessionYet(w: World, i: nat, t: Token)
    requires RowsOk(w) && InFlight(w, i, Resolved)
    ensures t in w.rows && w.rows[t].Session? ==> w.rows[t].flight != i
  {
    if t in w.rows && w.rows[t].Session? {
      assert RowFits(w, t, w.rows[t]);
      assert MintedBy(w, t, w.minted[t]);
    }
  }

  function TwoLoginsOneFactor(admin: AdminId): seq<Step> {
    [Login(admin, MfaFactors.AnyFactor, false)] + [Login(admin, MfaFactors.AnyFactor, false)] + [SetFactors(admin, MfaFactors.Factors(true, 0))]
    + [Resolve(0, Enrolment)] + [Resolve(1, Enrolment)]
  }

  lemma TwoLoginsWait(admin: AdminId)
    ensures var w := Run(TwoLoginsOneFactor(admin));
            && WaitsToComplete(w, 0) && WaitsToComplete(w, 1) && |w.flights| == 2
            && w.flights[0].admin == admin == w.flights[1].admin && w.flights[0].pending != w.flights[1].pending
            && FactorsOf(w, admin) == MfaFactors.Factors(true, 0) && w.next == 2
            && w.flights[0].pending == Some(0) && w.flights[1].pending == Some(1)
  {
    var login, set' := Login(admin, MfaFactors.AnyFactor, false), SetFactors(admin, MfaFactors.Factors(true, 0));
    OneMoreStep([], login);
    assert [] + [login] == [login];
    OneMoreStep([login], login);
    OneMoreStep([login] + [login], set');
    OneMoreStep([login] + [login] + [set'], Resolve(0, Enrolment));
    OneMoreStep([login] + [login] + [set'] + [Resolve(0, Enrolment)], Resolve(1, Enrolment));
  }

  /** Two logins wait for one enrolment, and once a factor is enrolled both complete. */
  lemma OneEnrolmentTwoSessions(admin: AdminId)
    ensures var w := Run(TwoLoginsOneFactor(admin));
            var w' := Complete(Complete(w, 0, MfaFactors.AnyFactor, false), 1, MfaFactors.AnyFactor, false);
            SessionOf(w', 2, admin, 0) && SessionOf(w', 3, admin, 1)
  {
    var w := Run(TwoLoginsOneFactor(admin));
    TwoLoginsWait(admin);
    CompleteMints(w, 0, MfaFactors.AnyFactor, false);
    CompleteMints(Complete(w, 0, MfaFactors.AnyFactor, false), 1, MfaFactors.AnyFactor, false);
  }
}
