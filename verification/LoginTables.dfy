/**
  What is in the login tables after a run, told from the steps alone: which codes, ceremonies and stamps can still be
  used, which sessions are in force, which logins are pending.
*/
module LoginTables {
  import opened LoginProvenance
  import opened LoginSessions
  import MfaFactors
  import opened Option

  type AdminId = MfaFactors.AdminId
  type Token = MfaFactors.Token

  // ----- since when -----

  /** Begun at step `k`, and not ended up to step `n`. */
  ghost predicate Since(begins: nat -> bool, ends: nat -> bool, k: nat, n: nat) {
    k < n && begins(k) && forall j | k < j < n :: !ends(j)
  }

  /** Something begins at certain steps and ends at others. */
  lemma {:induction false} HoldsSince(holds: nat -> bool, begins: nat -> bool, ends: nat -> bool, n: nat)
    requires !holds(0) && forall k: nat | k < n :: holds(k + 1) <==> (holds(k) && !ends(k)) || begins(k)
    ensures holds(n) <==> exists k: nat :: Since(begins, ends, k, n)
  {
    if n > 0 {
      var before := n - 1;
      HoldsSince(holds, begins, ends, before);
      if begins(before) { assert Since(begins, ends, before, n); }
      if k: nat :| Since(begins, ends, k, before) {
        assert !ends(before) ==> Since(begins, ends, k, n);
      }
      if k: nat :| Since(begins, ends, k, n) {
        assert k < before ==> Since(begins, ends, k, before);
      }
    }
  }

  // ----- codes, ceremonies and stamps -----

  /** The step uses the credential up or withdraws it. */
  predicate Takes(w: World, step: Step, c: OneTime) {
    && Enabled(w, step)
    && match step
       case Assertion(i, claimed, _) =>
         c == claimed && IsOpenCeremony(w, c, LoginCeremony)
         && (w.flights[i].pending.Some? ==> c.binding == w.flights[i].pending.value)
       case TakeCode(i) => c == RecoveryCode(w.flights[i].phase.code, w.flights[i].admin)
       case ClaimPasswordless(claimed, _, _) => c == claimed
       case FinishStepUp(claimed, accepted) => c == claimed || (accepted && c.Stamp? && c.session == claimed.binding)
       case UseStamp(stamp) => c == stamp
       case StepUpWithCode(typed) => c == typed
       case ReplaceCodes(admin) => c.RecoveryCode? && c.owner == admin
       case ClearStamps(admin) => c.Stamp? && c.session in w.rows && w.rows[c.session].admin == admin
       case ResetMFA(admin) => BelongsTo(w, c, admin)
       case _ => false
  }

  /** The admin's codes, the ceremonies bound to a login or a session of theirs, the stamps of their sessions. */
  predicate BelongsTo(w: World, c: OneTime, admin: AdminId) {
    match c
    case RecoveryCode(_, owner) => owner == admin
    case Challenge(_, purpose, binding, _) =>
      && !purpose.PasswordlessCeremony?
      && ((binding in w.everPending && w.everPending[binding] == admin) || (binding in w.rows && w.rows[binding].admin == admin))
    case Stamp(_, session, _) => session in w.rows && w.rows[session].admin == admin
  }

  predicate OpenStep(w: World, step: Step, w': World, c: OneTime) {
    c in w'.open <==> (c in w.open && !Takes(w, step, c)) || IssuedBy(w, step, c)
  }

  lemma AssertionTakes(w: World, i: nat, claimed: OneTime, ok: bool, c: OneTime)
    requires Enabled(w, Assertion(i, claimed, ok))
    ensures OpenStep(w, Assertion(i, claimed, ok), DoAssertion(w, i, claimed, ok), c)
  {
  }

  lemma TakeCodeTakes(w: World, i: nat, c: OneTime)
    requires Enabled(w, TakeCode(i))
    ensures OpenStep(w, TakeCode(i), DoTakeCode(w, i), c)
  {
  }

  lemma StepUpTakes(w: World, claimed: OneTime, accepted: bool, c: OneTime)
    requires Enabled(w, FinishStepUp(claimed, accepted))
    ensures OpenStep(w, FinishStepUp(claimed, accepted), Do(w, FinishStepUp(claimed, accepted)), c)
  {
  }

  lemma SpendingTakes(w: World, step: Step, c: OneTime)
    requires Spends(step) && Enabled(w, step)
    ensures OpenStep(w, step, Do(w, step), c)
  {
  }

  lemma IssuingTakes(w: World, step: Step, c: OneTime)
    requires Issues(step)
    ensures OpenStep(w, step, Do(w, step), c)
  {
  }

  lemma WithdrawingTakes(w: World, step: Step, c: OneTime)
    requires step.ClearStamps? || step.ResetMFA?
    ensures OpenStep(w, step, Do(w, step), c)
  {
  }

  lemma NothingTaken(w: World, step: Step, w': World, c: OneTime)
    requires w'.open == w.open && !step.Assertion? && !step.TakeCode? && !step.FinishStepUp?
    requires !Spends(step) && !Issues(step) && !step.ClearStamps? && !step.ResetMFA?
    ensures OpenStep(w, step, w', c)
  {
  }

  lemma OthersTakeNothing(w: World, step: Step)
    requires Enabled(w, step) && !Proves(step) && !IsPasswordless(step) && !Finishes(step) && !step.FinishStepUp?
    requires !Spends(step) && !Issues(step) && !step.ClearStamps? && !step.ResetMFA?
    ensures Do(w, step).open == w.open
  {
  }

  lemma QuietStep(w: World, step: Step)
    requires !step.Assertion? && !step.TakeCode? && !step.FinishStepUp?
    requires !Spends(step) && !Issues(step) && !step.ClearStamps? && !step.ResetMFA?
    ensures Do(w, step).open == w.open
  {
    if Enabled(w, step) {
      if Proves(step) {
        ProvingEffect(w, step);
      } else if IsPasswordless(step) {
        PasswordlessEffect(w, step);
      } else if Finishes(step) {
        FinishingEffect(w, step);
      } else {
        OthersTakeNothing(w, step);
      }
    }
  }

  lemma DisabledStep(w: World, step: Step, c: OneTime)
    requires !Enabled(w, step)
    ensures OpenStep(w, step, Do(w, step), c)
  {
  }

  lemma StepTakes(w: World, step: Step, c: OneTime)
    ensures OpenStep(w, step, Do(w, step), c)
  {
    if !Enabled(w, step) {
      DisabledStep(w, step, c);
    } else if step.Assertion? {
      AssertionTakes(w, step.i, step.challenge, step.ok, c);
    } else if step.TakeCode? {
      TakeCodeTakes(w, step.i, c);
    } else if step.FinishStepUp? {
      StepUpTakes(w, step.challenge, step.accepted, c);
    } else if Spends(step) {
      SpendingTakes(w, step, c);
    } else if Issues(step) {
      IssuingTakes(w, step, c);
    } else if step.ClearStamps? || step.ResetMFA? {
      WithdrawingTakes(w, step, c);
    } else {
      QuietStep(w, step);
      NothingTaken(w, step, Do(w, step), c);
    }
  }

  lemma TakesAt(trace: seq<World>, steps: seq<Step>, n: nat, c: OneTime)
    requires IsTrace(trace, steps) && n < |steps|
    ensures OpenStep(trace[n], steps[n], trace[n + 1], c)
  {
    TraceStep(trace, steps, n);
    StepTakes(trace[n], steps[n], c);
  }

  /** Issued at step `k`, and neither used nor withdrawn up to step `n`. */
  ghost predicate IssuedAndKept(trace: seq<World>, steps: seq<Step>, k: nat, n: nat, c: OneTime)
    requires n <= |steps| < |trace|
  {
    k < n && IssuedBy(trace[k], steps[k], c) && forall j | k < j < n :: !Takes(trace[j], steps[j], c)
  }

  /** Over every run a code, a ceremony or a stamp can be used exactly if it was issued and not used or withdrawn since. */
  lemma OpenExactly(trace: seq<World>, steps: seq<Step>, n: nat, c: OneTime)
    requires IsTrace(trace, steps) && n <= |steps|
    ensures c in trace[n].open <==> exists k: nat :: IssuedAndKept(trace, steps, k, n, c)
  {
    var holds := (k: nat) => k < |trace| && c in trace[k].open;
    var begins := (k: nat) => k < |steps| && k < |trace| && IssuedBy(trace[k], steps[k], c);
    var ends := (k: nat) => k < |steps| && k < |trace| && Takes(trace[k], steps[k], c);
    forall k: nat | k < n ensures holds(k + 1) <==> (holds(k) && !ends(k)) || begins(k) { TakesAt(trace, steps, k, c); }
    HoldsSince(holds, begins, ends, n);
    assert forall j: nat | j < n :: ends(j) <==> Takes(trace[j], steps[j], c);
    if k: nat :| Since(begins, ends, k, n) { assert IssuedAndKept(trace, steps, k, n, c); }
    if k: nat :| IssuedAndKept(trace, steps, k, n, c) { assert Since(begins, ends, k, n); }
  }

  // ----- sessions -----

  predicate IsSession(w: World, t: Token, row: Row) {
    row.Session? && t in w.rows && w.rows[t] == row
  }

  predicate EndsSession(step: Step, t: Token, admin: AdminId) {
    step == Revoke(t) || step == ResetMFA(admin)
  }

  predicate SessionStep(w: World, step: Step, w': World, t: Token, row: Row)
    requires row.Session?
  {
    IsSession(w', t, row) <==> (IsSession(w, t, row) && !EndsSession(step, t, row.admin)) || Mints(w, step, t, row)
  }

  /** A flight's pending row is no session. */
  lemma PendingIsNoSession(w: World, i: nat, t: Token, row: Row)
    requires Inv(w) && i < |w.flights| && IsSession(w, t, row)
    ensures w.flights[i].pending != Some(t)
  {
    if w.flights[i].pending.Some? { RowIsPending(w, i); }
  }

  lemma MintingSessions(w: World, i: nat, ok: bool, t: Token, row: Row)
    requires Safe(w) && Enabled(w, Mint(i, ok)) && row.Session?
    ensures SessionStep(w, Mint(i, ok), Do(w, Mint(i, ok)), t, row)
  {
    assert FlightFits(w, i);
    if t in w.rows { FreshToken(w, t); }
    if ok { MintedSessions(w, i, t, row); } else { FailedMintSessions(w, i, t, row); }
  }

  lemma MintedSessions(w: World, i: nat, t: Token, row: Row)
    requires Enabled(w, Mint(i, true)) && (t in w.rows ==> t < w.next) && row.Session?
    requires w.flights[i].way.Passwordless? ==> w.flights[i].pending.None?
    ensures SessionStep(w, Mint(i, true), DoMint(w, i), t, row)
  {
  }

  lemma FailedMintSessions(w: World, i: nat, t: Token, row: Row)
    requires Enabled(w, Mint(i, false)) && row.Session?
    ensures SessionStep(w, Mint(i, false), Become(w, i, Closed(false)), t, row)
  {
  }

  lemma RecordingSessions(w: World, i: nat, t: Token, row: Row)
    requires Enabled(w, RecordFailure(i)) && row.Session?
    ensures SessionStep(w, RecordFailure(i), DoRecordFailure(w, i), t, row)
  {
  }

  lemma DroppingSessions(w: World, i: nat, ok: bool, t: Token, row: Row)
    requires Enabled(w, DropPending(i, ok)) && row.Session? && (IsSession(w, t, row) ==> w.flights[i].pending != Some(t))
    ensures SessionStep(w, DropPending(i, ok), DoDropPending(w, i, ok), t, row)
  {
  }

  lemma ConsumingSessions(w: World, i: nat, t: Token, row: Row)
    requires Enabled(w, ConsumePending(i)) && row.Session?
    ensures SessionStep(w, ConsumePending(i), DoConsumePending(w, i), t, row)
  {
  }

  lemma ClosingSessions(w: World, step: Step, t: Token, row: Row)
    requires (step.Abandon? || step.EnableTotp?) && Enabled(w, step) && row.Session?
    ensures SessionStep(w, step, Do(w, step), t, row)
  {
  }

  lemma FinishingSessions(w: World, step: Step, t: Token, row: Row)
    requires Safe(w) && Finishes(step) && !step.Mint? && Enabled(w, step) && row.Session?
    ensures SessionStep(w, step, Do(w, step), t, row)
  {
    match step
    case RecordFailure(i) => RecordingSessions(w, i, t, row);
    case DropPending(i, ok) =>
      if IsSession(w, t, row) { PendingIsNoSession(w, i, t, row); }
      DroppingSessions(w, i, ok, t, row);
    case ConsumePending(i) => ConsumingSessions(w, i, t, row);
    case _ => ClosingSessions(w, step, t, row);
  }

  lemma LoginSessionsStay(w: World, step: Step, t: Token, row: Row)
    requires step.Login? && (t in w.rows ==> t < w.next) && row.Session?
    ensures SessionStep(w, step, Do(w, step), t, row)
  {
  }

  lemma DeletingSessions(w: World, step: Step, t: Token, row: Row)
    requires (step.Revoke? || step.ResetMFA?) && row.Session?
    ensures SessionStep(w, step, Do(w, step), t, row)
  {
  }

  lemma ResolvingSessions(w: World, step: Step, t: Token, row: Row)
    requires step.Resolve? && row.Session?
    ensures SessionStep(w, step, Do(w, step), t, row)
  {
  }

  lemma OtherRowSessions(w: World, step: Step, t: Token, row: Row)
    requires Safe(w) && (step.Login? || step.Revoke? || step.ResetMFA? || step.Resolve?) && row.Session?
    ensures SessionStep(w, step, Do(w, step), t, row)
  {
    if step.Login? {
      if t in w.rows { FreshToken(w, t); }
      LoginSessionsStay(w, step, t, row);
    } else if step.Resolve? {
      ResolvingSessions(w, step, t, row);
    } else {
      DeletingSessions(w, step, t, row);
    }
  }

  lemma QuietSessions(w: World, step: Step, w': World, t: Token, row: Row)
    requires w'.rows == w.rows && !step.Mint? && !step.Revoke? && !step.ResetMFA? && row.Session?
    ensures SessionStep(w, step, w', t, row)
  {
  }

  lemma NoSessionStep(w: World, step: Step, t: Token, row: Row)
    requires Safe(w) && !Enabled(w, step) && row.Session?
    ensures SessionStep(w, step, Do(w, step), t, row)
  {
    if Mints(w, step, t, row) { MintsIsEnabled(w, step, t, row); }
  }

  lemma MintsIsEnabled(w: World, step: Step, t: Token, row: Row)
    requires Safe(w) && row.Session? && Mints(w, step, t, row)
    ensures Enabled(w, step)
  {
    assert FlightFits(w, row.flight);
  }

  lemma StepSessions(w: World, step: Step, t: Token, row: Row)
    requires Safe(w) && row.Session?
    ensures SessionStep(w, step, Do(w, step), t, row)
  {
    if !Enabled(w, step) {
      NoSessionStep(w, step, t, row);
    } else if step.Mint? {
      MintingSessions(w, step.i, step.ok, t, row);
    } else if Finishes(step) {
      FinishingSessions(w, step, t, row);
    } else if ChangesRows(step) {
      OtherRowSessions(w, step, t, row);
    } else {
      RowsStay(w, step);
      QuietSessions(w, step, Do(w, step), t, row);
    }
  }

  lemma SessionAt(trace: seq<World>, steps: seq<Step>, n: nat, t: Token, row: Row)
    requires IsTrace(trace, steps) && n < |steps| && row.Session?
    ensures SessionStep(trace[n], steps[n], trace[n + 1], t, row)
  {
    TraceStep(trace, steps, n);
    StepSessions(trace[n], steps[n], t, row);
  }

  ghost predicate MintedAndKept(trace: seq<World>, steps: seq<Step>, m: nat, n: nat, t: Token, row: Row)
    requires n <= |steps| < |trace| && row.Session?
  {
    m < n && Mints(trace[m], steps[m], t, row) && forall j | m < j < n :: !EndsSession(steps[j], t, row.admin)
  }

  lemma SessionExactly(trace: seq<World>, steps: seq<Step>, n: nat, t: Token, row: Row)
    requires IsTrace(trace, steps) && n <= |steps| && row.Session?
    ensures IsSession(trace[n], t, row) <==> exists m: nat :: MintedAndKept(trace, steps, m, n, t, row)
  {
    var holds := (k: nat) => k < |trace| && IsSession(trace[k], t, row);
    var begins := (k: nat) => k < |steps| && k < |trace| && Mints(trace[k], steps[k], t, row);
    var ends := (k: nat) => k < |steps| && EndsSession(steps[k], t, row.admin);
    forall k: nat | k < n ensures holds(k + 1) <==> (holds(k) && !ends(k)) || begins(k) { SessionAt(trace, steps, k, t, row); }
    HoldsSince(holds, begins, ends, n);
    assert forall j: nat | j < n :: ends(j) <==> EndsSession(steps[j], t, row.admin);
    if m: nat :| Since(begins, ends, m, n) { assert MintedAndKept(trace, steps, m, n, t, row); }
    if m: nat :| MintedAndKept(trace, steps, m, n, t, row) { assert Since(begins, ends, m, n); }
  }

  ghost predicate InForce(trace: seq<World>, steps: seq<Step>, t: Token, row: Row)
    requires |steps| < |trace|
  {
    && row.Session? && trace[|steps|].now < row.created + SESSION_LIFE
    && exists m: nat :: MintedAndKept(trace, steps, m, |steps|, t, row)
  }

  /**
    Over every run the protected handlers accept exactly the sessions that a finished login inserted less than a day
    ago and that were neither revoked nor of an admin reset since: nothing else ends a session, nothing else makes one.
  */
  lemma AcceptedExactly(trace: seq<World>, steps: seq<Step>, t: Token)
    requires IsTrace(trace, steps)
    ensures Accepts(trace[|steps|], t) <==> exists row :: InForce(trace, steps, t, row)
  {
    if Accepts(trace[|steps|], t) {
      var row := trace[|steps|].rows[t];
      SessionExactly(trace, steps, |steps|, t, row);
      var m: nat :| MintedAndKept(trace, steps, m, |steps|, t, row);
      assert InForce(trace, steps, t, row);
    }
    if row :| InForce(trace, steps, t, row) {
      SessionExactly(trace, steps, |steps|, t, row);
      var m: nat :| MintedAndKept(trace, steps, m, |steps|, t, row);
    }
  }

  // ----- pending logins -----

  predicate IsPending(w: World, t: Token) { t in w.rows && w.rows[t].Pending? }

  predicate LogsInAs(w: World, step: Step, t: Token, admin: AdminId) {
    step.Login? && step.admin == admin && t == w.next
  }

  /** Its login used it up or gave it up after the last failure, it was deleted, or its admin reset. */
  predicate EndsPending(w: World, step: Step, t: Token, admin: AdminId) {
    || step == Revoke(t) || step == ResetMFA(admin)
    || (step.ConsumePending? && Enabled(w, step) && w.flights[step.i].pending == Some(t))
    || (step.DropPending? && step.ok && Enabled(w, step) && w.flights[step.i].pending == Some(t))
  }

  predicate PendingOf(w: World, t: Token, admin: AdminId) { IsPending(w, t) && w.rows[t].admin == admin }

  predicate PendingStep(w: World, step: Step, w': World, t: Token, admin: AdminId) {
    PendingOf(w', t, admin) <==> (PendingOf(w, t, admin) && !EndsPending(w, step, t, admin)) || LogsInAs(w, step, t, admin)
  }

  lemma FinishingPending(w: World, step: Step, t: Token, admin: AdminId)
    requires Safe(w) && Finishes(step) && Enabled(w, step)
    ensures PendingStep(w, step, Do(w, step), t, admin)
  {
    match step
    case RecordFailure(i) => RecordingPending(w, i, t, admin);
    case DropPending(i, ok) => DroppingPending(w, i, ok, t, admin);
    case ConsumePending(i) => ConsumingPending(w, i, t, admin);
    case Mint(i, ok) =>
      if t in w.rows { FreshToken(w, t); }
      MintingPending(w, i, ok, t, admin);
    case _ => ClosingPending(w, step, t, admin);
  }

  lemma RecordingPending(w: World, i: nat, t: Token, admin: AdminId)
    requires Enabled(w, RecordFailure(i))
    ensures PendingStep(w, RecordFailure(i), DoRecordFailure(w, i), t, admin)
  {
  }

  lemma DroppingPending(w: World, i: nat, ok: bool, t: Token, admin: AdminId)
    requires Enabled(w, DropPending(i, ok))
    ensures PendingStep(w, DropPending(i, ok), DoDropPending(w, i, ok), t, admin)
  {
  }

  lemma ConsumingPending(w: World, i: nat, t: Token, admin: AdminId)
    requires Enabled(w, ConsumePending(i))
    ensures PendingStep(w, ConsumePending(i), DoConsumePending(w, i), t, admin)
  {
  }

  lemma MintingPending(w: World, i: nat, ok: bool, t: Token, admin: AdminId)
    requires Enabled(w, Mint(i, ok)) && (t in w.rows ==> t < w.next)
    ensures PendingStep(w, Mint(i, ok), Do(w, Mint(i, ok)), t, admin)
  {
  }

  lemma ClosingPending(w: World, step: Step, t: Token, admin: AdminId)
    requires (step.Abandon? || step.EnableTotp?) && Enabled(w, step)
    ensures PendingStep(w, step, Do(w, step), t, admin)
  {
  }

  lemma LoginPends(w: World, step: Step, t: Token, admin: AdminId)
    requires step.Login? && (t in w.rows ==> t < w.next)
    ensures PendingStep(w, step, Do(w, step), t, admin)
  {
  }

  lemma DeletingPending(w: World, step: Step, t: Token, admin: AdminId)
    requires step.Revoke? || step.ResetMFA?
    ensures PendingStep(w, step, Do(w, step), t, admin)
  {
  }

  lemma ResolvingPending(w: World, step: Step, t: Token, admin: AdminId)
    requires step.Resolve?
    ensures PendingStep(w, step, Do(w, step), t, admin)
  {
  }

  lemma OtherRowPending(w: World, step: Step, t: Token, admin: AdminId)
    requires Safe(w) && (step.Login? || step.Revoke? || step.ResetMFA? || step.Resolve?)
    ensures PendingStep(w, step, Do(w, step), t, admin)
  {
    if step.Login? {
      if t in w.rows { FreshToken(w, t); }
      LoginPends(w, step, t, admin);
    } else if step.Resolve? {
      ResolvingPending(w, step, t, admin);
    } else {
      DeletingPending(w, step, t, admin);
    }
  }

  lemma QuietPending(w: World, step: Step, w': World, t: Token, admin: AdminId)
    requires w'.rows == w.rows && (Enabled(w, step) ==> !Finishes(step)) && !step.Login? && !step.Revoke? && !step.ResetMFA?
    ensures PendingStep(w, step, w', t, admin)
  {
  }

  lemma NoPendingStep(w: World, step: Step, t: Token, admin: AdminId)
    requires !Enabled(w, step)
    ensures PendingStep(w, step, Do(w, step), t, admin)
  {
  }

  lemma StepPending(w: World, step: Step, t: Token, admin: AdminId)
    requires Safe(w)
    ensures PendingStep(w, step, Do(w, step), t, admin)
  {
    if !Enabled(w, step) {
      NoPendingStep(w, step, t, admin);
    } else if Finishes(step) {
      FinishingPending(w, step, t, admin);
    } else if ChangesRows(step) {
      OtherRowPending(w, step, t, admin);
    } else {
      RowsStay(w, step);
      QuietPending(w, step, Do(w, step), t, admin);
    }
  }

  lemma PendingAt(trace: seq<World>, steps: seq<Step>, n: nat, t: Token, admin: AdminId)
    requires IsTrace(trace, steps) && n < |steps|
    ensures PendingStep(trace[n], steps[n], trace[n + 1], t, admin)
  {
    TraceStep(trace, steps, n);
    StepPending(trace[n], steps[n], t, admin);
  }

  ghost predicate LoggedInAndKept(trace: seq<World>, steps: seq<Step>, l: nat, n: nat, t: Token, admin: AdminId)
    requires n <= |steps| < |trace|
  {
    l < n && LogsInAs(trace[l], steps[l], t, admin) && forall j | l < j < n :: !EndsPending(trace[j], steps[j], t, admin)
  }

  /** A password step's row is there exactly until its login uses it, five failures delete it, or an admin does. */
  lemma PendingExactly(trace: seq<World>, steps: seq<Step>, n: nat, t: Token, admin: AdminId)
    requires IsTrace(trace, steps) && n <= |steps|
    ensures PendingOf(trace[n], t, admin) <==> exists l: nat :: LoggedInAndKept(trace, steps, l, n, t, admin)
  {
    var holds := (k: nat) => k < |trace| && PendingOf(trace[k], t, admin);
    var begins := (k: nat) => k < |steps| && k < |trace| && LogsInAs(trace[k], steps[k], t, admin);
    var ends := (k: nat) => k < |steps| && k < |trace| && EndsPending(trace[k], steps[k], t, admin);
    forall k: nat | k < n ensures holds(k + 1) <==> (holds(k) && !ends(k)) || begins(k) { PendingAt(trace, steps, k, t, admin); }
    HoldsSince(holds, begins, ends, n);
    assert forall j: nat | j < n :: ends(j) <==> EndsPending(trace[j], steps[j], t, admin);
    if l: nat :| Since(begins, ends, l, n) { assert LoggedInAndKept(trace, steps, l, n, t, admin); }
    if l: nat :| LoggedInAndKept(trace, steps, l, n, t, admin) { assert Since(begins, ends, l, n); }
  }
}
