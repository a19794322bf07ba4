/**
  Which factors and sessions an admin has after a run of everybody's requests, told from the requests alone.
*/
module FactorHistory {
  import opened MfaFactors
  import opened Option

  // ----- what a request may do -----

  lemma OtherUsable(passkeys: map<CredentialId, RpId>, id: CredentialId, rp: Option<RpId>)
    requires id in passkeys
    ensures UsablePasskeys(passkeys - {id}, rp) != {} <==>
              |UsablePasskeys(passkeys, rp)| > (if rp == Some(passkeys[id]) then 1 else 0)
  {
    var usable := UsablePasskeys(passkeys, rp);
    UsableAfterDelete(passkeys, id, rp);
    if usable - {id} == {} {
      AtMostOne(usable, id);
      if rp != Some(passkeys[id]) { assert usable == {}; }
    } else {
      var other :| other in usable - {id};
      SubsetSize(if id in usable then {id, other} else {other}, usable);
    }
  }

  /** The removals go through exactly when they are confirmed and leave a usable factor. */
  lemma RemovalDoneExactly(a: Account, rp: Option<RpId>, id: CredentialId, acting: Token, proof: StepUp)
    ensures Answer(a, DeletePasskey(id, acting, proof), rp).Done? <==>
              id in a.passkeys && !proof.Refused? && HasUsableFactor(WithoutPasskey(a, id), rp)
    ensures Answer(a, RemoveTotp(acting, proof), rp).Done? <==>
              a.totp && !proof.Refused? && HasUsableFactor(WithoutTotp(a), rp)
  {
    if id in a.passkeys { OtherUsable(a.passkeys, id, rp); }
  }

  /** A recovery code given as the proof is spent exactly when the proof was asked for: last in one handler, first in the other. */
  lemma CodeSpentExactly(a: Account, rp: Option<RpId>, id: CredentialId, acting: Token)
    requires a.codes > 0
    ensures After(a, DeletePasskey(id, acting, AcceptedWithCode), rp).codes ==
              if id in a.passkeys && HasUsableFactor(WithoutPasskey(a, id), rp) then a.codes - 1 else a.codes
    ensures After(a, RemoveTotp(acting, AcceptedWithCode), rp).codes ==
              if a.totp && HasUsableFactor(WithoutTotp(a), rp) then 0 else a.codes - 1
  {
    RemovalDoneExactly(a, rp, id, acting, AcceptedWithCode);
  }

  // ----- steps that concern one admin -----

  predicate Asks(accounts: map<AdminId, Account>, step: Step, admin: AdminId) {
    step.SelfService? && step.admin == admin && admin in accounts
  }

  predicate Resets(step: Step, admin: AdminId) {
    step.Reset? && step.target == admin && step.actor != admin
  }

  /** The request adds the passkey: the assertion verified, and the credential is not registered already. */
  predicate AddsPasskey(accounts: map<AdminId, Account>, step: Step, rp: Option<RpId>, admin: AdminId, id: CredentialId) {
    Asks(accounts, step, admin) && step.request == FinishAddPasskey(id, true) && rp.Some? && id !in accounts[admin].passkeys
  }

  /** The passkey goes: its removal is confirmed and leaves a usable factor, or somebody else resets the admin. */
  ghost predicate DropsPasskey(accounts: map<AdminId, Account>, step: Step, rp: Option<RpId>, admin: AdminId, id: CredentialId) {
    || Resets(step, admin)
    || (Asks(accounts, step, admin) && step.request.DeletePasskey? && step.request.id == id
        && !step.request.proof.Refused? && HasUsableFactor(WithoutPasskey(accounts[admin], id), rp))
  }

  ghost predicate DropsTotp(accounts: map<AdminId, Account>, step: Step, rp: Option<RpId>, admin: AdminId) {
    || Resets(step, admin)
    || (Asks(accounts, step, admin) && step.request.RemoveTotp?
        && !step.request.proof.Refused? && HasUsableFactor(WithoutTotp(accounts[admin]), rp))
  }

  predicate AddsTotp(accounts: map<AdminId, Account>, step: Step, admin: AdminId) {
    Asks(accounts, step, admin) && step.request.FinishAddTotp? && step.request.ok
  }

  /** The step changes the admin's factors from another session, or resets the admin. */
  ghost predicate EndsSession(accounts: map<AdminId, Account>, step: Step, rp: Option<RpId>, admin: AdminId, t: Token) {
    || Resets(step, admin)
    || (Asks(accounts, step, admin)
        && match step.request
           case DeletePasskey(id, acting, proof) =>
             acting != t && id in accounts[admin].passkeys && DropsPasskey(accounts, step, rp, admin, id)
           case RemoveTotp(acting, proof) => acting != t && accounts[admin].totp && DropsTotp(accounts, step, rp, admin)
           case FinishAddTotp(acting, ok) => acting != t && ok
           case _ => false)
  }

  lemma PasskeyStep(accounts: map<AdminId, Account>, step: Step, rp: Option<RpId>, admin: AdminId, id: CredentialId)
    requires admin in accounts
    ensures admin in Do(accounts, step, rp)
    ensures id in Do(accounts, step, rp)[admin].passkeys <==>
              || (id in accounts[admin].passkeys && !DropsPasskey(accounts, step, rp, admin, id))
              || AddsPasskey(accounts, step, rp, admin, id)
  {
    if Asks(accounts, step, admin) && step.request.DeletePasskey? {
      RemovalDoneExactly(accounts[admin], rp, step.request.id, step.request.acting, step.request.proof);
    }
  }

  lemma TotpStep(accounts: map<AdminId, Account>, step: Step, rp: Option<RpId>, admin: AdminId)
    requires admin in accounts
    ensures admin in Do(accounts, step, rp)
    ensures Do(accounts, step, rp)[admin].totp <==>
              (accounts[admin].totp && !DropsTotp(accounts, step, rp, admin)) || AddsTotp(accounts, step, admin)
  {
    if Asks(accounts, step, admin) && step.request.RemoveTotp? {
      RemovalDoneExactly(accounts[admin], rp, 0, step.request.acting, step.request.proof);
    }
  }

  lemma SessionStep(accounts: map<AdminId, Account>, step: Step, rp: Option<RpId>, admin: AdminId, t: Token)
    requires admin in accounts
    ensures admin in Do(accounts, step, rp)
    ensures t in Do(accounts, step, rp)[admin].sessions <==>
              t in accounts[admin].sessions && !EndsSession(accounts, step, rp, admin, t)
  {
    if Asks(accounts, step, admin) {
      match step.request
      case DeletePasskey(id, acting, proof) => RemovalDoneExactly(accounts[admin], rp, id, acting, proof);
      case RemoveTotp(acting, proof) => RemovalDoneExactly(accounts[admin], rp, 0, acting, proof);
      case _ =>
    }
  }

  /** How many recovery codes are left: ten after they are made anew, none without the app, one less for each one used. */
  lemma CodesStep(accounts: map<AdminId, Account>, step: Step, rp: Option<RpId>, admin: AdminId)
    requires admin in accounts
    ensures admin in Do(accounts, step, rp)
    ensures Do(accounts, step, rp)[admin].codes ==
              if Resets(step, admin) then 0
              else if !Asks(accounts, step, admin) then accounts[admin].codes
              else match step.request
                   case DeletePasskey(id, _, proof) =>
                     accounts[admin].codes - (if DropsPasskey(accounts, step, rp, admin, id) && id in accounts[admin].passkeys
                                              then CodesUsed(accounts[admin], proof) else 0)
                   case RemoveTotp(_, proof) =>
                     if accounts[admin].totp && DropsTotp(accounts, step, rp, admin) then 0
                     else accounts[admin].codes - CodesUsed(accounts[admin], proof)
                   case RegenerateCodes(proof) => if proof.Refused? then accounts[admin].codes else 10
                   case _ => accounts[admin].codes
  {
    if Asks(accounts, step, admin) {
      match step.request
      case DeletePasskey(id, acting, proof) => RemovalDoneExactly(accounts[admin], rp, id, acting, proof);
      case RemoveTotp(acting, proof) => RemovalDoneExactly(accounts[admin], rp, 0, acting, proof);
      case _ =>
    }
  }

  function CodesUsed(a: Account, proof: StepUp): nat {
    if proof.AcceptedWithCode? && a.codes > 0 then 1 else 0
  }

  // ----- runs -----

  lemma {:induction false} AdminStays(accounts: map<AdminId, Account>, steps: seq<Step>, rp: Option<RpId>, admin: AdminId)
    requires admin in accounts
    ensures admin in Run(accounts, steps, rp)
  {
    if steps != [] { AdminStays(accounts, steps[..|steps| - 1], rp, admin); }
  }

  ghost predicate PasskeyDroppedAt(accounts: map<AdminId, Account>, steps: seq<Step>, rp: Option<RpId>, admin: AdminId, id: CredentialId, k: nat) {
    k < |steps| && DropsPasskey(Run(accounts, steps[..k], rp), steps[k], rp, admin, id)
  }

  ghost predicate PasskeyKept(accounts: map<AdminId, Account>, steps: seq<Step>, rp: Option<RpId>, admin: AdminId, id: CredentialId, k: nat) {
    forall j | k <= j < |steps| :: !PasskeyDroppedAt(accounts, steps, rp, admin, id, j)
  }

  lemma DroppedBefore(accounts: map<AdminId, Account>, steps: seq<Step>, rp: Option<RpId>, admin: AdminId, id: CredentialId, k: nat)
    requires steps != [] && k < |steps|
    ensures PasskeyDroppedAt(accounts, steps, rp, admin, id, k) <==>
              if k < |steps| - 1 then PasskeyDroppedAt(accounts, steps[..|steps| - 1], rp, admin, id, k)
              else DropsPasskey(Run(accounts, steps[..|steps| - 1], rp), steps[|steps| - 1], rp, admin, id)
  {
    if k < |steps| - 1 { assert steps[..|steps| - 1][..k] == steps[..k]; }
  }

  ghost predicate PasskeyAddedAt(accounts: map<AdminId, Account>, steps: seq<Step>, rp: Option<RpId>, admin: AdminId, id: CredentialId, k: nat) {
    k < |steps| && AddsPasskey(Run(accounts, steps[..k], rp), steps[k], rp, admin, id)
  }

  /** The passkey was there from the start, or was added, and nothing dropped it since. */
  ghost predicate PasskeyEarned(accounts: map<AdminId, Account>, steps: seq<Step>, rp: Option<RpId>, admin: AdminId, id: CredentialId)
    requires admin in accounts
  {
    || (id in accounts[admin].passkeys && PasskeyKept(accounts, steps, rp, admin, id, 0))
    || exists k: nat :: PasskeyAddedAt(accounts, steps, rp, admin, id, k) && PasskeyKept(accounts, steps, rp, admin, id, k + 1)
  }

  lemma KeptOneMore(accounts: map<AdminId, Account>, steps: seq<Step>, rp: Option<RpId>, admin: AdminId, id: CredentialId, k: nat)
    requires steps != [] && k < |steps|
    ensures var before := steps[..|steps| - 1];
            PasskeyKept(accounts, steps, rp, admin, id, k) <==>
              && PasskeyKept(accounts, before, rp, admin, id, k)
              && !DropsPasskey(Run(accounts, before, rp), steps[|steps| - 1], rp, admin, id)
  {
    var n := |steps| - 1;
    forall j | k <= j < |steps|
      ensures PasskeyDroppedAt(accounts, steps, rp, admin, id, j) <==>
                if j < n then PasskeyDroppedAt(accounts, steps[..n], rp, admin, id, j)
                else DropsPasskey(Run(accounts, steps[..n], rp), steps[n], rp, admin, id)
    {
      DroppedBefore(accounts, steps, rp, admin, id, j);
    }
    assert !PasskeyDroppedAt(accounts, steps, rp, admin, id, n) <==> !DropsPasskey(Run(accounts, steps[..n], rp), steps[n], rp, admin, id);
  }

  lemma AddedBefore(accounts: map<AdminId, Account>, steps: seq<Step>, rp: Option<RpId>, admin: AdminId, id: CredentialId, k: nat)
    requires k < |steps| - 1
    ensures PasskeyAddedAt(accounts, steps[..|steps| - 1], rp, admin, id, k) <==> PasskeyAddedAt(accounts, steps, rp, admin, id, k)
  {
    assert steps[..|steps| - 1][..k] == steps[..k];
  }

  lemma EarnedOneMore(accounts: map<AdminId, Account>, steps: seq<Step>, rp: Option<RpId>, admin: AdminId, id: CredentialId)
    requires admin in accounts && steps != []
    ensures var before, step := steps[..|steps| - 1], steps[|steps| - 1];
            PasskeyEarned(accounts, steps, rp, admin, id) <==>
              || (PasskeyEarned(accounts, before, rp, admin, id) && !DropsPasskey(Run(accounts, before, rp), step, rp, admin, id))
              || AddsPasskey(Run(accounts, before, rp), step, rp, admin, id)
  {
    var n := |steps| - 1;
    var before := steps[..n];
    KeptOneMore(accounts, steps, rp, admin, id, 0);
    if k: nat :| PasskeyAddedAt(accounts, before, rp, admin, id, k) && PasskeyKept(accounts, before, rp, admin, id, k + 1) {
      AddedBefore(accounts, steps, rp, admin, id, k);
      KeptOneMore(accounts, steps, rp, admin, id, k + 1);
    }
    if k: nat :| PasskeyAddedAt(accounts, steps, rp, admin, id, k) && PasskeyKept(accounts, steps, rp, admin, id, k + 1) {
      if k < n {
        AddedBefore(accounts, steps, rp, admin, id, k);
        KeptOneMore(accounts, steps, rp, admin, id, k + 1);
      }
    }
    if AddsPasskey(Run(accounts, before, rp), steps[n], rp, admin, id) {
      assert PasskeyAddedAt(accounts, steps, rp, admin, id, n) && PasskeyKept(accounts, steps, rp, admin, id, n + 1);
    }
  }

  /** Over every run an admin has exactly the passkeys that were there or added and not dropped since. */
  lemma {:induction false} PasskeysExactly(accounts: map<AdminId, Account>, steps: seq<Step>, rp: Option<RpId>, admin: AdminId, id: CredentialId)
    requires admin in accounts
    ensures admin in Run(accounts, steps, rp)
    ensures id in Run(accounts, steps, rp)[admin].passkeys <==> PasskeyEarned(accounts, steps, rp, admin, id)
  {
    if steps == [] {
      assert PasskeyKept(accounts, steps, rp, admin, id, 0);
    } else {
      var before := steps[..|steps| - 1];
      PasskeysExactly(accounts, before, rp, admin, id);
      EarnedOneMore(accounts, steps, rp, admin, id);
      PasskeyStep(Run(accounts, before, rp), steps[|steps| - 1], rp, admin, id);
    }
  }

  ghost predicate SessionEndedAt(accounts: map<AdminId, Account>, steps: seq<Step>, rp: Option<RpId>, admin: AdminId, t: Token, k: nat) {
    k < |steps| && EndsSession(Run(accounts, steps[..k], rp), steps[k], rp, admin, t)
  }

  lemma EndedBefore(accounts: map<AdminId, Account>, steps: seq<Step>, rp: Option<RpId>, admin: AdminId, t: Token, k: nat)
    requires steps != [] && k < |steps|
    ensures SessionEndedAt(accounts, steps, rp, admin, t, k) <==>
              if k < |steps| - 1 then SessionEndedAt(accounts, steps[..|steps| - 1], rp, admin, t, k)
              else EndsSession(Run(accounts, steps[..|steps| - 1], rp), steps[|steps| - 1], rp, admin, t)
  {
    if k < |steps| - 1 { assert steps[..|steps| - 1][..k] == steps[..k]; }
  }

  /** Over every run a session lives on exactly if no change of its admin's factors came from elsewhere. */
  lemma {:induction false} SessionsExactly(accounts: map<AdminId, Account>, steps: seq<Step>, rp: Option<RpId>, admin: AdminId, t: Token)
    requires admin in accounts
    ensures admin in Run(accounts, steps, rp)
    ensures t in Run(accounts, steps, rp)[admin].sessions <==>
              t in accounts[admin].sessions && forall k | 0 <= k < |steps| :: !SessionEndedAt(accounts, steps, rp, admin, t, k)
  {
    if steps != [] {
      var n := |steps| - 1;
      SessionsExactly(accounts, steps[..n], rp, admin, t);
      SessionStep(Run(accounts, steps[..n], rp), steps[n], rp, admin, t);
      forall k | 0 <= k < |steps|
        ensures SessionEndedAt(accounts, steps, rp, admin, t, k) <==>
                  if k < n then SessionEndedAt(accounts, steps[..n], rp, admin, t, k)
                  else EndsSession(Run(accounts, steps[..n], rp), steps[n], rp, admin, t)
      {
        EndedBefore(accounts, steps, rp, admin, t, k);
      }
      if EndsSession(Run(accounts, steps[..n], rp), steps[n], rp, admin, t) {
        assert SessionEndedAt(accounts, steps, rp, admin, t, n);
      }
    }
  }
}
