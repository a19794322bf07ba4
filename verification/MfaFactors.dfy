/**
  An admin's login factors: what the policy asks for, and adding and removing factors from a signed-in session.

  Passkeys belong to a relying-party ID. The deployment has one, or none when passkeys are impossible; it is fixed
  here. Only passkeys of that ID can be used.
*/
module MfaFactors {
  import opened Option

  type AdminId = nat
  type CredentialId = nat
  type RpId = string
  type Token = nat

  // ----- the policy -----

  datatype Policy = AnyFactor | RequireTotp | RequirePasskey | RequireBoth
  datatype Method = Passkey | Totp

  datatype Factors = Factors(totpEnabled: bool, passkeyCount: nat)
  {
    predicate Enrolled() { totpEnabled || passkeyCount > 0 }
  }

  predicate PolicySatisfied(policy: Policy, f: Factors, passkeyAvailable: bool) {
    match policy
    case RequireTotp => f.totpEnabled
    case RequirePasskey => passkeyAvailable && f.passkeyCount > 0
    case RequireBoth => passkeyAvailable && f.totpEnabled && f.passkeyCount > 0
    case AnyFactor => f.Enrolled() && (f.totpEnabled || (passkeyAvailable && f.passkeyCount > 0))
  }

  function MissingMethods(policy: Policy, f: Factors, passkeyAvailable: bool): seq<Method> {
    match policy
    case RequireTotp => if !f.totpEnabled then [Totp] else []
    case RequirePasskey => if passkeyAvailable && f.passkeyCount == 0 then [Passkey] else []
    case RequireBoth =>
      (if !f.totpEnabled then [Totp] else []) + (if passkeyAvailable && f.passkeyCount == 0 then [Passkey] else [])
    case AnyFactor =>
      if !f.totpEnabled && f.passkeyCount == 0 then [Totp] + (if passkeyAvailable then [Passkey] else []) else []
  }

  /** Exactly when the two agree, for all inputs; a passkey policy without passkeys is never satisfied but lacks nothing. */
  lemma SatisfiedMeansNothingMissing(policy: Policy, f: Factors, passkeyAvailable: bool)
    ensures (PolicySatisfied(policy, f, passkeyAvailable) <==> MissingMethods(policy, f, passkeyAvailable) == []) <==>
              || passkeyAvailable
              || policy.RequireTotp?
              || (policy.RequireBoth? && !f.totpEnabled)
              || (policy.AnyFactor? && (f.totpEnabled || f.passkeyCount == 0))
  {
    assert !f.totpEnabled ==> MissingMethods(RequireBoth, f, passkeyAvailable)[0] == Totp;
  }

  /** A stored policy; none when it is absent or unknown. One that needs passkeys is not enforced where there are none. */
  function LoadPolicy(stored: Option<Policy>, passkeyAvailable: bool): Policy {
    match stored
    case None => AnyFactor
    case Some(policy) => if (policy.RequirePasskey? || policy.RequireBoth?) && !passkeyAvailable then AnyFactor else policy
  }

  /**
    What a stored policy asks of an admin: always some usable factor, and the ones it names; a passkey only where there
    can be one.
  */
  lemma EnforcedExactly(stored: Option<Policy>, f: Factors, passkeyAvailable: bool)
    ensures PolicySatisfied(LoadPolicy(stored, passkeyAvailable), f, passkeyAvailable) <==>
              && (f.totpEnabled || (passkeyAvailable && f.passkeyCount > 0))
              && (stored == Some(RequireTotp) || (stored == Some(RequireBoth) && passkeyAvailable) ==> f.totpEnabled)
              && (stored in {Some(RequirePasskey), Some(RequireBoth)} && passkeyAvailable ==> f.passkeyCount > 0)
  {
  }

  // ----- accounts -----

  datatype Account = Account(totp: bool, passkeys: map<CredentialId, RpId>, codes: nat, sessions: set<Token>)

  function UsablePasskeys(passkeys: map<CredentialId, RpId>, rp: Option<RpId>): set<CredentialId> {
    set id | id in passkeys && rp == Some(passkeys[id])
  }

  function LoadFactors(a: Account, rp: Option<RpId>): Factors {
    Factors(a.totp, |UsablePasskeys(a.passkeys, rp)|)
  }

  ghost predicate HasUsableFactor(a: Account, rp: Option<RpId>) {
    a.totp || UsablePasskeys(a.passkeys, rp) != {}
  }

  /** What the loaders return always makes the two policy functions agree, and "satisfied" implies a usable factor. */
  lemma LoadedPolicyAgrees(a: Account, rp: Option<RpId>, stored: Option<Policy>)
    ensures var policy, f := LoadPolicy(stored, rp.Some?), LoadFactors(a, rp);
            && (PolicySatisfied(policy, f, rp.Some?) <==> MissingMethods(policy, f, rp.Some?) == [])
            && (PolicySatisfied(policy, f, rp.Some?) ==> HasUsableFactor(a, rp))
  {
    if rp.None? { assert UsablePasskeys(a.passkeys, rp) == {}; }
    SatisfiedMeansNothingMissing(LoadPolicy(stored, rp.Some?), LoadFactors(a, rp), rp.Some?);
  }

  function Enroll(a: Account, methods: seq<Method>, id: CredentialId, rp: Option<RpId>): Account {
    a.(totp := a.totp || Totp in methods,
       passkeys := if Passkey in methods && rp.Some? then a.passkeys[id := rp.value] else a.passkeys)
  }

  /** No policy locks an admin out: enrolling what is missing, or for the default policy any of it, satisfies it. */
  lemma EnrollingWhatIsMissingSatisfies(a: Account, rp: Option<RpId>, stored: Option<Policy>, id: CredentialId, chosen: seq<Method>)
    requires id !in a.passkeys
    requires var missing := MissingMethods(LoadPolicy(stored, rp.Some?), LoadFactors(a, rp), rp.Some?);
             || chosen == missing
             || (LoadPolicy(stored, rp.Some?).AnyFactor? && chosen != [] && forall m | m in chosen :: m in missing)
    ensures PolicySatisfied(LoadPolicy(stored, rp.Some?), LoadFactors(Enroll(a, chosen, id, rp), rp), rp.Some?)
  {
    LoadedPolicyAgrees(a, rp, stored);
    var b := Enroll(a, chosen, id, rp);
    var before, after := UsablePasskeys(a.passkeys, rp), UsablePasskeys(b.passkeys, rp);
    if Passkey in chosen && rp.Some? {
      assert id in after;
    } else {
      assert after == before;
    }
    if chosen != [] { assert chosen[0] in chosen; }
  }

  // ----- removing a factor -----

  /** How the strict step-up went; a recovery code that is accepted is spent. */
  datatype StepUp = Refused | Accepted | AcceptedWithCode

  datatype Result = Done | NotFound | LastFactor | NoFactor | Unverified

  function Spend(a: Account, proof: StepUp): Account {
    if proof.AcceptedWithCode? && a.codes > 0 then a.(codes := a.codes - 1) else a
  }

  function KeepSession(a: Account, acting: Token): Account {
    a.(sessions := a.sessions * {acting})
  }

  /** The check before a passkey is deleted. A passkey that cannot be used does not count as one of those that can. */
  predicate MayDeletePasskey(a: Account, id: CredentialId, rp: Option<RpId>)
    requires id in a.passkeys
  {
    var f := LoadFactors(a, rp);
    var usable := if rp != Some(a.passkeys[id]) then f.passkeyCount + 1 else f.passkeyCount;
    f.totpEnabled || usable > 1
  }

  predicate MayRemoveTotp(a: Account, rp: Option<RpId>) {
    a.totp && LoadFactors(a, rp).passkeyCount > 0
  }

  function WithoutPasskey(a: Account, id: CredentialId): Account {
    a.(passkeys := a.passkeys - {id})
  }

  function WithoutTotp(a: Account): Account {
    a.(totp := false, codes := 0)
  }

  datatype Request =
    | DeletePasskey(id: CredentialId, acting: Token, proof: StepUp)
    | RemoveTotp(acting: Token, proof: StepUp)
    | FinishAddTotp(acting: Token, ok: bool)
    | FinishAddPasskey(id: CredentialId, ok: bool)
    | RegenerateCodes(proof: StepUp)

  function Answer(a: Account, request: Request, rp: Option<RpId>): Result {
    match request
    case DeletePasskey(id, _, proof) =>
      if id !in a.passkeys then NotFound
      else if !MayDeletePasskey(a, id, rp) then LastFactor
      else if proof.Refused? then Unverified
      else Done
    case RemoveTotp(_, proof) =>
      if proof.Refused? then Unverified
      else if !a.totp then NoFactor
      else if !MayRemoveTotp(a, rp) then LastFactor
      else Done
    case FinishAddTotp(_, ok) => if ok then Done else Unverified
    case FinishAddPasskey(id, ok) => if ok && rp.Some? && id !in a.passkeys then Done else Unverified
    case RegenerateCodes(proof) => if proof.Refused? then Unverified else Done
  }

  const RECOVERY_CODES := 10

  function After(a: Account, request: Request, rp: Option<RpId>): Account {
    var done := Answer(a, request, rp).Done?;
    match request
    case DeletePasskey(id, acting, proof) =>
      if done then KeepSession(WithoutPasskey(Spend(a, proof), id), acting) else a
    case RemoveTotp(acting, proof) =>
      if done then KeepSession(WithoutTotp(a), acting) else Spend(a, proof)
    case FinishAddTotp(acting, _) => if done then KeepSession(a.(totp := true), acting) else a
    case FinishAddPasskey(id, _) => if done then a.(passkeys := a.passkeys[id := rp.value]) else a
    case RegenerateCodes(_) => if done then a.(codes := RECOVERY_CODES) else a
  }

  class AdminTables {
    var accounts: map<AdminId, Account>
    const rp: Option<RpId>

    constructor (rp: Option<RpId>)
      ensures accounts == map[] && this.rp == rp
    {
      accounts, this.rp := map[], rp;
    }

    method DeletePasskey(admin: AdminId, id: CredentialId, acting: Token, proof: StepUp) returns (r: Result)
      requires admin in accounts
      modifies this
      ensures r == Answer(old(accounts)[admin], Request.DeletePasskey(id, acting, proof), rp)
      ensures accounts == old(accounts)[admin := After(old(accounts)[admin], Request.DeletePasskey(id, acting, proof), rp)]
    {
      var account := accounts[admin];
      assert accounts[admin := account] == accounts;
      if id !in account.passkeys {
        return NotFound;
      }
      var factors := LoadFactors(account, rp);
      var usablePasskeys := factors.passkeyCount;
      if rp.None? || account.passkeys[id] != rp.value {
        usablePasskeys := usablePasskeys + 1;
      }
      if !factors.totpEnabled && usablePasskeys <= 1 {
        return LastFactor;
      }
      if proof.Refused? {
        return Unverified;
      }
      account := Spend(account, proof);
      account := account.(passkeys := account.passkeys - {id});
      account := account.(sessions := account.sessions * {acting});
      accounts := accounts[admin := account];
      return Done;
    }

    method RemoveTotp(admin: AdminId, acting: Token, proof: StepUp) returns (r: Result)
      requires admin in accounts
      modifies this
      ensures r == Answer(old(accounts)[admin], Request.RemoveTotp(acting, proof), rp)
      ensures accounts == old(accounts)[admin := After(old(accounts)[admin], Request.RemoveTotp(acting, proof), rp)]
    {
      var account := accounts[admin];
      assert accounts[admin := account] == accounts;
      if proof.Refused? {
        return Unverified;
      }
      account := Spend(account, proof);
      accounts := accounts[admin := account];
      var factors := LoadFactors(account, rp);
      if !factors.totpEnabled {
        return NoFactor;
      }
      if factors.passkeyCount == 0 {
        return LastFactor;
      }
      account := account.(totp := false, codes := 0);
      account := account.(sessions := account.sessions * {acting});
      accounts := accounts[admin := account];
      return Done;
    }

    /** One transaction; the factors and the sessions of the target go together. */
    method ResetAdminMFA(actor: AdminId, target: AdminId, verified: bool) returns (done: bool)
      modifies this
      ensures done == (verified && actor != target && target in old(accounts))
      ensures accounts == if done then old(accounts)[target := CLEARED] else old(accounts)
    {
      if !verified || target == actor || target !in accounts {
        return false;
      }
      var account := accounts[target].(sessions := {});
      account := account.(passkeys := map[]);
      account := account.(totp := false, codes := 0);
      accounts := accounts[target := account];
      return true;
    }
  }

  const CLEARED := Account(false, map[], 0, {})

  // ----- runs -----

  lemma UsableAfterDelete(passkeys: map<CredentialId, RpId>, id: CredentialId, rp: Option<RpId>)
    ensures UsablePasskeys(passkeys - {id}, rp) == UsablePasskeys(passkeys, rp) - {id}
  {
  }

  /** One self-service request never takes the last usable factor. */
  lemma RequestKeepsAFactor(a: Account, request: Request, rp: Option<RpId>)
    requires HasUsableFactor(a, rp)
    ensures HasUsableFactor(After(a, request, rp), rp)
  {
    match request
    case DeletePasskey(id, _, _) =>
      var usable := UsablePasskeys(a.passkeys, rp);
      UsableAfterDelete(a.passkeys, id, rp);
      if !a.totp && usable - {id} == {} {
        assert usable <= {id};
        if id in usable { assert usable == {id}; }
      }
    case RemoveTotp(_, _) =>
    case FinishAddTotp(_, _) =>
    case FinishAddPasskey(id, _) =>
      assert forall other | other in UsablePasskeys(a.passkeys, rp) :: other in UsablePasskeys(After(a, request, rp).passkeys, rp);
    case RegenerateCodes(_) =>
  }

  datatype Step = SelfService(admin: AdminId, request: Request) | Reset(actor: AdminId, target: AdminId)

  function Do(accounts: map<AdminId, Account>, step: Step, rp: Option<RpId>): map<AdminId, Account> {
    match step
    case SelfService(admin, request) =>
      if admin in accounts then accounts[admin := After(accounts[admin], request, rp)] else accounts
    case Reset(actor, target) =>
      if actor != target && target in accounts then accounts[target := CLEARED] else accounts
  }

  function Run(accounts: map<AdminId, Account>, steps: seq<Step>, rp: Option<RpId>): map<AdminId, Account> {
    if steps == [] then accounts else Do(Run(accounts, steps[..|steps| - 1], rp), steps[|steps| - 1], rp)
  }

  /** Over any run of everybody's requests, an admin with a usable factor keeps one unless someone else resets them. */
  lemma {:induction false} AdminsKeepAFactor(accounts: map<AdminId, Account>, steps: seq<Step>, rp: Option<RpId>, admin: AdminId)
    requires admin in accounts && HasUsableFactor(accounts[admin], rp)
    requires forall k | 0 <= k < |steps| && steps[k].Reset? && steps[k].actor != admin :: steps[k].target != admin
    ensures admin in Run(accounts, steps, rp) && HasUsableFactor(Run(accounts, steps, rp)[admin], rp)
  {
    if steps != [] {
      var before, last := steps[..|steps| - 1], steps[|steps| - 1];
      AdminsKeepAFactor(accounts, before, rp, admin);
      if last.SelfService? && last.admin == admin {
        RequestKeepsAFactor(Run(accounts, before, rp)[admin], last.request, rp);
      }
    }
  }

  /** A reset leaves the target no factor, no code and no session. */
  lemma ResetClears(accounts: map<AdminId, Account>, steps: seq<Step>, rp: Option<RpId>, actor: AdminId, target: AdminId)
    requires actor != target && target in Run(accounts, steps, rp)
    ensures var after := Run(accounts, steps + [Reset(actor, target)], rp);
            && target in after && !HasUsableFactor(after[target], rp)
            && after[target].sessions == {} && after[target].codes == 0
            && forall other | other in after && other != target :: after[other] == Run(accounts, steps, rp)[other]
  {
    assert (steps + [Reset(actor, target)])[..|steps|] == steps;
  }

  // ----- two requests at once -----

  /** The check of a removal, and its effect, as the separate statements they are. */
  datatype Removal = Key(id: CredentialId) | App

  predicate Allowed(a: Account, removal: Removal, rp: Option<RpId>) {
    match removal
    case Key(id) => id in a.passkeys && MayDeletePasskey(a, id, rp)
    case App => MayRemoveTotp(a, rp)
  }

  function Removed(a: Account, removal: Removal): Account {
    match removal
    case Key(id) => WithoutPasskey(a, id)
    case App => WithoutTotp(a)
  }

  predicate RemovesUsable(a: Account, removal: Removal, rp: Option<RpId>) {
    match removal
    case Key(id) => id in UsablePasskeys(a.passkeys, rp)
    case App => a.totp
  }

  function UsableCount(a: Account, rp: Option<RpId>): nat {
    (if a.totp then 1 else 0) + |UsablePasskeys(a.passkeys, rp)|
  }

  /** Removing two elements empties a set exactly when it has no others. */
  lemma WithoutTwo(s: set<CredentialId>, x: CredentialId, y: CredentialId)
    requires x != y && |s| >= 2
    ensures s - {x} - {y} == {} <==> |s| == 2 && x in s && y in s
  {
    if s - {x} - {y} == {} {
      assert s <= {x, y};
      if x !in s { assert s <= {y}; AtMostOne(s, y); }
      if y !in s { assert s <= {x}; AtMostOne(s, x); }
      assert s == {x, y};
    } else if x in s && y in s {
      var z :| z in s && z != x && z != y;
      AtLeastThree(s, x, y, z);
    }
  }

  lemma AtMostOne(s: set<CredentialId>, x: CredentialId)
    requires s <= {x}
    ensures |s| <= 1
  {
    assert s == {} || s == {x};
  }

  lemma OverlappingKeys(a: Account, x: CredentialId, y: CredentialId, rp: Option<RpId>)
    requires x != y && Allowed(a, Key(x), rp) && Allowed(a, Key(y), rp)
    ensures !HasUsableFactor(Removed(Removed(a, Key(x)), Key(y)), rp) <==>
              UsableCount(a, rp) == 2 && RemovesUsable(a, Key(x), rp) && RemovesUsable(a, Key(y), rp)
  {
    var usable := UsablePasskeys(a.passkeys, rp);
    UsableAfterDelete(a.passkeys, x, rp);
    UsableAfterDelete(a.passkeys - {x}, y, rp);
    if a.totp {
      if x in usable && y in usable { assert |usable| >= 2 by { assert {x, y} <= usable; SubsetSize({x, y}, usable); } }
    } else if |usable| >= 2 {
      WithoutTwo(usable, x, y);
    } else {
      assert x !in usable && y !in usable && usable - {x} - {y} == usable;
    }
  }

  lemma SubsetSize(s: set<CredentialId>, t: set<CredentialId>)
    requires s <= t
    ensures |s| <= |t|
  {
    assert t == s + (t - s);
  }

  lemma OverlappingKeyAndApp(a: Account, x: CredentialId, rp: Option<RpId>)
    requires Allowed(a, Key(x), rp) && Allowed(a, App, rp)
    ensures !HasUsableFactor(Removed(Removed(a, Key(x)), App), rp) <==>
              UsableCount(a, rp) == 2 && RemovesUsable(a, Key(x), rp) && RemovesUsable(a, App, rp)
  {
    var usable := UsablePasskeys(a.passkeys, rp);
    UsableAfterDelete(a.passkeys, x, rp);
    if usable - {x} == {} {
      AtMostOne(usable, x);
    } else if x in usable {
      var z :| z in usable && z != x;
      assert {x, z} <= usable;
      SubsetSize({x, z}, usable);
    }
  }

  /**
    Two different removals that were both checked before either took effect leave no usable factor exactly when the
    admin had two and these are they. Handlers that do not overlap cannot do this.
  */
  lemma OverlappingRemovals(a: Account, r: Removal, s: Removal, rp: Option<RpId>)
    requires r != s && Allowed(a, r, rp) && Allowed(a, s, rp)
    ensures !HasUsableFactor(Removed(Removed(a, r), s), rp) <==>
              UsableCount(a, rp) == 2 && RemovesUsable(a, r, rp) && RemovesUsable(a, s, rp)
  {
    match (r, s)
    case (Key(x), Key(y)) => OverlappingKeys(a, x, y, rp);
    case (Key(x), App) => OverlappingKeyAndApp(a, x, rp);
    case (App, Key(x)) => OverlappingKeyAndApp(a, x, rp);
    case (App, App) =>
  }

  lemma AtLeastThree(s: set<CredentialId>, x: CredentialId, y: CredentialId, z: CredentialId)
    requires x in s && y in s && z in s && x != y && y != z && x != z
    ensures |s| >= 3
  {
    assert |{x, y, z}| == 3;
    assert s == {x, y, z} + (s - {x, y, z});
  }
}
