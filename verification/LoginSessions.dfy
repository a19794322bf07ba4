/**
  From a password to a session.

  The password step only records a pending row. A flight, one request of a login handler, reads that row, proves a
  factor, deletes the row and inserts the session; a passwordless flight proves a passkey without a row. Each
  statement on the database is one step, and any number of flights interleave with each other, with step-ups, with
  changes of factors and with the rows of `admin_sessions` being revoked. Tokens, codes and ceremonies are fresh
  numbers; whether a code or an assertion verifies is a verdict from outside.
*/
module LoginSessions {
  import opened MfaFactors
  import opened Option

  type Time = nat

  const PENDING_LIFE := 600
  const SESSION_LIFE := 86_400
  const CHALLENGE_LIFE := 300
  const STAMP_LIFE := 90
  const MAX_ATTEMPTS := 5

  // ----- the tables -----

  datatype Kind = Verify | Enroll

  /** A row of `admin_sessions`; `flight` and `created` say who inserted a session and when. */
  datatype Row =
    | Pending(admin: AdminId, kind: Kind, expires: Time, attempts: nat)
    | Session(admin: AdminId, expires: Time, flight: nat, created: Time)

  datatype Purpose = LoginCeremony | StepUpCeremony | PasswordlessCeremony

  /** What may be used once: a stored recovery code, a passkey ceremony, the stamp a step-up leaves on a session. */
  datatype OneTime =
    | RecoveryCode(id: nat, owner: AdminId)
    | Challenge(id: nat, purpose: Purpose, binding: Token, expires: Time)
    | Stamp(id: nat, session: Token, expires: Time)

  datatype Use = Use(credential: OneTime, at: Time)

  datatype Way = TotpCode | PasskeyAssertion | Recovery | Enrolment | TotpEnrolment | Passwordless

  /**
    A passwordless flight claims its ceremony (an index of `spent`) for the user handle its assertion names, finds the
    handle still the account's, and loads the account's passkeys. `Verified` is an enrolment whose code was right.
  */
  datatype Phase =
    | Resolved | Matched(code: nat) | Verified | Failing | Dropping
    | Claimed(use: nat, handle: nat) | Named(use: nat) | Loaded(use: nat)
    | Proven | Minting | Closed(minted: bool)

  datatype Flight = Flight(way: Way, admin: AdminId, pending: Option<Token>, phase: Phase)

  /** What a flight proved its claim with: an accepted code, a credential spent (an index of `spent`), or the policy met by factors. */
  datatype Evidence =
    | CodeAccepted | Spending(use: nat) | PolicyMet(policy: Policy, factors: Factors, passkeyAvailable: bool)

  datatype Proof = Proof(flight: nat, evidence: Evidence, at: Time)

  /**
    `everPending` and `minted` remember every pending row and every session there ever was; `lost` the pending rows whose
    deletion after too many failures did not succeed; `failures` counts the wrong factors recorded against each.
    `handles` are the WebAuthn user handles.
  */
  datatype World = World(
    now: Time, next: nat,
    rows: map<Token, Row>, everPending: map<Token, AdminId>, minted: map<Token, nat>, lost: set<Token>,
    failures: map<Token, nat>,
    flights: seq<Flight>, proofs: seq<Proof>,
    open: set<OneTime>, spent: seq<Use>, factors: map<AdminId, Factors>, handles: map<AdminId, nat>)

  const FIRST := World(0, 0, map[], map[], map[], {}, map[], [], [], {}, [], map[], map[])

  /** The rows a protected handler accepts as sessions. */
  predicate Accepts(w: World, token: Token) {
    token in w.rows && w.rows[token].Session? && w.now < w.rows[token].expires
  }

  predicate Consumed(phase: Phase) { phase.Minting? || phase == Closed(true) }

  predicate PastProof(phase: Phase) { phase.Proven? || Consumed(phase) }

  // ----- steps -----

  datatype Step =
    | Wait(seconds: nat)
    | Login(admin: AdminId, policy: Policy, passkeyAvailable: bool)
    | Resolve(token: Token, way: Way)
    | Verdict(i: nat, ok: bool)
    | Assertion(i: nat, challenge: OneTime, ok: bool)
    | MatchCode(i: nat, code: nat)
    | TakeCode(i: nat)
    | CheckPolicy(i: nat, policy: Policy, passkeyAvailable: bool)
    | RecordFailure(i: nat)
    | DropPending(i: nat, ok: bool)
    | ConsumePending(i: nat)
    | Mint(i: nat, ok: bool)
    | Abandon(i: nat)
    | EnableTotp(i: nat)
    | ClaimPasswordless(challenge: OneTime, admin: AdminId, handle: nat)
    | ReadAccount(i: nat)
    | LoadCredentials(i: nat)
    | FinishPasswordless(i: nat, accepted: bool)
    | GiveHandle(admin: AdminId)
    | BeginCeremony(purpose: Purpose, binding: Token)
    | ReplaceCodes(admin: AdminId)
    | SetFactors(admin: AdminId, factors: Factors)
    | FinishStepUp(challenge: OneTime, accepted: bool)
    | UseStamp(stamp: OneTime)
    | StepUpWithCode(typed: OneTime)
    | ClearStamps(admin: AdminId)
    | Revoke(token: Token)
    | ResetMFA(admin: AdminId)

  predicate InFlight(w: World, i: nat, phase: Phase) {
    i < |w.flights| && w.flights[i].phase == phase
  }

  function Become(w: World, i: nat, phase: Phase): World
    requires i < |w.flights|
  {
    w.(flights := w.flights[i := w.flights[i].(phase := phase)])
  }

  function Spend(w: World, credential: OneTime): World {
    w.(open := w.open - {credential}, spent := w.spent + [Use(credential, w.now)])
  }

  function Start(w: World, f: Flight): World {
    w.(flights := w.flights + [f])
  }

  /** Keep some of the open credentials and issue new ones. */
  function Issue(w: World, kept: set<OneTime>, issued: set<OneTime>, n: nat): World {
    w.(open := kept + issued, next := w.next + n)
  }

  function Prove(w: World, i: nat, evidence: Evidence): World
    requires i < |w.flights|
  {
    Become(w.(proofs := w.proofs + [Proof(i, evidence, w.now)]), i, Proven)
  }

  function DoLogin(w: World, admin: AdminId, kind: Kind): World {
    w.(rows := w.rows[w.next := Pending(admin, kind, w.now + PENDING_LIFE, 0)],
       everPending := w.everPending[w.next := admin], next := w.next + 1)
  }

  /** A pending row goes to the handlers of its kind. */
  predicate MayResolve(w: World, token: Token, way: Way) {
    && token in w.rows && w.rows[token].Pending? && w.now < w.rows[token].expires
    && !way.Passwordless? && (way.Enrolment? || way.TotpEnrolment? <==> w.rows[token].kind.Enroll?)
  }

  predicate MayClaim(w: World, c: OneTime, purpose: Purpose, binding: Option<Token>) {
    && c in w.open && c.Challenge? && c.purpose == purpose && w.now < c.expires
    && (binding.Some? ==> c.binding == binding.value)
  }

  /** The claim of a ceremony is spent whatever the verdict on the assertion is. */
  function DoAssertion(w: World, i: nat, c: OneTime, ok: bool): World
    requires i < |w.flights|
  {
    if !MayClaim(w, c, LoginCeremony, w.flights[i].pending) then Become(w, i, Failing)
    else if !ok then Become(Spend(w, c), i, Failing)
    else Prove(Spend(w, c), i, Spending(|w.spent|))
  }

  function DoTakeCode(w: World, i: nat): World
    requires i < |w.flights| && w.flights[i].phase.Matched?
  {
    var code := RecoveryCode(w.flights[i].phase.code, w.flights[i].admin);
    if code in w.open then Prove(Spend(w, code), i, Spending(|w.spent|)) else Become(w, i, Failing)
  }

  /** The account's handle, made now when there is none; the library compares it with the one the assertion names. */
  function DoReadAccount(w: World, i: nat): World
    requires i < |w.flights| && w.flights[i].phase.Claimed?
  {
    var admin, phase := w.flights[i].admin, w.flights[i].phase;
    if admin !in w.handles then Become(w.(handles := w.handles[admin := w.next], next := w.next + 1), i, Closed(false))
    else if w.handles[admin] == phase.handle then Become(w, i, Named(phase.use))
    else Become(w, i, Closed(false))
  }

  function DoLoadCredentials(w: World, i: nat): World
    requires i < |w.flights| && w.flights[i].phase.Named?
  {
    Become(w, i, if FactorsOf(w, w.flights[i].admin).passkeyCount > 0 then Loaded(w.flights[i].phase.use) else Closed(false))
  }

  /** Turning the authenticator app on asks neither for the pending row nor for anything else again. */
  function DoEnableTotp(w: World, i: nat): World
    requires i < |w.flights|
  {
    var admin := w.flights[i].admin;
    Become(w.(factors := w.factors[admin := FactorsOf(w, admin).(totpEnabled := true)]), i, Closed(false))
  }

  function Failures(w: World, token: Token): nat {
    if token in w.failures then w.failures[token] else 0
  }

  /** The update of the pending row. */
  function CountFailure(w: World, token: Token): World
    requires token in w.rows && w.rows[token].Pending?
  {
    w.(rows := w.rows[token := w.rows[token].(attempts := w.rows[token].attempts + 1)],
       failures := w.failures[token := Failures(w, token) + 1])
  }

  function DoRecordFailure(w: World, i: nat): World
    requires i < |w.flights| && w.flights[i].pending.Some?
  {
    var token := w.flights[i].pending.value;
    if token !in w.rows || !w.rows[token].Pending? then Become(w, i, Closed(false))
    else
      var last := w.rows[token].attempts + 1 >= MAX_ATTEMPTS;
      CountFailure(Become(w, i, if last then Dropping else Closed(false)), token)
  }

  function DoDropPending(w: World, i: nat, ok: bool): World
    requires i < |w.flights| && w.flights[i].pending.Some?
  {
    var token := w.flights[i].pending.value;
    Become(if ok then w.(rows := w.rows - {token}) else w.(lost := w.lost + {token}), i, Closed(false))
  }

  /** Expiry is not asked again here: a flight that resolved the row in time may still finish. */
  function DoConsumePending(w: World, i: nat): World
    requires i < |w.flights| && w.flights[i].pending.Some?
  {
    var token := w.flights[i].pending.value;
    if token in w.rows && w.rows[token].Pending? then Become(w.(rows := w.rows - {token}), i, Minting)
    else Become(w, i, Closed(false))
  }

  function DoMint(w: World, i: nat): World
    requires i < |w.flights|
  {
    Become(w.(rows := w.rows[w.next := Session(w.flights[i].admin, w.now + SESSION_LIFE, i, w.now)],
              minted := w.minted[w.next := i], next := w.next + 1), i, Closed(true))
  }

  function WithoutCodes(open: set<OneTime>, admin: AdminId): set<OneTime> {
    set c | c in open && !(c.RecoveryCode? && c.owner == admin)
  }

  function WithoutStamp(open: set<OneTime>, session: Token): set<OneTime> {
    set c | c in open && !(c.Stamp? && c.session == session)
  }

  function FreshCodes(from: nat, n: nat, admin: AdminId): set<OneTime> {
    set id | from <= id < from + n :: RecoveryCode(id, admin)
  }

  predicate OwnedBy(w: World, c: OneTime, admin: AdminId) {
    match c
    case RecoveryCode(_, owner) => owner == admin
    case Challenge(_, purpose, binding, _) =>
      purpose != PasswordlessCeremony && ((binding in w.everPending && w.everPending[binding] == admin) || (binding in w.rows && w.rows[binding].admin == admin))
    case Stamp(_, session, _) => session in w.rows && w.rows[session].admin == admin
  }

  function DoResetMFA(w: World, admin: AdminId): World {
    w.(rows := map t | t in w.rows && w.rows[t].admin != admin :: w.rows[t],
       open := (set c | c in w.open && !OwnedBy(w, c, admin)),
       factors := w.factors - {admin}, handles := w.handles - {admin})
  }

  /** The row is deleted, or there was none to delete. */
  predicate ReadyToMint(f: Flight) {
    f.phase.Minting? || (f.phase.Proven? && f.way.Passwordless?)
  }

  predicate MayAbandon(phase: Phase) {
    phase in {Resolved, Verified, Failing, Proven} || Holds(phase)
  }

  /** The flight holds a claimed ceremony it has not proved anything with yet. */
  predicate Holds(phase: Phase) { phase.Claimed? || phase.Named? || phase.Loaded? }

  /** A handle that an assertion names has been given out before. */
  predicate Enabled(w: World, step: Step) {
    match step
    case Resolve(token, way) => MayResolve(w, token, way)
    case Verdict(i, _) => InFlight(w, i, Resolved) && (w.flights[i].way.TotpCode? || w.flights[i].way.TotpEnrolment?)
    case Assertion(i, c, _) => InFlight(w, i, Resolved) && w.flights[i].way.PasskeyAssertion?
    case MatchCode(i, _) => InFlight(w, i, Resolved) && w.flights[i].way.Recovery?
    case TakeCode(i) => i < |w.flights| && w.flights[i].phase.Matched?
    case CheckPolicy(i, _, _) => InFlight(w, i, Resolved) && w.flights[i].way.Enrolment?
    case RecordFailure(i) => InFlight(w, i, Failing) && w.flights[i].pending.Some?
    case DropPending(i, _) => InFlight(w, i, Dropping) && w.flights[i].pending.Some?
    case ConsumePending(i) => InFlight(w, i, Proven) && w.flights[i].pending.Some?
    case Mint(i, _) => i < |w.flights| && ReadyToMint(w.flights[i])
    case Abandon(i) => i < |w.flights| && MayAbandon(w.flights[i].phase)
    case EnableTotp(i) => InFlight(w, i, Verified)
    case ClaimPasswordless(c, _, handle) => MayClaim(w, c, PasswordlessCeremony, None) && handle < w.next
    case ReadAccount(i) => i < |w.flights| && w.flights[i].phase.Claimed?
    case LoadCredentials(i) => i < |w.flights| && w.flights[i].phase.Named?
    case FinishPasswordless(i, _) => i < |w.flights| && w.flights[i].phase.Loaded?
    case FinishStepUp(c, _) => MayClaim(w, c, StepUpCeremony, None) && Accepts(w, c.binding)
    case UseStamp(s) => s in w.open && s.Stamp? && Accepts(w, s.session) && w.now < s.expires
    case StepUpWithCode(c) => c in w.open && c.RecoveryCode?
    case _ => true
  }

  function FactorsOf(w: World, admin: AdminId): Factors {
    if admin in w.factors then w.factors[admin] else Factors(false, 0)
  }

  /** A flight whose checks went wrong closes; a wrong factor is recorded first. */
  function Do(w: World, step: Step): World {
    if !Enabled(w, step) then w
    else
      match step
      case Wait(seconds) => w.(now := w.now + seconds)
      case Login(admin, policy, passkeyAvailable) =>
        DoLogin(w, admin, if PolicySatisfied(policy, FactorsOf(w, admin), passkeyAvailable) then Verify else Enroll)
      case Resolve(token, way) => Start(w, Flight(way, w.rows[token].admin, Some(token), Resolved))
      case Verdict(i, ok) =>
        if !ok then Become(w, i, Failing)
        else if w.flights[i].way.TotpCode? then Prove(w, i, CodeAccepted)
        else Become(w, i, Verified)
      case Assertion(i, c, ok) => DoAssertion(w, i, c, ok)
      case MatchCode(i, code) =>
        Become(w, i, if RecoveryCode(code, w.flights[i].admin) in w.open then Matched(code) else Failing)
      case TakeCode(i) => DoTakeCode(w, i)
      case CheckPolicy(i, policy, passkeyAvailable) =>
        var factors := FactorsOf(w, w.flights[i].admin);
        if PolicySatisfied(policy, factors, passkeyAvailable) then Prove(w, i, PolicyMet(policy, factors, passkeyAvailable))
        else Become(w, i, Closed(false))
      case RecordFailure(i) => DoRecordFailure(w, i)
      case DropPending(i, ok) => DoDropPending(w, i, ok)
      case ConsumePending(i) => DoConsumePending(w, i)
      case Mint(i, ok) => if ok then DoMint(w, i) else Become(w, i, Closed(false))
      case Abandon(i) => Become(w, i, Closed(false))
      case EnableTotp(i) => DoEnableTotp(w, i)
      case ClaimPasswordless(c, admin, handle) =>
        Start(Spend(w, c), Flight(Passwordless, admin, None, Claimed(|w.spent|, handle)))
      case ReadAccount(i) => DoReadAccount(w, i)
      case LoadCredentials(i) => DoLoadCredentials(w, i)
      case FinishPasswordless(i, accepted) =>
        if accepted then Prove(w, i, Spending(w.flights[i].phase.use)) else Become(w, i, Closed(false))
      case GiveHandle(admin) =>
        if admin in w.handles then w else w.(handles := w.handles[admin := w.next], next := w.next + 1)
      case BeginCeremony(purpose, binding) =>
        Issue(w, w.open, {Challenge(w.next, purpose, binding, w.now + CHALLENGE_LIFE)}, 1)
      case ReplaceCodes(admin) =>
        Issue(w, WithoutCodes(w.open, admin),
              FreshCodes(w.next, RECOVERY_CODES, admin), RECOVERY_CODES)
      case SetFactors(admin, factors) => w.(factors := w.factors[admin := factors])
      case FinishStepUp(c, accepted) =>
        var w' := Spend(w, c);
        if !accepted then w'
        else Issue(w', WithoutStamp(w'.open, c.binding),
              {Stamp(w.next, c.binding, w.now + STAMP_LIFE)}, 1)
      case UseStamp(s) => Spend(w, s)
      case StepUpWithCode(c) => Spend(w, c)
      case ClearStamps(admin) => w.(open := set c | c in w.open && !(c.Stamp? && OwnedBy(w, c, admin)))
      case Revoke(token) => w.(rows := w.rows - {token})
      case ResetMFA(admin) => DoResetMFA(w, admin)
  }

  function Run(steps: seq<Step>): World {
    if steps == [] then FIRST else Do(Run(steps[..|steps| - 1]), steps[|steps| - 1])
  }

  // ----- what the steps of a flight touch -----

  /** The steps of one flight, up to its proof. */
  predicate Proves(step: Step) {
    step.Verdict? || step.Assertion? || step.MatchCode? || step.TakeCode? || step.CheckPolicy?
  }

  /** The steps by which a flight moves on after its proof, or gives up. */
  predicate Finishes(step: Step) {
    step.RecordFailure? || step.DropPending? || step.ConsumePending? || step.Mint? || step.Abandon? || step.EnableTotp?
  }

  /** The steps of a passwordless flight before it inserts its session. */
  predicate IsPasswordless(step: Step) {
    step.ClaimPasswordless? || step.ReadAccount? || step.LoadCredentials? || step.FinishPasswordless?
  }

  /** One flight is in another phase. */
  predicate OneMoved(w: World, w': World, i: nat) {
    i < |w.flights| == |w'.flights| && w'.flights == w.flights[i := w.flights[i].(phase := w'.flights[i].phase)]
  }

  /** Nothing but its phase, the proofs and the credentials. */
  predicate ProvingTouches(w: World, w': World, i: nat) {
    OneMoved(w, w', i) && w' == w.(flights := w'.flights, proofs := w'.proofs, open := w'.open, spent := w'.spent)
  }

  lemma AssertionTouches(w: World, i: nat, c: OneTime, ok: bool)
    requires i < |w.flights|
    ensures ProvingTouches(w, DoAssertion(w, i, c, ok), i)
  {
  }

  lemma TakeCodeTouches(w: World, i: nat)
    requires i < |w.flights| && w.flights[i].phase.Matched?
    ensures ProvingTouches(w, DoTakeCode(w, i), i)
  {
  }

  lemma JudgingTouches(w: World, i: nat, phase: Phase, evidence: Evidence)
    requires i < |w.flights|
    ensures ProvingTouches(w, Become(w, i, phase), i) && ProvingTouches(w, Prove(w, i, evidence), i)
  {
  }

  lemma JudgingEffect(w: World, step: Step)
    requires (step.Verdict? || step.MatchCode? || step.CheckPolicy?) && Enabled(w, step)
    ensures ProvingTouches(w, Do(w, step), step.i)
    ensures Do(w, step).open == w.open && Do(w, step).spent == w.spent
  {
    match step
    case Verdict(i, ok) =>
      JudgingTouches(w, i, Failing, CodeAccepted);
      JudgingTouches(w, i, Verified, CodeAccepted);
    case MatchCode(i, code) =>
      JudgingTouches(w, i, Matched(code), CodeAccepted);
      JudgingTouches(w, i, Failing, CodeAccepted);
    case CheckPolicy(i, policy, passkeyAvailable) =>
      JudgingTouches(w, i, Closed(false), PolicyMet(policy, FactorsOf(w, w.flights[i].admin), passkeyAvailable));
  }

  lemma ProvingEffect(w: World, step: Step)
    requires Proves(step) && Enabled(w, step)
    ensures ProvingTouches(w, Do(w, step), step.i)
    ensures !step.Assertion? && !step.TakeCode? ==> Do(w, step).open == w.open && Do(w, step).spent == w.spent
  {
    if step.Assertion? {
      AssertionTouches(w, step.i, step.challenge, step.ok);
    } else if step.TakeCode? {
      TakeCodeTouches(w, step.i);
    } else {
      JudgingEffect(w, step);
    }
  }

  /** Its phase, rows and what is remembered of them, and the factors. */
  predicate FinishingTouches(w: World, w': World, i: nat) {
    && OneMoved(w, w', i) && w.next <= w'.next && !Holds(w'.flights[i].phase) && !w'.flights[i].phase.Failing?
    && w' == w.(flights := w'.flights, rows := w'.rows, minted := w'.minted, lost := w'.lost, failures := w'.failures,
                next := w'.next, factors := w'.factors)
  }

  lemma RecordingTouches(w: World, i: nat)
    requires i < |w.flights| && w.flights[i].pending.Some?
    ensures FinishingTouches(w, DoRecordFailure(w, i), i)
  {
  }

  lemma DroppingTouches(w: World, i: nat, ok: bool)
    requires i < |w.flights| && w.flights[i].pending.Some?
    ensures FinishingTouches(w, DoDropPending(w, i, ok), i)
  {
  }

  lemma ConsumingTouches(w: World, i: nat)
    requires i < |w.flights| && w.flights[i].pending.Some?
    ensures FinishingTouches(w, DoConsumePending(w, i), i)
  {
  }

  lemma MintingTouches(w: World, i: nat)
    requires i < |w.flights|
    ensures FinishingTouches(w, DoMint(w, i), i)
  {
  }

  lemma ClosingTouches(w: World, i: nat)
    requires i < |w.flights|
    ensures FinishingTouches(w, Become(w, i, Closed(false)), i) && FinishingTouches(w, DoEnableTotp(w, i), i)
  {
  }

  lemma FinishingEffect(w: World, step: Step)
    requires Finishes(step) && Enabled(w, step)
    ensures FinishingTouches(w, Do(w, step), step.i)
  {
    match step
    case RecordFailure(i) => RecordingTouches(w, i);
    case DropPending(i, ok) => DroppingTouches(w, i, ok);
    case ConsumePending(i) => ConsumingTouches(w, i);
    case Mint(i, ok) => if ok { MintingTouches(w, i); } else { ClosingTouches(w, i); }
    case Abandon(i) => ClosingTouches(w, i);
    case EnableTotp(i) => ClosingTouches(w, i);
  }

  /** Its phase or a new flight, the proofs, the ceremony it claims, and the handles. */
  predicate PasswordlessTouches(w: World, w': World) {
    && w.next <= w'.next
    && w' == w.(flights := w'.flights, proofs := w'.proofs, open := w'.open, spent := w'.spent, handles := w'.handles,
                next := w'.next)
    && forall a | a in w'.handles :: (a in w.handles && w'.handles[a] == w.handles[a]) || w'.handles[a] == w.next
  }

  /** The flight keeps the ceremony it holds, or lets go of it. */
  predicate LooksUp(w: World, w': World, i: nat) {
    && OneMoved(w, w', i) && w'.proofs == w.proofs && w'.open == w.open && w'.spent == w.spent
    && Holds(w.flights[i].phase)
    && (w'.flights[i].phase == Closed(false)
        || (Holds(w'.flights[i].phase) && w'.flights[i].phase.use == w.flights[i].phase.use))
  }

  lemma ReadingTouches(w: World, i: nat)
    requires i < |w.flights| && w.flights[i].phase.Claimed?
    ensures PasswordlessTouches(w, DoReadAccount(w, i)) && LooksUp(w, DoReadAccount(w, i), i)
  {
    ReadingLooksUp(w, i);
  }

  lemma ReadingLooksUp(w: World, i: nat)
    requires i < |w.flights| && w.flights[i].phase.Claimed?
    ensures LooksUp(w, DoReadAccount(w, i), i)
  {
  }

  lemma LoadingTouches(w: World, i: nat)
    requires i < |w.flights| && w.flights[i].phase.Named?
    ensures PasswordlessTouches(w, DoLoadCredentials(w, i)) && LooksUp(w, DoLoadCredentials(w, i), i)
  {
  }

  lemma ClaimingTouches(w: World, c: OneTime, f: Flight)
    ensures PasswordlessTouches(w, Start(Spend(w, c), f))
  {
  }

  lemma AssertingTouches(w: World, i: nat, evidence: Evidence)
    requires i < |w.flights|
    ensures PasswordlessTouches(w, Prove(w, i, evidence)) && OneMoved(w, Prove(w, i, evidence), i)
    ensures PasswordlessTouches(w, Become(w, i, Closed(false))) && OneMoved(w, Become(w, i, Closed(false)), i)
  {
  }

  lemma PasswordlessEffect(w: World, step: Step)
    requires IsPasswordless(step) && Enabled(w, step)
    ensures PasswordlessTouches(w, Do(w, step))
    ensures !step.ClaimPasswordless? ==>
              && OneMoved(w, Do(w, step), step.i) && !Do(w, step).flights[step.i].phase.Failing?
              && Do(w, step).open == w.open && Do(w, step).spent == w.spent
  {
    match step
    case ClaimPasswordless(c, admin, handle) =>
      ClaimingTouches(w, c, Flight(Passwordless, admin, None, Claimed(|w.spent|, handle)));
    case ReadAccount(i) => ReadingTouches(w, i);
    case LoadCredentials(i) => LoadingTouches(w, i);
    case FinishPasswordless(i, _) => AssertingTouches(w, i, Spending(w.flights[i].phase.use));
  }

  // ----- once only -----

  ghost predicate UseFits(u: Use, next: nat) {
    u.credential.id < next && (!u.credential.RecoveryCode? ==> u.at < u.credential.expires)
  }

  ghost predicate Once(open: set<OneTime>, spent: seq<Use>, next: nat) {
    && (forall c | c in open :: c.id < next)
    && (forall c, c' | c in open && c' in open && c.id == c'.id :: c == c')
    && (forall k | 0 <= k < |spent| :: UseFits(spent[k], next))
    && (forall k, l | 0 <= k < l < |spent| :: spent[k].credential.id != spent[l].credential.id)
    && (forall k, c | 0 <= k < |spent| && c in open :: c.id != spent[k].credential.id)
  }

  /** Codes, ceremonies and stamps after a step: still used once each, and nothing that was spent is forgotten. */
  ghost predicate OnceKept(w: World, w': World) {
    OnceNow(w') && w.next <= w'.next && SpentKept(w.spent, w'.spent)
  }

  ghost predicate SpentKept(spent: seq<Use>, spent': seq<Use>) {
    |spent| <= |spent'| && forall k | 0 <= k < |spent| :: spent'[k] == spent[k]
  }

  ghost predicate OnceNow(w: World) {
    Once(w.open, w.spent, w.next)
  }

  lemma SpendKeepsOnce(w: World, c: OneTime)
    requires OnceNow(w) && c in w.open && (!c.RecoveryCode? ==> w.now < c.expires)
    ensures OnceKept(w, Spend(w, c))
  {
  }

  lemma IssueKeepsOnce(w: World, kept: set<OneTime>, issued: set<OneTime>, n: nat)
    requires OnceNow(w) && kept <= w.open
    requires forall c | c in issued :: w.next <= c.id < w.next + n
    requires forall c, c' | c in issued && c' in issued && c.id == c'.id :: c == c'
    ensures OnceKept(w, Issue(w, kept, issued, n))
  {
  }

  lemma IssueOneKeepsOnce(w: World, kept: set<OneTime>, c: OneTime)
    requires OnceNow(w) && kept <= w.open && c.id == w.next
    ensures OnceKept(w, Issue(w, kept, {c}, 1))
  {
    IssueKeepsOnce(w, kept, {c}, 1);
  }

  lemma WithdrawKeepsOnce(w: World, kept: set<OneTime>)
    requires OnceNow(w) && kept <= w.open
    ensures OnceNow(w.(open := kept))
  {
  }

  lemma AssertionKeepsOnce(w: World, i: nat, c: OneTime, ok: bool)
    requires OnceNow(w) && i < |w.flights|
    ensures OnceKept(w, DoAssertion(w, i, c, ok))
  {
    if MayClaim(w, c, LoginCeremony, w.flights[i].pending) { SpendKeepsOnce(w, c); }
  }

  lemma TakeCodeKeepsOnce(w: World, i: nat)
    requires OnceNow(w) && i < |w.flights| && w.flights[i].phase.Matched?
    ensures OnceKept(w, DoTakeCode(w, i))
  {
    var code := RecoveryCode(w.flights[i].phase.code, w.flights[i].admin);
    if code in w.open { SpendKeepsOnce(w, code); }
  }

  lemma StepUpKeepsOnce(w: World, c: OneTime, accepted: bool)
    requires OnceNow(w) && Enabled(w, FinishStepUp(c, accepted))
    ensures OnceKept(w, Do(w, FinishStepUp(c, accepted)))
  {
    SpendKeepsOnce(w, c);
    var w' := Spend(w, c);
    if accepted {
      IssueOneKeepsOnce(w', WithoutStamp(w'.open, c.binding), Stamp(w.next, c.binding, w.now + STAMP_LIFE));
    }
  }

  lemma CountingKeepsOnce(w: World, w': World)
    requires OnceNow(w) && w'.open == w.open && w'.spent == w.spent && w.next <= w'.next
    ensures OnceKept(w, w')
  {
  }

  lemma OthersKeepOnce(w: World, step: Step)
    requires OnceNow(w) && Enabled(w, step) && !Issues(step) && !Spends(step)
    requires !step.Assertion? && !step.TakeCode? && !step.FinishStepUp? && !step.ResetMFA? && !step.ClearStamps?
    ensures OnceKept(w, Do(w, step))
  {
    if Proves(step) {
      ProvingEffect(w, step);
    } else if Finishes(step) {
      FinishingEffect(w, step);
    } else if IsPasswordless(step) {
      PasswordlessEffect(w, step);
    }
    CountingKeepsOnce(w, Do(w, step));
  }

  predicate Issues(step: Step) { step.ReplaceCodes? || step.BeginCeremony? }

  lemma IssuesKeepOnce(w: World, step: Step)
    requires OnceNow(w) && Enabled(w, step) && Issues(step)
    ensures OnceKept(w, Do(w, step))
  {
    if step.ReplaceCodes? {
      var admin := step.admin;
      IssueKeepsOnce(w, WithoutCodes(w.open, admin),
                     FreshCodes(w.next, RECOVERY_CODES, admin), RECOVERY_CODES);
    } else {
      IssueOneKeepsOnce(w, w.open, Challenge(w.next, step.purpose, step.binding, w.now + CHALLENGE_LIFE));
    }
  }

  predicate Spends(step: Step) { step.ClaimPasswordless? || step.UseStamp? || step.StepUpWithCode? }

  lemma SpendsKeepOnce(w: World, step: Step)
    requires OnceNow(w) && Enabled(w, step) && Spends(step)
    ensures OnceKept(w, Do(w, step))
  {
    match step
    case ClaimPasswordless(c, _, _) => SpendKeepsOnce(w, c);
    case UseStamp(s) => SpendKeepsOnce(w, s);
    case StepUpWithCode(c) => SpendKeepsOnce(w, c);
  }

  lemma StepKeepsOnce(w: World, step: Step)
    requires OnceNow(w)
    ensures OnceKept(w, Do(w, step))
  {
    if !Enabled(w, step) {
    } else if step.Assertion? {
      AssertionKeepsOnce(w, step.i, step.challenge, step.ok);
    } else if step.TakeCode? {
      TakeCodeKeepsOnce(w, step.i);
    } else if step.FinishStepUp? {
      StepUpKeepsOnce(w, step.challenge, step.accepted);
    } else if Issues(step) {
      IssuesKeepOnce(w, step);
    } else if Spends(step) {
      SpendsKeepOnce(w, step);
    } else if step.ResetMFA? || step.ClearStamps? {
      WithdrawKeepsOnce(w, Do(w, step).open);
    } else {
      OthersKeepOnce(w, step);
    }
  }

  // ----- what every step keeps -----

  ghost predicate HasProof(proofs: seq<Proof>, i: nat, limit: Time) {
    exists k | 0 <= k < |proofs| :: proofs[k].flight == i && proofs[k].at <= limit
  }

  /** What a way of logging in has to show. */
  predicate EvidenceFits(spent: seq<Use>, f: Flight, e: Evidence) {
    match f.way
    case TotpCode => e.CodeAccepted?
    case Enrolment => e.PolicyMet? && PolicySatisfied(e.policy, e.factors, e.passkeyAvailable)
    case TotpEnrolment => false
    case Recovery =>
      && e.Spending? && e.use < |spent|
      && spent[e.use].credential.RecoveryCode? && spent[e.use].credential.owner == f.admin
    case PasskeyAssertion =>
      && e.Spending? && e.use < |spent|
      && spent[e.use].credential.Challenge? && spent[e.use].credential.purpose == LoginCeremony
      && Some(spent[e.use].credential.binding) == f.pending
    case Passwordless =>
      && e.Spending? && e.use < |spent|
      && spent[e.use].credential.Challenge? && spent[e.use].credential.purpose == PasswordlessCeremony
  }

  ghost predicate FlightFits(w: World, i: nat)
    requires i < |w.flights|
  {
    var f := w.flights[i];
    && (f.way.Passwordless? <==> f.pending.None?)
    && (f.pending.Some? ==> f.pending.value in w.everPending && w.everPending[f.pending.value] == f.admin)
    && (PastProof(f.phase) ==> HasProof(w.proofs, i, w.now))
    && (Consumed(f.phase) && f.pending.Some? ==> f.pending.value !in w.rows)
    && (f.phase.Matched? ==> f.way.Recovery?)
    && (f.phase.Claimed? ==> f.phase.handle < w.next)
    && (f.phase.Verified? ==> f.way.TotpEnrolment?)
  }

  ghost predicate FlightsOk(w: World) {
    && (forall i | 0 <= i < |w.flights| :: FlightFits(w, i))
    && (forall i, j | 0 <= i < j < |w.flights| :: !SamePendingConsumed(w.flights[i], w.flights[j]))
  }

  predicate SamePendingConsumed(f: Flight, g: Flight) {
    f.pending.Some? && f.pending == g.pending && Consumed(f.phase) && Consumed(g.phase)
  }

  predicate ProofFits(w: World, p: Proof) {
    && p.at <= w.now && p.flight < |w.flights|
    && (w.flights[p.flight].phase.Closed? || PastProof(w.flights[p.flight].phase))
    && EvidenceFits(w.spent, w.flights[p.flight], p.evidence)
  }

  predicate Ordered(p: Proof, q: Proof) {
    p.flight != q.flight && (p.evidence.Spending? && q.evidence.Spending? ==> p.evidence.use != q.evidence.use)
  }

  ghost predicate ProofsOk(w: World) {
    && (forall k | 0 <= k < |w.proofs| :: ProofFits(w, w.proofs[k]))
    && (forall k, l | 0 <= k < l < |w.proofs| :: Ordered(w.proofs[k], w.proofs[l]))
  }

  ghost predicate RowFits(w: World, t: Token, row: Row) {
    match row
    case Pending(admin, _, _, _) => t in w.everPending && w.everPending[t] == admin
    case Session(admin, _, flight, created) =>
      && t in w.minted && w.minted[t] == flight && flight < |w.flights| && w.flights[flight].admin == admin
      && created <= w.now && HasProof(w.proofs, flight, created)
  }

  predicate MintedBy(w: World, t: Token, i: nat) {
    t < w.next && t !in w.everPending && InFlight(w, i, Closed(true))
  }

  ghost predicate RowsOk(w: World) {
    && (forall t | t in w.rows :: RowFits(w, t, w.rows[t]))
    && (forall t | t in w.everPending :: t < w.next)
    && (forall t | t in w.minted :: MintedBy(w, t, w.minted[t]))
    && (forall t, t' | t in w.minted && t' in w.minted && w.minted[t] == w.minted[t'] :: t == t')
  }

  ghost predicate BeingDropped(w: World, t: Token) {
    t in w.lost || exists i | 0 <= i < |w.flights| :: w.flights[i].phase.Dropping? && w.flights[i].pending == Some(t)
  }

  ghost predicate AttemptsOk(w: World) {
    forall t | t in w.rows && w.rows[t].Pending? && w.rows[t].attempts >= MAX_ATTEMPTS :: BeingDropped(w, t)
  }

  predicate HeldFits(w: World, f: Flight) {
    Holds(f.phase) ==>
      && f.way.Passwordless? && f.phase.use < |w.spent|
      && w.spent[f.phase.use].credential.Challenge? && w.spent[f.phase.use].credential.purpose == PasswordlessCeremony
  }

  predicate HeldApart(f: Flight, g: Flight) {
    Holds(f.phase) && Holds(g.phase) ==> f.phase.use != g.phase.use
  }

  predicate HeldUnproven(f: Flight, p: Proof) {
    Holds(f.phase) && p.evidence.Spending? ==> f.phase.use != p.evidence.use
  }

  /** A claimed ceremony is held by one flight and no proof was made with it. */
  ghost predicate HeldOk(w: World) {
    && (forall i | 0 <= i < |w.flights| :: HeldFits(w, w.flights[i]))
    && (forall i, j | 0 <= i < j < |w.flights| :: HeldApart(w.flights[i], w.flights[j]))
    && (forall i, k | 0 <= i < |w.flights| && 0 <= k < |w.proofs| :: HeldUnproven(w.flights[i], w.proofs[k]))
  }

  ghost predicate Inv(w: World) {
    FlightsOk(w) && ProofsOk(w) && RowsOk(w) && AttemptsOk(w)
  }

  /** A step that only changes the clock, the credentials and the factors. */
  lemma ElsewhereKeepsInv(w: World, w': World)
    requires Inv(w)
    requires w' == w.(now := w'.now, next := w'.next, open := w'.open, spent := w'.spent, factors := w'.factors,
                      handles := w'.handles)
    requires w.now <= w'.now && w.next <= w'.next && SpentKept(w.spent, w'.spent)
    ensures Inv(w')
  {
    forall i | 0 <= i < |w.flights| ensures FlightFits(w', i) { assert FlightFits(w, i); }
    forall k | 0 <= k < |w.proofs| ensures ProofFits(w', w.proofs[k]) { assert ProofFits(w, w.proofs[k]); }
    forall t | t in w.rows ensures RowFits(w', t, w.rows[t]) { assert RowFits(w, t, w.rows[t]); }
    forall t | t in w.rows && w.rows[t].Pending? && w.rows[t].attempts >= MAX_ATTEMPTS ensures BeingDropped(w', t) {
      assert BeingDropped(w, t);
    }
  }

  lemma FewerRowsKeepInv(w: World, w': World)
    requires Inv(w) && w' == w.(rows := w'.rows, open := w'.open, factors := w'.factors, handles := w'.handles)
    requires forall t | t in w'.rows :: t in w.rows && w'.rows[t] == w.rows[t]
    ensures Inv(w')
  {
    forall i | 0 <= i < |w.flights| ensures FlightFits(w', i) { assert FlightFits(w, i); }
    forall k | 0 <= k < |w.proofs| ensures ProofFits(w', w.proofs[k]) { assert ProofFits(w, w.proofs[k]); }
    forall t | t in w'.rows ensures RowFits(w', t, w'.rows[t]) { assert RowFits(w, t, w.rows[t]); }
    forall t | t in w'.rows && w'.rows[t].Pending? && w'.rows[t].attempts >= MAX_ATTEMPTS ensures BeingDropped(w', t) {
      assert BeingDropped(w, t);
    }
  }

  /** A flight moves on without a proof, or gives up. */
  lemma BecomeKeepsInv(w: World, i: nat, phase: Phase)
    requires Inv(w) && i < |w.flights|
    requires
      || ((MayAbandon(w.flights[i].phase) || w.flights[i].phase == Minting) && phase == Closed(false))
      || (Holds(w.flights[i].phase) && (phase.Named? || phase.Loaded?))
      || (w.flights[i].phase == Resolved && phase == Verified)
      || ((w.flights[i].phase == Resolved || w.flights[i].phase.Matched?) && (phase.Matched? || phase == Failing))
      || (w.flights[i].phase == Failing && phase == Dropping)
    requires (phase.Matched? || phase == Failing || phase == Dropping) ==> w.flights[i].pending.Some?
    requires phase.Matched? ==> w.flights[i].way.Recovery?
    requires phase.Verified? ==> w.flights[i].way.TotpEnrolment?
    ensures Inv(Become(w, i, phase))
  {
    var w' := Become(w, i, phase);
    forall j | 0 <= j < |w'.flights| ensures FlightFits(w', j) { assert FlightFits(w, j); }
    forall k | 0 <= k < |w.proofs| ensures ProofFits(w', w.proofs[k]) { assert ProofFits(w, w.proofs[k]); }
    forall t | t in w.rows ensures RowFits(w', t, w.rows[t]) { assert RowFits(w, t, w.rows[t]); }
    forall t | t in w.minted ensures MintedBy(w', t, w.minted[t]) { assert MintedBy(w, t, w.minted[t]); }
    forall t | t in w.rows && w.rows[t].Pending? && w.rows[t].attempts >= MAX_ATTEMPTS ensures BeingDropped(w', t) {
      StillDropped(w, i, phase, t);
    }
    forall j, k | 0 <= j < k < |w'.flights| ensures !SamePendingConsumed(w'.flights[j], w'.flights[k]) {
      assert !SamePendingConsumed(w.flights[j], w.flights[k]);
    }
  }

  lemma StillDropped(w: World, i: nat, phase: Phase, t: Token)
    requires BeingDropped(w, t) && i < |w.flights| && !w.flights[i].phase.Dropping?
    ensures BeingDropped(Become(w, i, phase), t)
  {
    if t !in w.lost {
      var j :| 0 <= j < |w.flights| && w.flights[j].phase.Dropping? && w.flights[j].pending == Some(t);
      assert Become(w, i, phase).flights[j] == w.flights[j];
    }
  }

  lemma ProveKeepsInv(w: World, i: nat, evidence: Evidence)
    requires Inv(w) && i < |w.flights|
    requires w.flights[i].phase == Resolved || w.flights[i].phase.Matched? || w.flights[i].phase.Loaded?
    requires EvidenceFits(w.spent, w.flights[i], evidence)
    requires forall k | 0 <= k < |w.proofs| && w.proofs[k].evidence.Spending? && evidence.Spending? ::
               w.proofs[k].evidence.use != evidence.use
    ensures Inv(Prove(w, i, evidence))
  {
    var w' := Prove(w, i, evidence);
    assert w'.proofs[|w.proofs|] == Proof(i, evidence, w.now);
    forall j | 0 <= j < |w'.flights| ensures FlightFits(w', j) {
      assert FlightFits(w, j);
      if j != i && PastProof(w.flights[j].phase) { ProofStays(w.proofs, w'.proofs, j, w.now); }
    }
    forall k | 0 <= k < |w.proofs| ensures ProofFits(w', w.proofs[k]) && w.proofs[k].flight != i {
      assert ProofFits(w, w.proofs[k]);
    }
    forall t | t in w.rows ensures RowFits(w', t, w.rows[t]) {
      assert RowFits(w, t, w.rows[t]);
      if w.rows[t].Session? { ProofStays(w.proofs, w'.proofs, w.rows[t].flight, w.rows[t].created); }
    }
    forall t | t in w.minted ensures MintedBy(w', t, w.minted[t]) { assert MintedBy(w, t, w.minted[t]); }
    forall t | t in w.rows && w.rows[t].Pending? && w.rows[t].attempts >= MAX_ATTEMPTS ensures BeingDropped(w', t) {
      StillDropped(w, i, Proven, t);
      assert w'.flights == Become(w, i, Proven).flights;
    }
    forall j, k | 0 <= j < k < |w'.flights| ensures !SamePendingConsumed(w'.flights[j], w'.flights[k]) {
      assert !SamePendingConsumed(w.flights[j], w.flights[k]);
    }
  }

  lemma ProofStays(proofs: seq<Proof>, proofs': seq<Proof>, i: nat, limit: Time)
    requires HasProof(proofs, i, limit) && |proofs| <= |proofs'|
    requires forall k | 0 <= k < |proofs| :: proofs'[k] == proofs[k]
    ensures HasProof(proofs', i, limit)
  {
    var k :| 0 <= k < |proofs| && proofs[k].flight == i && proofs[k].at <= limit;
    assert proofs'[k].flight == i;
  }

  lemma LoginKeepsInv(w: World, admin: AdminId, kind: Kind)
    requires Inv(w)
    ensures Inv(DoLogin(w, admin, kind))
  {
    var w' := DoLogin(w, admin, kind);
    forall i | 0 <= i < |w.flights| ensures FlightFits(w', i) { assert FlightFits(w, i); }
    forall k | 0 <= k < |w.proofs| ensures ProofFits(w', w.proofs[k]) { assert ProofFits(w, w.proofs[k]); }
    forall t | t in w'.rows ensures RowFits(w', t, w'.rows[t]) {
      if t != w.next { assert RowFits(w, t, w.rows[t]); }
    }
    forall t | t in w.minted ensures MintedBy(w', t, w.minted[t]) { assert MintedBy(w, t, w.minted[t]); }
    forall t | t in w'.rows && w'.rows[t].Pending? && w'.rows[t].attempts >= MAX_ATTEMPTS ensures BeingDropped(w', t) {
      assert BeingDropped(w, t);
    }
  }

  lemma StartKeepsInv(w: World, f: Flight)
    requires Inv(w) && (f.phase == Resolved || (f.phase.Claimed? && f.phase.handle < w.next))
    requires f.way.Passwordless? <==> f.pending.None?
    requires f.pending.Some? ==> f.pending.value in w.everPending && w.everPending[f.pending.value] == f.admin
    ensures Inv(Start(w, f))
  {
    var w' := Start(w, f);
    forall i | 0 <= i < |w'.flights| ensures FlightFits(w', i) {
      if i < |w.flights| { assert FlightFits(w, i); }
    }
    MoreFlights(w, w');
    forall i, j | 0 <= i < j < |w'.flights| ensures !SamePendingConsumed(w'.flights[i], w'.flights[j]) {
      if j < |w.flights| { assert !SamePendingConsumed(w.flights[i], w.flights[j]); }
    }
  }

  lemma ResolveKeepsInv(w: World, token: Token, way: Way)
    requires Inv(w) && MayResolve(w, token, way)
    ensures Inv(Do(w, Resolve(token, way)))
  {
    assert RowFits(w, token, w.rows[token]);
    StartKeepsInv(w, Flight(way, w.rows[token].admin, Some(token), Resolved));
  }

  /** Rows and proofs do not mind new flights. */
  lemma MoreFlights(w: World, w': World)
    requires ProofsOk(w) && RowsOk(w) && AttemptsOk(w)
    requires w' == w.(flights := w'.flights) && |w.flights| <= |w'.flights|
    requires forall i | 0 <= i < |w.flights| :: w'.flights[i] == w.flights[i]
    ensures ProofsOk(w') && RowsOk(w') && AttemptsOk(w')
  {
    forall k | 0 <= k < |w.proofs| ensures ProofFits(w', w.proofs[k]) { assert ProofFits(w, w.proofs[k]); }
    forall t | t in w.rows ensures RowFits(w', t, w.rows[t]) { assert RowFits(w, t, w.rows[t]); }
    forall t | t in w.minted ensures MintedBy(w', t, w.minted[t]) { assert MintedBy(w, t, w.minted[t]); }
    forall t | t in w.rows && w.rows[t].Pending? && w.rows[t].attempts >= MAX_ATTEMPTS ensures BeingDropped(w', t) {
      assert BeingDropped(w, t);
      if t !in w.lost {
        var i :| 0 <= i < |w.flights| && w.flights[i].phase.Dropping? && w.flights[i].pending == Some(t);
        assert w'.flights[i].pending == Some(t);
      }
    }
  }

  lemma CountedFailureKeepsInv(w: World, token: Token)
    requires Inv(w) && token in w.rows && w.rows[token].Pending?
    requires w.rows[token].attempts + 1 >= MAX_ATTEMPTS ==> BeingDropped(w, token)
    ensures Inv(CountFailure(w, token))
  {
    var w' := CountFailure(w, token);
    forall j | 0 <= j < |w'.flights| ensures FlightFits(w', j) { assert FlightFits(w, j); }
    forall k | 0 <= k < |w.proofs| ensures ProofFits(w', w.proofs[k]) { assert ProofFits(w, w.proofs[k]); }
    forall t | t in w'.rows ensures RowFits(w', t, w'.rows[t]) { assert RowFits(w, t, w.rows[t]); }
    forall t | t in w.minted ensures MintedBy(w', t, w.minted[t]) { assert MintedBy(w, t, w.minted[t]); }
    forall t | t in w'.rows && w'.rows[t].Pending? && w'.rows[t].attempts >= MAX_ATTEMPTS ensures BeingDropped(w', t) {
      assert BeingDropped(w, t);
    }
  }

  lemma RecordFailureKeepsInv(w: World, i: nat)
    requires Inv(w) && InFlight(w, i, Failing) && w.flights[i].pending.Some?
    ensures Inv(DoRecordFailure(w, i))
  {
    var token := w.flights[i].pending.value;
    if token !in w.rows || !w.rows[token].Pending? {
      BecomeKeepsInv(w, i, Closed(false));
    } else {
      var phase := if w.rows[token].attempts + 1 >= MAX_ATTEMPTS then Dropping else Closed(false);
      BecomeKeepsInv(w, i, phase);
      if phase.Dropping? { AboutToDrop(Become(w, i, phase), i); }
      CountedFailureKeepsInv(Become(w, i, phase), token);
    }
  }

  lemma AboutToDrop(w: World, i: nat)
    requires InFlight(w, i, Dropping) && w.flights[i].pending.Some?
    ensures BeingDropped(w, w.flights[i].pending.value)
  {
  }

  /** A flight that was to delete its row is done with it. */
  lemma DroppedKeepsInv(w: World, i: nat, token: Token)
    requires Inv(w) && InFlight(w, i, Dropping) && w.flights[i].pending == Some(token)
    requires token !in w.rows || token in w.lost
    ensures Inv(Become(w, i, Closed(false)))
  {
    var w' := Become(w, i, Closed(false));
    forall j | 0 <= j < |w'.flights| ensures FlightFits(w', j) { assert FlightFits(w, j); }
    forall k | 0 <= k < |w.proofs| ensures ProofFits(w', w.proofs[k]) { assert ProofFits(w, w.proofs[k]); }
    forall t | t in w'.rows ensures RowFits(w', t, w'.rows[t]) { assert RowFits(w, t, w.rows[t]); }
    forall t | t in w.minted ensures MintedBy(w', t, w.minted[t]) { assert MintedBy(w, t, w.minted[t]); }
    forall t | t in w'.rows && w'.rows[t].Pending? && w'.rows[t].attempts >= MAX_ATTEMPTS ensures BeingDropped(w', t) {
      assert BeingDropped(w, t);
      if t !in w.lost {
        var j :| 0 <= j < |w.flights| && w.flights[j].phase.Dropping? && w.flights[j].pending == Some(t);
        assert w'.flights[j] == w.flights[j];
      }
    }
    forall j, k | 0 <= j < k < |w'.flights| ensures !SamePendingConsumed(w'.flights[j], w'.flights[k]) {
      assert !SamePendingConsumed(w.flights[j], w.flights[k]);
    }
  }

  lemma LostKeepsInv(w: World, token: Token)
    requires Inv(w)
    ensures Inv(w.(lost := w.lost + {token}))
  {
    var w' := w.(lost := w.lost + {token});
    forall j | 0 <= j < |w'.flights| ensures FlightFits(w', j) { assert FlightFits(w, j); }
    forall k | 0 <= k < |w.proofs| ensures ProofFits(w', w.proofs[k]) { assert ProofFits(w, w.proofs[k]); }
    forall t | t in w'.rows ensures RowFits(w', t, w'.rows[t]) { assert RowFits(w, t, w.rows[t]); }
    forall t | t in w.minted ensures MintedBy(w', t, w.minted[t]) { assert MintedBy(w, t, w.minted[t]); }
    forall t | t in w'.rows && w'.rows[t].Pending? && w'.rows[t].attempts >= MAX_ATTEMPTS ensures BeingDropped(w', t) {
      assert BeingDropped(w, t);
    }
  }

  lemma DropKeepsInv(w: World, i: nat, ok: bool)
    requires Inv(w) && InFlight(w, i, Dropping) && w.flights[i].pending.Some?
    ensures Inv(DoDropPending(w, i, ok))
  {
    var token := w.flights[i].pending.value;
    if ok {
      FewerRowsKeepInv(w, w.(rows := w.rows - {token}));
      DroppedKeepsInv(w.(rows := w.rows - {token}), i, token);
    } else {
      LostKeepsInv(w, token);
      DroppedKeepsInv(w.(lost := w.lost + {token}), i, token);
    }
  }

  lemma ConsumeKeepsInv(w: World, i: nat)
    requires Inv(w) && InFlight(w, i, Proven) && w.flights[i].pending.Some?
    ensures Inv(DoConsumePending(w, i))
  {
    var token := w.flights[i].pending.value;
    if token !in w.rows || !w.rows[token].Pending? {
      BecomeKeepsInv(w, i, Closed(false));
    } else {
      var w' := DoConsumePending(w, i);
      forall j | 0 <= j < |w'.flights| ensures FlightFits(w', j) { assert FlightFits(w, j); }
      forall k | 0 <= k < |w.proofs| ensures ProofFits(w', w.proofs[k]) { assert ProofFits(w, w.proofs[k]); }
      forall t | t in w'.rows ensures RowFits(w', t, w'.rows[t]) { assert RowFits(w, t, w.rows[t]); }
      forall t | t in w.minted ensures MintedBy(w', t, w.minted[t]) { assert MintedBy(w, t, w.minted[t]); }
      forall t | t in w'.rows && w'.rows[t].Pending? && w'.rows[t].attempts >= MAX_ATTEMPTS ensures BeingDropped(w', t) {
        StillDropped(w, i, Minting, t);
        assert w'.flights == Become(w, i, Minting).flights;
      }
      forall j, k | 0 <= j < k < |w'.flights| ensures !SamePendingConsumed(w'.flights[j], w'.flights[k]) {
        assert FlightFits(w, j) && FlightFits(w, k) && !SamePendingConsumed(w.flights[j], w.flights[k]);
      }
    }
  }

  lemma MintKeepsInv(w: World, i: nat)
    requires Inv(w) && i < |w.flights| && ReadyToMint(w.flights[i])
    ensures Inv(DoMint(w, i))
  {
    var w' := DoMint(w, i);
    assert FlightFits(w, i);
    forall j | 0 <= j < |w'.flights| ensures FlightFits(w', j) { assert FlightFits(w, j); }
    forall k | 0 <= k < |w.proofs| ensures ProofFits(w', w.proofs[k]) { assert ProofFits(w, w.proofs[k]); }
    forall t | t in w'.rows ensures RowFits(w', t, w'.rows[t]) {
      if t != w.next { FreshToken(w, t); assert RowFits(w, t, w.rows[t]); }
    }
    forall t | t in w'.minted ensures MintedBy(w', t, w'.minted[t]) {
      if t != w.next { assert MintedBy(w, t, w.minted[t]); }
    }
    forall t | t in w'.rows && w'.rows[t].Pending? && w'.rows[t].attempts >= MAX_ATTEMPTS ensures BeingDropped(w', t) {
      StillDropped(w, i, Closed(true), t);
      assert w'.flights == Become(w, i, Closed(true)).flights;
    }
    forall j, k | 0 <= j < k < |w'.flights| ensures !SamePendingConsumed(w'.flights[j], w'.flights[k]) {
      assert !SamePendingConsumed(w.flights[j], w.flights[k]);
    }
    forall t, t' | t in w'.minted && t' in w'.minted && w'.minted[t] == w'.minted[t'] ensures t == t' {
      if t in w.minted && t != w.next { assert MintedBy(w, t, w.minted[t]); }
      if t' in w.minted && t' != w.next { assert MintedBy(w, t', w.minted[t']); }
    }
  }

  lemma FreshToken(w: World, t: Token)
    requires RowsOk(w) && t in w.rows
    ensures t < w.next
  {
    assert RowFits(w, t, w.rows[t]);
    if w.rows[t].Session? { assert MintedBy(w, t, w.minted[t]); }
  }

  lemma NextUse(w: World, k: nat)
    requires ProofsOk(w) && k < |w.proofs| && w.proofs[k].evidence.Spending?
    ensures w.proofs[k].evidence.use < |w.spent|
  {
    assert ProofFits(w, w.proofs[k]);
  }

  lemma SpendAndProveKeepsInv(w: World, i: nat, c: OneTime)
    requires Inv(w) && i < |w.flights| && (w.flights[i].phase == Resolved || w.flights[i].phase.Matched?)
    requires EvidenceFits(Spend(w, c).spent, w.flights[i], Spending(|w.spent|))
    ensures Inv(Prove(Spend(w, c), i, Spending(|w.spent|)))
  {
    ElsewhereKeepsInv(w, Spend(w, c));
    forall k | 0 <= k < |w.proofs| && w.proofs[k].evidence.Spending? ensures w.proofs[k].evidence.use < |w.spent| {
      NextUse(w, k);
    }
    ProveKeepsInv(Spend(w, c), i, Spending(|w.spent|));
  }

  lemma ClaimKeepsInv(w: World, c: OneTime, admin: AdminId, handle: nat)
    requires Inv(w) && Enabled(w, ClaimPasswordless(c, admin, handle))
    ensures Inv(Do(w, ClaimPasswordless(c, admin, handle)))
  {
    ElsewhereKeepsInv(w, Spend(w, c));
    StartKeepsInv(Spend(w, c), Flight(Passwordless, admin, None, Claimed(|w.spent|, handle)));
  }

  lemma ReadAccountKeepsInv(w: World, i: nat)
    requires Inv(w) && i < |w.flights| && w.flights[i].phase.Claimed?
    ensures Inv(DoReadAccount(w, i))
  {
    var admin, phase := w.flights[i].admin, w.flights[i].phase;
    if admin !in w.handles {
      var w1 := w.(handles := w.handles[admin := w.next], next := w.next + 1);
      ElsewhereKeepsInv(w, w1);
      BecomeKeepsInv(w1, i, Closed(false));
    } else {
      BecomeKeepsInv(w, i, if w.handles[admin] == phase.handle then Named(phase.use) else Closed(false));
    }
  }

  lemma FinishPasswordlessKeepsInv(w: World, i: nat, accepted: bool)
    requires Inv(w) && HeldOk(w) && i < |w.flights| && w.flights[i].phase.Loaded?
    ensures Inv(Do(w, FinishPasswordless(i, accepted)))
  {
    if accepted {
      assert HeldFits(w, w.flights[i]);
      forall k | 0 <= k < |w.proofs| && w.proofs[k].evidence.Spending?
        ensures w.proofs[k].evidence.use != w.flights[i].phase.use
      {
        assert HeldUnproven(w.flights[i], w.proofs[k]);
      }
      ProveKeepsInv(w, i, Spending(w.flights[i].phase.use));
    } else {
      BecomeKeepsInv(w, i, Closed(false));
    }
  }

  lemma EnableKeepsInv(w: World, i: nat)
    requires Inv(w) && InFlight(w, i, Verified)
    ensures Inv(DoEnableTotp(w, i))
  {
    var admin := w.flights[i].admin;
    var w1 := w.(factors := w.factors[admin := FactorsOf(w, admin).(totpEnabled := true)]);
    ElsewhereKeepsInv(w, w1);
    BecomeKeepsInv(w1, i, Closed(false));
  }

  lemma PasswordlessKeepsInv(w: World, step: Step)
    requires Inv(w) && HeldOk(w) && IsPasswordless(step) && Enabled(w, step)
    ensures Inv(Do(w, step))
  {
    match step
    case ClaimPasswordless(c, admin, handle) => ClaimKeepsInv(w, c, admin, handle);
    case ReadAccount(i) => ReadAccountKeepsInv(w, i);
    case LoadCredentials(i) => BecomeKeepsInv(w, i, DoLoadCredentials(w, i).flights[i].phase);
    case FinishPasswordless(i, accepted) => FinishPasswordlessKeepsInv(w, i, accepted);
  }

  lemma AssertionKeepsInv(w: World, i: nat, c: OneTime, ok: bool)
    requires Inv(w) && InFlight(w, i, Resolved) && w.flights[i].way.PasskeyAssertion?
    ensures Inv(DoAssertion(w, i, c, ok))
  {
    assert FlightFits(w, i);
    if !MayClaim(w, c, LoginCeremony, w.flights[i].pending) {
      BecomeKeepsInv(w, i, Failing);
    } else if !ok {
      ElsewhereKeepsInv(w, Spend(w, c));
      BecomeKeepsInv(Spend(w, c), i, Failing);
    } else {
      SpendAndProveKeepsInv(w, i, c);
    }
  }

  lemma TakeCodeKeepsInv(w: World, i: nat)
    requires Inv(w) && i < |w.flights| && w.flights[i].phase.Matched? && w.flights[i].way.Recovery?
    ensures Inv(DoTakeCode(w, i))
  {
    assert FlightFits(w, i);
    var code := RecoveryCode(w.flights[i].phase.code, w.flights[i].admin);
    if code in w.open { SpendAndProveKeepsInv(w, i, code); } else { BecomeKeepsInv(w, i, Failing); }
  }

  lemma ProvingKeepsInv(w: World, step: Step)
    requires Inv(w) && Proves(step) && Enabled(w, step)
    ensures Inv(Do(w, step))
  {
    assert FlightFits(w, step.i);
    match step
    case Verdict(i, ok) =>
      if !ok {
        BecomeKeepsInv(w, i, Failing);
      } else if w.flights[i].way.TotpCode? {
        ProveKeepsInv(w, i, CodeAccepted);
      } else {
        BecomeKeepsInv(w, i, Verified);
      }
    case Assertion(i, c, ok) => AssertionKeepsInv(w, i, c, ok);
    case MatchCode(i, code) =>
      BecomeKeepsInv(w, i, if RecoveryCode(code, w.flights[i].admin) in w.open then Matched(code) else Failing);
    case TakeCode(i) => TakeCodeKeepsInv(w, i);
    case CheckPolicy(i, policy, passkeyAvailable) =>
      var factors := FactorsOf(w, w.flights[i].admin);
      if PolicySatisfied(policy, factors, passkeyAvailable) {
        ProveKeepsInv(w, i, PolicyMet(policy, factors, passkeyAvailable));
      } else {
        BecomeKeepsInv(w, i, Closed(false));
      }
  }

  /** The steps that change rows. */
  predicate ChangesRows(step: Step) {
    || step.Login? || step.Resolve? || step.RecordFailure? || step.DropPending? || step.ConsumePending? || step.Mint?
    || step.Abandon? || step.EnableTotp? || step.Revoke? || step.ResetMFA?
  }

  lemma RowChangeKeepsInv(w: World, step: Step)
    requires Inv(w) && ChangesRows(step) && Enabled(w, step)
    ensures Inv(Do(w, step))
  {
    match step
    case Login(admin, policy, passkeyAvailable) =>
      LoginKeepsInv(w, admin, if PolicySatisfied(policy, FactorsOf(w, admin), passkeyAvailable) then Verify else Enroll);
    case Resolve(token, way) => ResolveKeepsInv(w, token, way);
    case RecordFailure(i) => RecordFailureKeepsInv(w, i);
    case DropPending(i, ok) => DropKeepsInv(w, i, ok);
    case ConsumePending(i) => ConsumeKeepsInv(w, i);
    case Mint(i, ok) => if ok { MintKeepsInv(w, i); } else { BecomeKeepsInv(w, i, Closed(false)); }
    case Abandon(i) => BecomeKeepsInv(w, i, Closed(false));
    case EnableTotp(i) => EnableKeepsInv(w, i);
    case Revoke(_) => FewerRowsKeepInv(w, Do(w, step));
    case ResetMFA(_) => FewerRowsKeepInv(w, Do(w, step));
  }

  predicate ElsewhereTouches(w: World, w': World) {
    && w' == w.(now := w'.now, next := w'.next, open := w'.open, spent := w'.spent, factors := w'.factors,
                handles := w'.handles)
    && w.now <= w'.now && w.next <= w'.next && w.spent <= w'.spent
  }

  lemma SpendingTouches(w: World, step: Step)
    requires (step.FinishStepUp? || step.UseStamp? || step.StepUpWithCode?) && Enabled(w, step)
    ensures ElsewhereTouches(w, Do(w, step))
  {
  }

  lemma ElsewhereEffect(w: World, step: Step)
    requires Enabled(w, step) && !Proves(step) && !IsPasswordless(step) && !ChangesRows(step)
    ensures ElsewhereTouches(w, Do(w, step))
  {
    if step.FinishStepUp? || step.UseStamp? || step.StepUpWithCode? { SpendingTouches(w, step); }
  }

  lemma ElsewhereStepKeepsInv(w: World, step: Step)
    requires Inv(w) && Enabled(w, step) && !Proves(step) && !IsPasswordless(step) && !ChangesRows(step)
    ensures Inv(Do(w, step))
  {
    ElsewhereEffect(w, step);
    ElsewhereKeepsInv(w, Do(w, step));
  }

  lemma StepKeepsInv(w: World, step: Step)
    requires Inv(w) && HeldOk(w)
    ensures Inv(Do(w, step))
  {
    if Enabled(w, step) {
      if Proves(step) {
        ProvingKeepsInv(w, step);
      } else if IsPasswordless(step) {
        PasswordlessKeepsInv(w, step);
      } else if ChangesRows(step) {
        RowChangeKeepsInv(w, step);
      } else {
        ElsewhereStepKeepsInv(w, step);
      }
    }
  }

  // ----- claimed ceremonies -----

  /** A flight that does not take on a ceremony, and a proof made with a fresh one or with what the flight held. */
  lemma OneFlightKeepsHeld(w: World, w': World, i: nat, phase: Phase)
    requires HeldOk(w) && i < |w.flights| && w'.flights == w.flights[i := w.flights[i].(phase := phase)]
    requires w'.proofs == w.proofs && SpentKept(w.spent, w'.spent)
    requires Holds(phase) ==> Holds(w.flights[i].phase) && phase.use == w.flights[i].phase.use
    ensures HeldOk(w')
  {
    forall j | 0 <= j < |w'.flights| ensures HeldFits(w', w'.flights[j]) {
      assert HeldFits(w, w.flights[j]);
    }
    forall j, k | 0 <= j < k < |w'.flights| ensures HeldApart(w'.flights[j], w'.flights[k]) {
      assert HeldApart(w.flights[j], w.flights[k]);
    }
    forall j, k | 0 <= j < |w'.flights| && 0 <= k < |w'.proofs| ensures HeldUnproven(w'.flights[j], w'.proofs[k]) {
      assert HeldUnproven(w.flights[j], w.proofs[k]);
    }
  }

  lemma ProveKeepsHeld(w: World, i: nat, evidence: Evidence)
    requires HeldOk(w) && i < |w.flights|
    requires evidence.Spending? ==>
               forall j | 0 <= j < |w.flights| && j != i && Holds(w.flights[j].phase) :: w.flights[j].phase.use != evidence.use
    ensures HeldOk(Prove(w, i, evidence))
  {
    OneFlightKeepsHeld(w, Become(w, i, Proven), i, Proven);
    var w1, w' := Become(w, i, Proven), Prove(w, i, evidence);
    assert w'.flights == w1.flights;
    forall j, k | 0 <= j < |w'.flights| && 0 <= k < |w'.proofs| ensures HeldUnproven(w'.flights[j], w'.proofs[k]) {
      if k < |w.proofs| { assert HeldUnproven(w1.flights[j], w1.proofs[k]); }
    }
    forall j | 0 <= j < |w'.flights| ensures HeldFits(w', w'.flights[j]) {
      assert HeldFits(w1, w1.flights[j]);
    }
    forall j, k | 0 <= j < k < |w'.flights| ensures HeldApart(w'.flights[j], w'.flights[k]) {
      assert HeldApart(w1.flights[j], w1.flights[k]);
    }
  }

  lemma SpendAndProveKeepsHeld(w: World, i: nat, c: OneTime)
    requires HeldOk(w) && i < |w.flights|
    ensures HeldOk(Prove(Spend(w, c), i, Spending(|w.spent|)))
  {
    SameFlightsKeepHeld(w, Spend(w, c));
    forall j | 0 <= j < |w.flights| && Holds(w.flights[j].phase) ensures w.flights[j].phase.use != |w.spent| {
      assert HeldFits(w, w.flights[j]);
    }
    ProveKeepsHeld(Spend(w, c), i, Spending(|w.spent|));
  }

  lemma SameFlightsKeepHeld(w: World, w': World)
    requires HeldOk(w) && w'.flights == w.flights && w'.proofs == w.proofs && SpentKept(w.spent, w'.spent)
    ensures HeldOk(w')
  {
    forall j | 0 <= j < |w'.flights| ensures HeldFits(w', w'.flights[j]) {
      assert HeldFits(w, w.flights[j]);
    }
  }

  lemma StartKeepsHeld(w: World, f: Flight)
    requires HeldOk(w) && HeldFits(w, f)
    requires Holds(f.phase) ==>
               && (forall j | 0 <= j < |w.flights| :: HeldApart(w.flights[j], f))
               && (forall k | 0 <= k < |w.proofs| :: HeldUnproven(f, w.proofs[k]))
    ensures HeldOk(Start(w, f))
  {
    var w' := Start(w, f);
    forall j | 0 <= j < |w'.flights| ensures HeldFits(w', w'.flights[j]) {
      if j < |w.flights| { assert HeldFits(w, w.flights[j]); }
    }
    forall j, k | 0 <= j < k < |w'.flights| ensures HeldApart(w'.flights[j], w'.flights[k]) {
      if k < |w.flights| { assert HeldApart(w.flights[j], w.flights[k]); }
    }
    forall j, k | 0 <= j < |w'.flights| && 0 <= k < |w'.proofs| ensures HeldUnproven(w'.flights[j], w'.proofs[k]) {
      if j < |w.flights| { assert HeldUnproven(w.flights[j], w.proofs[k]); }
    }
  }

  lemma ClaimKeepsHeld(w: World, c: OneTime, admin: AdminId, handle: nat)
    requires ProofsOk(w) && HeldOk(w) && Enabled(w, ClaimPasswordless(c, admin, handle))
    ensures HeldOk(Do(w, ClaimPasswordless(c, admin, handle)))
  {
    var w1, f := Spend(w, c), Flight(Passwordless, admin, None, Claimed(|w.spent|, handle));
    SameFlightsKeepHeld(w, w1);
    forall j | 0 <= j < |w1.flights| ensures HeldApart(w1.flights[j], f) {
      assert HeldFits(w, w.flights[j]);
    }
    forall k | 0 <= k < |w1.proofs| ensures HeldUnproven(f, w1.proofs[k]) {
      if w.proofs[k].evidence.Spending? { NextUse(w, k); }
    }
    StartKeepsHeld(w1, f);
  }

  lemma FinishPasswordlessKeepsHeld(w: World, i: nat)
    requires HeldOk(w) && i < |w.flights| && w.flights[i].phase.Loaded?
    ensures HeldOk(Prove(w, i, Spending(w.flights[i].phase.use))) && HeldOk(Become(w, i, Closed(false)))
  {
    forall j | 0 <= j < |w.flights| && j != i && Holds(w.flights[j].phase)
      ensures w.flights[j].phase.use != w.flights[i].phase.use
    {
      assert if i < j then HeldApart(w.flights[i], w.flights[j]) else HeldApart(w.flights[j], w.flights[i]);
    }
    ProveKeepsHeld(w, i, Spending(w.flights[i].phase.use));
    OneFlightKeepsHeld(w, Become(w, i, Closed(false)), i, Closed(false));
  }

  lemma LookingUpKeepsHeld(w: World, w': World, i: nat)
    requires HeldOk(w) && LooksUp(w, w', i)
    ensures HeldOk(w')
  {
    OneFlightKeepsHeld(w, w', i, w'.flights[i].phase);
  }

  lemma PasswordlessKeepsHeld(w: World, step: Step)
    requires ProofsOk(w) && HeldOk(w) && IsPasswordless(step) && Enabled(w, step)
    ensures HeldOk(Do(w, step))
  {
    match step
    case ClaimPasswordless(c, admin, handle) => ClaimKeepsHeld(w, c, admin, handle);
    case ReadAccount(i) =>
      ReadingTouches(w, i);
      LookingUpKeepsHeld(w, DoReadAccount(w, i), i);
    case LoadCredentials(i) =>
      LoadingTouches(w, i);
      LookingUpKeepsHeld(w, DoLoadCredentials(w, i), i);
    case FinishPasswordless(i, _) => FinishPasswordlessKeepsHeld(w, i);
  }

  lemma AssertionKeepsHeld(w: World, i: nat, c: OneTime, ok: bool)
    requires HeldOk(w) && i < |w.flights|
    ensures HeldOk(DoAssertion(w, i, c, ok))
  {
    if MayClaim(w, c, LoginCeremony, w.flights[i].pending) && ok {
      SpendAndProveKeepsHeld(w, i, c);
    } else {
      OneFlightKeepsHeld(w, DoAssertion(w, i, c, ok), i, Failing);
    }
  }

  lemma TakeCodeKeepsHeld(w: World, i: nat)
    requires HeldOk(w) && i < |w.flights| && w.flights[i].phase.Matched?
    ensures HeldOk(DoTakeCode(w, i))
  {
    var code := RecoveryCode(w.flights[i].phase.code, w.flights[i].admin);
    if code in w.open {
      SpendAndProveKeepsHeld(w, i, code);
    } else {
      OneFlightKeepsHeld(w, DoTakeCode(w, i), i, Failing);
    }
  }

  lemma ProvingKeepsHeld(w: World, step: Step)
    requires HeldOk(w) && Proves(step) && Enabled(w, step)
    ensures HeldOk(Do(w, step))
  {
    if step.Assertion? {
      AssertionKeepsHeld(w, step.i, step.challenge, step.ok);
    } else if step.TakeCode? {
      TakeCodeKeepsHeld(w, step.i);
    } else {
      JudgingKeepsHeld(w, step);
    }
  }

  lemma JudgingKeepsHeld(w: World, step: Step)
    requires HeldOk(w) && (step.Verdict? || step.MatchCode? || step.CheckPolicy?) && Enabled(w, step)
    ensures HeldOk(Do(w, step))
  {
    match step
    case Verdict(i, ok) =>
      ProveKeepsHeld(w, i, CodeAccepted);
      OneFlightKeepsHeld(w, Become(w, i, Failing), i, Failing);
      OneFlightKeepsHeld(w, Become(w, i, Verified), i, Verified);
    case MatchCode(i, code) =>
      OneFlightKeepsHeld(w, Become(w, i, Matched(code)), i, Matched(code));
      OneFlightKeepsHeld(w, Become(w, i, Failing), i, Failing);
    case CheckPolicy(i, policy, passkeyAvailable) =>
      ProveKeepsHeld(w, i, PolicyMet(policy, FactorsOf(w, w.flights[i].admin), passkeyAvailable));
      OneFlightKeepsHeld(w, Become(w, i, Closed(false)), i, Closed(false));
  }

  lemma FinishingKeepsHeld(w: World, w': World, i: nat)
    requires HeldOk(w) && FinishingTouches(w, w', i)
    ensures HeldOk(w')
  {
    OneFlightKeepsHeld(w, w', i, w'.flights[i].phase);
  }

  lemma OthersKeepHeld(w: World, step: Step)
    requires HeldOk(w) && Enabled(w, step)
    requires !Proves(step) && !IsPasswordless(step) && !Finishes(step) && !step.Resolve?
    ensures HeldOk(Do(w, step))
  {
    SameFlightsKeepHeld(w, Do(w, step));
  }

  lemma StepKeepsHeld(w: World, step: Step)
    requires Inv(w) && HeldOk(w) && OnceNow(w)
    ensures HeldOk(Do(w, step))
  {
    if Enabled(w, step) {
      if Proves(step) {
        ProvingKeepsHeld(w, step);
      } else if IsPasswordless(step) {
        PasswordlessKeepsHeld(w, step);
      } else if Finishes(step) {
        FinishingEffect(w, step);
        FinishingKeepsHeld(w, Do(w, step), step.i);
      } else if step.Resolve? {
        StartKeepsHeld(w, Flight(step.way, w.rows[step.token].admin, Some(step.token), Resolved));
      } else {
        OthersKeepHeld(w, step);
      }
    }
  }

  // ----- counting failures -----

  /** A pending row knows how many failures were recorded against it. */
  ghost predicate Counted(w: World) {
    && (forall t | t in w.failures :: t < w.next)
    && (forall t | t in w.rows && w.rows[t].Pending? :: w.rows[t].attempts == Failures(w, t))
  }

  lemma FailureIsCounted(w: World, i: nat)
    requires Counted(w) && i < |w.flights| && w.flights[i].pending.Some?
    requires w.flights[i].pending.value in w.rows ==> w.flights[i].pending.value < w.next
    ensures Counted(DoRecordFailure(w, i))
  {
  }

  /** The step counts nothing, and every pending row is as it was or is new. */
  ghost predicate CountsNothing(w: World, w': World) {
    && w'.failures == w.failures && w.next <= w'.next
    && forall t | t in w'.rows && w'.rows[t].Pending? ::
         (t in w.rows && w'.rows[t] == w.rows[t]) || (t == w.next && w'.rows[t].attempts == 0)
  }

  lemma NothingCounted(w: World, w': World)
    requires Counted(w) && CountsNothing(w, w')
    ensures Counted(w')
  {
  }

  lemma ProvingCountsNothing(w: World, step: Step)
    requires Proves(step) && Enabled(w, step)
    ensures CountsNothing(w, Do(w, step))
  {
    ProvingEffect(w, step);
  }

  lemma RowChangeCountsNothing(w: World, step: Step)
    requires ChangesRows(step) && !Finishes(step) && Enabled(w, step)
    ensures CountsNothing(w, Do(w, step))
  {
  }

  lemma DropCountsNothing(w: World, i: nat, ok: bool)
    requires i < |w.flights| && w.flights[i].pending.Some?
    ensures CountsNothing(w, DoDropPending(w, i, ok))
  {
  }

  lemma ConsumeCountsNothing(w: World, i: nat)
    requires i < |w.flights| && w.flights[i].pending.Some?
    ensures CountsNothing(w, DoConsumePending(w, i))
  {
  }

  lemma MintCountsNothing(w: World, i: nat)
    requires i < |w.flights|
    ensures CountsNothing(w, DoMint(w, i))
  {
  }

  lemma CloseCountsNothing(w: World, i: nat)
    requires i < |w.flights|
    ensures CountsNothing(w, Become(w, i, Closed(false))) && CountsNothing(w, DoEnableTotp(w, i))
  {
  }

  lemma FinishingCountsNothing(w: World, step: Step)
    requires Finishes(step) && !step.RecordFailure? && Enabled(w, step)
    ensures CountsNothing(w, Do(w, step))
  {
    match step
    case DropPending(i, ok) => DropCountsNothing(w, i, ok);
    case ConsumePending(i) => ConsumeCountsNothing(w, i);
    case Mint(i, ok) => if ok { MintCountsNothing(w, i); } else { CloseCountsNothing(w, i); }
    case Abandon(i) => CloseCountsNothing(w, i);
    case EnableTotp(i) => CloseCountsNothing(w, i);
  }

  lemma PasswordlessCountsNothing(w: World, step: Step)
    requires IsPasswordless(step) && Enabled(w, step)
    ensures CountsNothing(w, Do(w, step))
  {
    PasswordlessEffect(w, step);
  }

  lemma OthersCountNothing(w: World, step: Step)
    requires !ChangesRows(step) && !Proves(step) && !IsPasswordless(step) && Enabled(w, step)
    ensures CountsNothing(w, Do(w, step))
  {
  }

  lemma StepKeepsCounted(w: World, step: Step)
    requires Counted(w) && Inv(w) && OnceNow(w)
    ensures Counted(Do(w, step))
  {
    if Enabled(w, step) {
      if step.RecordFailure? {
        var token := w.flights[step.i].pending.value;
        if token in w.rows { FreshToken(w, token); }
        FailureIsCounted(w, step.i);
      } else {
        if Proves(step) {
          ProvingCountsNothing(w, step);
        } else if IsPasswordless(step) {
          PasswordlessCountsNothing(w, step);
        } else if Finishes(step) {
          FinishingCountsNothing(w, step);
        } else if ChangesRows(step) {
          RowChangeCountsNothing(w, step);
        } else {
          OthersCountNothing(w, step);
        }
        NothingCounted(w, Do(w, step));
      }
    }
  }

  lemma {:induction false} RunCounts(steps: seq<Step>)
    ensures Counted(Run(steps))
  {
    if steps != [] {
      var before := steps[..|steps| - 1];
      RunCounts(before);
      RunKeepsInv(before);
      StepKeepsCounted(Run(before), steps[|steps| - 1]);
    }
  }

  lemma {:induction false} RunKeepsInv(steps: seq<Step>)
    ensures Inv(Run(steps)) && HeldOk(Run(steps)) && OnceNow(Run(steps))
  {
    if steps != [] {
      var w := Run(steps[..|steps| - 1]);
      RunKeepsInv(steps[..|steps| - 1]);
      StepKeepsHeld(w, steps[|steps| - 1]);
      StepKeepsInv(w, steps[|steps| - 1]);
      StepKeepsOnce(w, steps[|steps| - 1]);
    }
  }

  // ----- the promises -----

  ghost predicate ProvesSession(w: World, k: nat, t: Token)
    requires k < |w.proofs| && t in w.rows && w.rows[t].Session?
  {
    var p := w.proofs[k];
    && p.flight == w.rows[t].flight && p.flight < |w.flights|
    && w.flights[p.flight].admin == w.rows[t].admin
    && EvidenceFits(w.spent, w.flights[p.flight], p.evidence)
    && p.at <= w.rows[t].created
  }

  /** Every accepted session was preceded by a proof its own flight made for its admin, of the kind the flight needed. */
  lemma AcceptedSessionHasItsProof(steps: seq<Step>, t: Token)
    requires Accepts(Run(steps), t)
    ensures var w := Run(steps);
            && w.rows[t].created <= w.now
            && exists k | 0 <= k < |w.proofs| :: ProvesSession(w, k, t)
  {
    RunKeepsInv(steps);
    var w := Run(steps);
    assert RowFits(w, t, w.rows[t]);
    var k :| 0 <= k < |w.proofs| && w.proofs[k].flight == w.rows[t].flight && w.proofs[k].at <= w.rows[t].created;
    assert ProofFits(w, w.proofs[k]);
    assert ProvesSession(w, k, t);
  }

  predicate Share(w: World, p: Proof, q: Proof) {
    || p.flight == q.flight
    || (p.evidence.Spending? && q.evidence.Spending? && p.evidence.use < |w.spent| && q.evidence.use < |w.spent|
        && w.spent[p.evidence.use].credential.id == w.spent[q.evidence.use].credential.id)
  }

  lemma ProofsDoNotShare(w: World, k: nat, l: nat)
    requires ProofsOk(w) && OnceNow(w) && k < l < |w.proofs|
    ensures !Share(w, w.proofs[k], w.proofs[l])
  {
    assert Ordered(w.proofs[k], w.proofs[l]);
  }

  /**
    No two sessions share a proof, nor a recovery code or a ceremony the proofs were made with. An authenticator code
    is not spent: while it is valid it can be accepted in two proofs.
  */
  lemma SessionsShareNoProof(steps: seq<Step>, t: Token, t': Token, k: nat, k': nat)
    requires var w := Run(steps);
             t != t' && Accepts(w, t) && Accepts(w, t') && k < |w.proofs| && k' < |w.proofs|
             && ProvesSession(w, k, t) && ProvesSession(w, k', t')
    ensures !Share(Run(steps), Run(steps).proofs[k], Run(steps).proofs[k'])
  {
    RunKeepsInv(steps);
    var w := Run(steps);
    assert RowFits(w, t, w.rows[t]) && RowFits(w, t', w.rows[t']);
    if k < k' {
      ProofsDoNotShare(w, k, k');
    } else if k' < k {
      ProofsDoNotShare(w, k', k);
    }
  }

  /** Every session not minted from a passwordless assertion used up a pending row, which mints no other. */
  lemma PendingRowMintsOnce(steps: seq<Step>, t: Token, t': Token)
    requires var w := Run(steps);
             && t in w.minted && t' in w.minted && w.minted[t] < |w.flights| && w.minted[t'] < |w.flights|
             && w.flights[w.minted[t]].pending.Some?
             && w.flights[w.minted[t]].pending == w.flights[w.minted[t']].pending
    ensures t == t' && Run(steps).flights[Run(steps).minted[t]].pending.value !in Run(steps).rows
  {
    RunKeepsInv(steps);
    var w := Run(steps);
    var i, j := w.minted[t], w.minted[t'];
    assert MintedBy(w, t, i) && MintedBy(w, t', j) && FlightFits(w, i);
    OneConsumer(w, i, j);
  }

  lemma OneConsumer(w: World, i: nat, j: nat)
    requires FlightsOk(w) && i < |w.flights| && j < |w.flights| && SamePendingConsumed(w.flights[i], w.flights[j])
    ensures i == j
  {
  }

  /** A recovery code, a ceremony and a step-up stamp are each accepted at most once, the last two before they expire. */
  lemma CredentialsAreUsedOnce(steps: seq<Step>, k: nat, l: nat)
    requires k < |Run(steps).spent| && l < |Run(steps).spent|
    requires Run(steps).spent[k].credential.id == Run(steps).spent[l].credential.id
    ensures k == l && Run(steps).spent[k].credential !in Run(steps).open
    ensures var u := Run(steps).spent[k]; !u.credential.RecoveryCode? ==> u.at < u.credential.expires
  {
    RunKeepsInv(steps);
    var w := Run(steps);
    assert UseFits(w.spent[k], w.next);
  }

  /** A pending row survives at most four recorded failures, save while its deletion is under way or when that failed. */
  lemma PendingSurvivesFourFailures(steps: seq<Step>, t: Token)
    requires var w := Run(steps); t in w.rows && w.rows[t].Pending? && Failures(w, t) >= MAX_ATTEMPTS
    ensures BeingDropped(Run(steps), t)
  {
    RunKeepsInv(steps);
    RunCounts(steps);
  }
}
