/**
  Creating peers, retried and concurrently.

  A create may carry an idempotency key, its `request_id`. The handler looks for a row with that id, chooses what
  the client left out, inserts, and after losing a race on a unique index looks again. Each database statement is
  one step; any number of attempts interleave, and an attempt may stop anywhere. Rows are never deleted: a removed
  peer is a row with a status, and deleting a server is not part of this model.
*/
module PeerCreate {
  import opened CidrText
  import opened Option
  import opened PeerAddresses

  type ServerId = nat
  type Key = nat
  type RequestId = string
  type Host = n: nat | n < SPACE
  type Bits = n: nat | n <= 32

  /** A stored address keeps the mask it was written with; two that differ in the mask are different values. */
  datatype Inet = Inet(host: Host, bits: Bits)

  datatype Status = Active | Suspended | Removed

  /** `author` is the attempt that inserted the row. */
  datatype Peer = Peer(server: ServerId, key: Key, address: Inet, requestId: Option<RequestId>, status: Status, author: nat)

  datatype Create = Create(
    server: ServerId, key: Option<Key>, address: Option<Inet>, requestId: Option<RequestId>, sendEmail: bool)

  datatype Reply = Created(key: Key, address: Inet) | Exists(key: Key, host: Host) | Failed

  datatype Phase =
    | Checking
    | Choosing
    | Inserting(key: Key, address: Inet)
    | Conflicted
    | Inserted(key: Key, address: Inet)
    | Done(reply: Reply)

  datatype Attempt = Attempt(create: Create, phase: Phase)

  /** `emails` lists the attempts whose link to the new configuration was put into the mail queue. */
  datatype World = World(rows: seq<Peer>, attempts: seq<Attempt>, emails: seq<nat>)

  const FIRST := World([], [], [])

  // ----- the table -----

  /** What the unique indexes on the key, on (server, address) and on the request id forbid. */
  predicate Clash(p: Peer, q: Peer) {
    || p.key == q.key
    || (p.server == q.server && p.address == q.address)
    || (p.requestId.Some? && p.requestId == q.requestId)
  }

  predicate Violates(rows: seq<Peer>, p: Peer) {
    exists r | 0 <= r < |rows| :: Clash(rows[r], p)
  }

  function Find(rows: seq<Peer>, id: RequestId): (r: Option<nat>)
    ensures r.Some? ==> r.value < |rows| && rows[r.value].requestId == Some(id)
    ensures r.None? ==> forall k | 0 <= k < |rows| :: rows[k].requestId != Some(id)
  {
    if rows == [] then None
    else if rows[|rows| - 1].requestId == Some(id) then Some(|rows| - 1)
    else Find(rows[..|rows| - 1], id)
  }

  function HostTexts(rows: seq<Peer>, server: ServerId): (texts: seq<string>)
    ensures forall k | 0 <= k < |rows| && rows[k].server == server :: PrintAddress(rows[k].address.host) in texts
  {
    if rows == [] then []
    else
      var last := rows[|rows| - 1];
      HostTexts(rows[..|rows| - 1], server) + (if last.server == server then [PrintAddress(last.address.host)] else [])
  }

  /** The allocator's choice, as a number. */
  function Allocate(n: Network, used: seq<string>, from: nat): (r: Option<Host>)
    requires n.Valid() && 2 <= from <= 255 && AllUsed(n, used, from)
    ensures r.None? ==> IsAllocation(n, used, NoneFree)
    ensures r.Some? ==> IsAllocation(n, used, Address(PrintAddress(r.value))) && PrintAddress(r.value) !in used
    decreases 255 - from
  {
    CandidateIsPrinted(n, if from < 255 then from else 2);
    if from == 255 then None
    else if CandidateText(n, from) !in used then
      assert IsFirstFree(n, used, from);
      Some(Candidate(n, from))
    else Allocate(n, used, from + 1)
  }

  // ----- one statement at a time -----

  /** An insert may fail, and its answer may be lost although the row was committed. */
  datatype Outcome = Answered | AnswerLost | Broken

  /** Sending gives up silently without a mail host, without the user's address, and when the queue fails. */
  datatype Mail = Mail(hostSet: bool, userFound: bool, queued: bool)
  {
    predicate Goes() { hostSet && userFound && queued }
  }

  datatype Step =
    | Begin(create: Create)
    | Check(i: nat, ok: bool)
    | Choose(i: nat, generated: Key, network: Network, ok: bool)
    | Insert(i: nat, outcome: Outcome)
    | Lookup(i: nat, ok: bool)
    | Respond(i: nat, tokenOk: bool, mail: Mail)
    | SetStatus(row: nat, status: Status)

  function Become(w: World, i: nat, phase: Phase): World
    requires i < |w.attempts|
  {
    w.(attempts := w.attempts[i := w.attempts[i].(phase := phase)])
  }

  /** The reply to a replay; `otherwise` when no row has the id. */
  function Replay(rows: seq<Peer>, id: RequestId, otherwise: Phase): Phase {
    match Find(rows, id)
    case None => otherwise
    case Some(r) => Done(Exists(rows[r].key, rows[r].address.host))
  }

  function AfterCheck(w: World, create: Create, ok: bool): Phase {
    if create.requestId.None? then Choosing
    else if !ok then Done(Failed)
    else Replay(w.rows, create.requestId.value, Choosing)
  }

  function AfterChoose(w: World, create: Create, generated: Key, network: Network, ok: bool): Phase
    requires network.Valid()
  {
    var key := if create.key.Some? then create.key.value else generated;
    if create.address.Some? then Inserting(key, create.address.value)
    else if !ok then Done(Failed)
    else
      match Allocate(network, HostTexts(w.rows, create.server), 2)
      case None => Done(Failed)
      case Some(host) => Inserting(key, Inet(host, 32))
  }

  function NewRow(a: Attempt, i: nat): Peer
    requires a.phase.Inserting?
  {
    Peer(a.create.server, a.phase.key, a.phase.address, a.create.requestId, Active, i)
  }

  function DoInsert(w: World, i: nat, outcome: Outcome): World
    requires i < |w.attempts| && w.attempts[i].phase.Inserting?
  {
    var a := w.attempts[i];
    if outcome.Broken? then Become(w, i, Done(Failed))
    else if Violates(w.rows, NewRow(a, i)) then
      Become(w, i, if outcome.Answered? && a.create.requestId.Some? then Conflicted else Done(Failed))
    else
      Become(w.(rows := w.rows + [NewRow(a, i)]), i,
             if outcome.Answered? then Inserted(a.phase.key, a.phase.address) else Done(Failed))
  }

  predicate WantsLink(create: Create) { create.sendEmail && create.key.None? }

  /** There is a link only for a key made here, and none without its stored token; whether it is mailed does not change the answer. */
  function DoRespond(w: World, i: nat, tokenOk: bool, mail: Mail): World
    requires i < |w.attempts| && w.attempts[i].phase.Inserted?
  {
    var a := w.attempts[i];
    var created := Done(Created(a.phase.key, a.phase.address));
    if !WantsLink(a.create) then Become(w, i, created)
    else if !tokenOk then Become(w, i, Done(Failed))
    else Become(if mail.Goes() then w.(emails := w.emails + [i]) else w, i, created)
  }

  predicate Enabled(w: World, step: Step) {
    match step
    case Begin(_) => true
    case Check(i, _) => i < |w.attempts| && w.attempts[i].phase.Checking?
    case Choose(i, _, network, _) => i < |w.attempts| && w.attempts[i].phase.Choosing? && network.Valid()
    case Insert(i, _) => i < |w.attempts| && w.attempts[i].phase.Inserting?
    case Lookup(i, _) => i < |w.attempts| && w.attempts[i].phase.Conflicted? && w.attempts[i].create.requestId.Some?
    case Respond(i, _, _) => i < |w.attempts| && w.attempts[i].phase.Inserted?
    case SetStatus(row, _) => row < |w.rows|
  }

  function Do(w: World, step: Step): World {
    if !Enabled(w, step) then w
    else
      match step
      case Begin(create) => w.(attempts := w.attempts + [Attempt(create, Checking)])
      case Check(i, ok) => Become(w, i, AfterCheck(w, w.attempts[i].create, ok))
      case Choose(i, generated, network, ok) =>
        Become(w, i, AfterChoose(w, w.attempts[i].create, generated, network, ok))
      case Insert(i, outcome) => DoInsert(w, i, outcome)
      case Lookup(i, ok) =>
        Become(w, i, if ok then Replay(w.rows, w.attempts[i].create.requestId.value, Done(Failed)) else Done(Failed))
      case Respond(i, tokenOk, mail) => DoRespond(w, i, tokenOk, mail)
      case SetStatus(row, status) => w.(rows := w.rows[row := w.rows[row].(status := status)])
  }

  function Run(steps: seq<Step>): World {
    if steps == [] then FIRST else Do(Run(steps[..|steps| - 1]), steps[|steps| - 1])
  }

  lemma OneMoreStep(steps: seq<Step>, n: nat)
    requires n < |steps|
    ensures Run(steps[..n + 1]) == Do(Run(steps[..n]), steps[n])
  {
    assert steps[..n + 1][..n] == steps[..n];
  }

  // ----- what every step keeps -----

  ghost predicate Unclashing(rows: seq<Peer>) {
    forall r, s | 0 <= r < s < |rows| :: !Clash(rows[r], rows[s]) && rows[r].author != rows[s].author
  }

  /** The row is its attempt's, and the attempt is past its insert. */
  predicate RowFits(p: Peer, attempts: seq<Attempt>) {
    && p.author < |attempts|
    && p.server == attempts[p.author].create.server
    && p.requestId == attempts[p.author].create.requestId
    && (p.address.bits == 32 || attempts[p.author].create.address == Some(p.address))
    && match attempts[p.author].phase
       case Inserted(key, address) => p.key == key && p.address == address
       case Done(Created(key, address)) => p.key == key && p.address == address
       case Done(Failed) => true
       case _ => false
  }

  ghost predicate OwnsRow(rows: seq<Peer>, i: nat, key: Key, address: Inet) {
    exists r | 0 <= r < |rows| :: rows[r].author == i && rows[r].key == key && rows[r].address == address
  }

  ghost predicate HasRow(rows: seq<Peer>, id: RequestId, key: Key, host: Host) {
    exists r | 0 <= r < |rows| :: rows[r].requestId == Some(id) && rows[r].key == key && rows[r].address.host == host
  }

  ghost predicate AttemptFits(rows: seq<Peer>, i: nat, a: Attempt) {
    match a.phase
    case Inserting(_, address) => address.bits == 32 || a.create.address == Some(address)
    case Conflicted => a.create.requestId.Some?
    case Inserted(key, address) => OwnsRow(rows, i, key, address)
    case Done(Created(key, address)) => OwnsRow(rows, i, key, address)
    case Done(Exists(key, host)) => a.create.requestId.Some? && HasRow(rows, a.create.requestId.value, key, host)
    case _ => true
  }

  ghost predicate EmailsFit(w: World) {
    && (forall e | 0 <= e < |w.emails| :: w.emails[e] < |w.attempts| && IsCreated(w.attempts[w.emails[e]]))
    && (forall e, f | 0 <= e < f < |w.emails| :: w.emails[e] != w.emails[f])
  }

  predicate IsCreated(a: Attempt) { a.phase.Done? && a.phase.reply.Created? }

  ghost predicate Inv(w: World) {
    && Unclashing(w.rows)
    && (forall r | 0 <= r < |w.rows| :: RowFits(w.rows[r], w.attempts))
    && (forall i | 0 <= i < |w.attempts| :: AttemptFits(w.rows, i, w.attempts[i]))
    && EmailsFit(w)
  }

  lemma RowsGrow(rows: seq<Peer>, p: Peer, i: nat, a: Attempt)
    requires AttemptFits(rows, i, a)
    ensures AttemptFits(rows + [p], i, a)
  {
    var more := rows + [p];
    assert forall r | 0 <= r < |rows| :: more[r] == rows[r];
    match a.phase
    case Inserted(key, address) => assert OwnsRow(more, i, key, address);
    case Done(Created(key, address)) => assert OwnsRow(more, i, key, address);
    case Done(Exists(key, host)) => assert HasRow(more, a.create.requestId.value, key, host);
    case _ =>
  }

  /** A step that only moves an attempt that has not inserted yet, or that answers for one that has. */
  lemma BecomeKeepsInv(w: World, i: nat, phase: Phase)
    requires Inv(w) && i < |w.attempts|
    requires AttemptFits(w.rows, i, w.attempts[i].(phase := phase))
    requires
      || w.attempts[i].phase.Checking? || w.attempts[i].phase.Choosing?
      || w.attempts[i].phase.Inserting? || w.attempts[i].phase.Conflicted?
      || (w.attempts[i].phase.Inserted? && phase in {Done(Failed), Done(Created(w.attempts[i].phase.key, w.attempts[i].phase.address))})
    ensures Inv(Become(w, i, phase))
  {
    var w' := Become(w, i, phase);
    forall r | 0 <= r < |w'.rows| ensures RowFits(w'.rows[r], w'.attempts) {
      assert RowFits(w.rows[r], w.attempts);
    }
  }

  lemma InsertKeepsInv(w: World, i: nat, outcome: Outcome)
    requires Inv(w) && i < |w.attempts| && w.attempts[i].phase.Inserting?
    ensures Inv(DoInsert(w, i, outcome))
  {
    var a := w.attempts[i];
    var p := NewRow(a, i);
    assert AttemptFits(w.rows, i, a);
    if outcome.Broken? || Violates(w.rows, p) {
      BecomeKeepsInv(w, i, if !outcome.Broken? && outcome.Answered? && a.create.requestId.Some? then Conflicted else Done(Failed));
    } else {
      var w' := DoInsert(w, i, outcome);
      InsertedRowFits(w, i, outcome);
      assert w'.rows[|w.rows|] == p;
      forall j | 0 <= j < |w'.attempts| ensures AttemptFits(w'.rows, j, w'.attempts[j]) {
        if j != i {
          RowsGrow(w.rows, p, j, w.attempts[j]);
        } else if outcome.Answered? {
          assert OwnsRow(w'.rows, i, p.key, p.address);
        }
      }
    }
  }

  lemma InsertedRowFits(w: World, i: nat, outcome: Outcome)
    requires Inv(w) && i < |w.attempts| && w.attempts[i].phase.Inserting?
    requires !outcome.Broken? && !Violates(w.rows, NewRow(w.attempts[i], i))
    ensures var w' := DoInsert(w, i, outcome);
            Unclashing(w'.rows) && forall r | 0 <= r < |w'.rows| :: RowFits(w'.rows[r], w'.attempts)
  {
    var w' := DoInsert(w, i, outcome);
    assert AttemptFits(w.rows, i, w.attempts[i]);
    forall r | 0 <= r < |w.rows| ensures RowFits(w'.rows[r], w'.attempts) && w.rows[r].author != i {
      assert RowFits(w.rows[r], w.attempts);
    }
  }

  lemma RespondKeepsInv(w: World, i: nat, tokenOk: bool, mail: Mail)
    requires Inv(w) && i < |w.attempts| && w.attempts[i].phase.Inserted?
    ensures Inv(DoRespond(w, i, tokenOk, mail))
  {
    var a := w.attempts[i];
    var created := Done(Created(a.phase.key, a.phase.address));
    assert AttemptFits(w.rows, i, a);
    BecomeKeepsInv(w, i, created);
    BecomeKeepsInv(w, i, Done(Failed));
    assert forall e | 0 <= e < |w.emails| :: w.emails[e] != i;
  }

  lemma ReplayFits(rows: seq<Peer>, i: nat, create: Create, otherwise: Phase)
    requires create.requestId.Some? && otherwise in {Choosing, Done(Failed)}
    ensures AttemptFits(rows, i, Attempt(create, Replay(rows, create.requestId.value, otherwise)))
  {
  }

  lemma StatusKeepsInv(w: World, row: nat, status: Status)
    requires Inv(w) && row < |w.rows|
    ensures Inv(Do(w, SetStatus(row, status)))
  {
    var w' := Do(w, SetStatus(row, status));
    assert forall r | 0 <= r < |w.rows| :: w'.rows[r] == w.rows[r].(status := w'.rows[r].status);
    forall i | 0 <= i < |w.attempts| ensures AttemptFits(w'.rows, i, w.attempts[i]) {
      assert AttemptFits(w.rows, i, w.attempts[i]);
      match w.attempts[i].phase
      case Inserted(key, address) =>
        var r :| 0 <= r < |w.rows| && w.rows[r].author == i && w.rows[r].key == key && w.rows[r].address == address;
        assert w'.rows[r].author == i;
      case Done(Created(key, address)) =>
        var r :| 0 <= r < |w.rows| && w.rows[r].author == i && w.rows[r].key == key && w.rows[r].address == address;
        assert w'.rows[r].author == i;
      case Done(Exists(key, host)) =>
        var id := w.attempts[i].create.requestId;
        var r :| 0 <= r < |w.rows| && w.rows[r].requestId == id && w.rows[r].key == key && w.rows[r].address.host == host;
        assert w'.rows[r].requestId == id;
      case _ =>
    }
  }

  lemma StepKeepsInv(w: World, step: Step)
    requires Inv(w)
    ensures Inv(Do(w, step))
  {
    if Enabled(w, step) {
      match step
      case Begin(create) => assert forall r | 0 <= r < |w.rows| :: RowFits(w.rows[r], w.attempts);
      case Check(i, ok) =>
        var create := w.attempts[i].create;
        if create.requestId.Some? { ReplayFits(w.rows, i, create, Choosing); }
        BecomeKeepsInv(w, i, AfterCheck(w, create, ok));
      case Choose(i, generated, network, ok) =>
        BecomeKeepsInv(w, i, AfterChoose(w, w.attempts[i].create, generated, network, ok));
      case Insert(i, outcome) => InsertKeepsInv(w, i, outcome);
      case Lookup(i, ok) =>
        var create := w.attempts[i].create;
        ReplayFits(w.rows, i, create, Done(Failed));
        BecomeKeepsInv(w, i, if ok then Replay(w.rows, create.requestId.value, Done(Failed)) else Done(Failed));
      case Respond(i, tokenOk, mail) => RespondKeepsInv(w, i, tokenOk, mail);
      case SetStatus(row, status) => StatusKeepsInv(w, row, status);
    }
  }

  lemma {:induction false} RunKeepsInv(steps: seq<Step>)
    ensures Inv(Run(steps))
  {
    if steps != [] {
      RunKeepsInv(steps[..|steps| - 1]);
      StepKeepsInv(Run(steps[..|steps| - 1]), steps[|steps| - 1]);
    }
  }

  // ----- the promises -----

  lemma ClashMeansSame(rows: seq<Peer>, r: nat, s: nat)
    requires Unclashing(rows) && r < |rows| && s < |rows| && Clash(rows[r], rows[s])
    ensures r == s
  {
  }

  /** Whatever interleaves, a request id is in at most one row. */
  lemma OneRowPerRequest(steps: seq<Step>, r: nat, s: nat)
    requires var rows := Run(steps).rows;
             r < |rows| && s < |rows| && rows[r].requestId.Some? && rows[r].requestId == rows[s].requestId
    ensures r == s
  {
    RunKeepsInv(steps);
    var rows := Run(steps).rows;
    ClashMeansSame(rows, r, s);
  }

  /** At most one attempt with an id is answered "created"; only such an attempt sends the email, and only once. */
  lemma OneCreatedPerRequest(steps: seq<Step>, i: nat, j: nat)
    requires var w := Run(steps);
             && i < |w.attempts| && j < |w.attempts|
             && IsCreated(w.attempts[i]) && IsCreated(w.attempts[j])
             && w.attempts[i].create.requestId.Some? && w.attempts[i].create.requestId == w.attempts[j].create.requestId
    ensures i == j
  {
    RunKeepsInv(steps);
    var w := Run(steps);
    assert AttemptFits(w.rows, i, w.attempts[i]) && AttemptFits(w.rows, j, w.attempts[j]);
    var r :| 0 <= r < |w.rows| && w.rows[r].author == i;
    var s :| 0 <= s < |w.rows| && w.rows[s].author == j;
    assert RowFits(w.rows[r], w.attempts) && RowFits(w.rows[s], w.attempts);
    OneRowPerRequest(steps, r, s);
  }

  lemma OneEmailPerRequest(steps: seq<Step>, e: nat, f: nat)
    requires var w := Run(steps);
             && e < |w.emails| && f < |w.emails| && w.emails[e] < |w.attempts| && w.emails[f] < |w.attempts|
             && w.attempts[w.emails[e]].create.requestId.Some?
             && w.attempts[w.emails[e]].create.requestId == w.attempts[w.emails[f]].create.requestId
    ensures e == f
  {
    RunKeepsInv(steps);
    var w := Run(steps);
    OneCreatedPerRequest(steps, w.emails[e], w.emails[f]);
  }

  /** The step answers attempt `i`, whose client wants a link, and the mail goes out. */
  ghost predicate MailsNow(w: World, step: Step, i: nat) {
    && step.Respond? && step.i == i && Enabled(w, step)
    && WantsLink(w.attempts[i].create) && step.tokenOk && step.mail.Goes()
  }

  ghost predicate SomeStepMails(steps: seq<Step>, i: nat) {
    exists k | 0 <= k < |steps| :: MailsNow(Run(steps[..k]), steps[k], i)
  }

  lemma StepMails(w: World, step: Step, i: nat)
    ensures i in Do(w, step).emails <==> i in w.emails || MailsNow(w, step, i)
  {
  }

  lemma OneMoreMail(steps: seq<Step>, step: Step, i: nat)
    ensures SomeStepMails(steps + [step], i) <==> SomeStepMails(steps, i) || MailsNow(Run(steps), step, i)
  {
    var all := steps + [step];
    assert all[..|steps|] == steps && all[|steps|] == step;
    if k :| 0 <= k < |steps| && MailsNow(Run(steps[..k]), steps[k], i) {
      assert all[..k] == steps[..k] && all[k] == steps[k];
    }
    if k :| 0 <= k < |steps| && MailsNow(Run(all[..k]), all[k], i) {
      assert all[..k] == steps[..k] && all[k] == steps[k];
    }
  }

  lemma {:induction false} MailedExactly(steps: seq<Step>, i: nat)
    ensures i in Run(steps).emails <==> SomeStepMails(steps, i)
  {
    if steps != [] {
      var before, step := steps[..|steps| - 1], steps[|steps| - 1];
      assert steps == before + [step];
      MailedExactly(before, i);
      OneMoreMail(before, step, i);
      StepMails(Run(before), step, i);
    }
  }

  /** Only an attempt answered "created" has its email. */
  lemma EmailsGoWithCreated(steps: seq<Step>, e: nat)
    requires e < |Run(steps).emails|
    ensures var w := Run(steps); w.emails[e] < |w.attempts| && IsCreated(w.attempts[w.emails[e]])
  {
    RunKeepsInv(steps);
  }

  /**
    An answer "created" has its email exactly when the client asked for a link to a key made here and, as the answer
    was made, a mail host was set, the user was found and the queue took the mail.
  */
  lemma CreatedHasEmailExactly(steps: seq<Step>, k: nat)
    requires k < |steps| && steps[k].Respond? && Enabled(Run(steps[..k]), steps[k])
    requires IsCreated(Do(Run(steps[..k]), steps[k]).attempts[steps[k].i])
    ensures steps[k].i in Run(steps).emails <==>
              WantsLink(Run(steps[..k]).attempts[steps[k].i].create) && steps[k].mail.Goes()
  {
    var i, w := steps[k].i, Run(steps[..k]);
    MailedExactly(steps, i);
    if MailsNow(w, steps[k], i) {
      assert SomeStepMails(steps, i);
    }
    if j :| 0 <= j < |steps| && MailsNow(Run(steps[..j]), steps[j], i) {
      AnsweredOnce(steps, j, k);
      AnsweredOnce(steps, k, j);
    }
  }

  /** An attempt is answered once. */
  lemma AnsweredOnce(steps: seq<Step>, j: nat, k: nat)
    requires j < |steps| && k < |steps| && steps[j].Respond? && steps[k].Respond? && steps[j].i == steps[k].i
    requires Enabled(Run(steps[..j]), steps[j]) && Enabled(Run(steps[..k]), steps[k])
    ensures j >= k
  {
    if j < k {
      OneMoreStep(steps, j);
      assert steps[..j + 1] + steps[j + 1..k] == steps[..k];
      DoneStays(steps[..j + 1], steps[j + 1..k], steps[j].i);
    }
  }

  lemma {:induction false} DoneStays(steps: seq<Step>, more: seq<Step>, i: nat)
    requires i < |Run(steps).attempts| && Run(steps).attempts[i].phase.Done?
    ensures i < |Run(steps + more).attempts| && Run(steps + more).attempts[i] == Run(steps).attempts[i]
  {
    if more == [] {
      assert steps + more == steps;
    } else {
      var n := |more| - 1;
      DoneStays(steps, more[..n], i);
      assert (steps + more)[..|steps + more| - 1] == steps + more[..n];
    }
  }

  ghost predicate Names(reply: Reply, p: Peer) {
    match reply
    case Created(key, address) => p.key == key && p.address == address
    case Exists(key, host) => p.key == key && p.address.host == host
    case Failed => false
  }

  /** Every success names the key and the address of the one row with the attempt's id. */
  lemma SuccessNamesTheRow(steps: seq<Step>, i: nat)
    requires var w := Run(steps);
             i < |w.attempts| && w.attempts[i].phase.Done? && !w.attempts[i].phase.reply.Failed?
    ensures var w := Run(steps);
            exists r | 0 <= r < |w.rows| ::
              Names(w.attempts[i].phase.reply, w.rows[r]) && w.rows[r].requestId == w.attempts[i].create.requestId
  {
    RunKeepsInv(steps);
    var w := Run(steps);
    var a := w.attempts[i];
    assert AttemptFits(w.rows, i, a);
    if a.phase.reply.Created? {
      var r :| 0 <= r < |w.rows| && w.rows[r].author == i && w.rows[r].key == a.phase.reply.key && w.rows[r].address == a.phase.reply.address;
      assert RowFits(w.rows[r], w.attempts);
      assert Names(a.phase.reply, w.rows[r]);
    } else {
      var r :| 0 <= r < |w.rows| && w.rows[r].requestId == a.create.requestId && w.rows[r].key == a.phase.reply.key
        && w.rows[r].address.host == a.phase.reply.host;
      assert Names(a.phase.reply, w.rows[r]);
    }
  }

  function HostOf(reply: Reply): Host
    requires !reply.Failed?
  {
    if reply.Created? then reply.address.host else reply.host
  }

  /** So all successes for one id agree. */
  lemma SuccessesAgree(steps: seq<Step>, i: nat, j: nat)
    requires var w := Run(steps);
             && i < |w.attempts| && w.attempts[i].phase.Done? && !w.attempts[i].phase.reply.Failed?
             && j < |w.attempts| && w.attempts[j].phase.Done? && !w.attempts[j].phase.reply.Failed?
             && w.attempts[i].create.requestId.Some? && w.attempts[i].create.requestId == w.attempts[j].create.requestId
    ensures var w := Run(steps);
            && w.attempts[i].phase.reply.key == w.attempts[j].phase.reply.key
            && HostOf(w.attempts[i].phase.reply) == HostOf(w.attempts[j].phase.reply)
  {
    var w := Run(steps);
    SuccessNamesTheRow(steps, i);
    SuccessNamesTheRow(steps, j);
    var r :| 0 <= r < |w.rows| && Names(w.attempts[i].phase.reply, w.rows[r]) && w.rows[r].requestId == w.attempts[i].create.requestId;
    var s :| 0 <= s < |w.rows| && Names(w.attempts[j].phase.reply, w.rows[s]) && w.rows[s].requestId == w.attempts[j].create.requestId;
    OneRowPerRequest(steps, r, s);
  }

  /** Rows stay: their number never falls, and all but the status of a row is fixed once it is inserted. */
  lemma {:induction false} RowsStay(steps: seq<Step>, more: seq<Step>, r: nat)
    requires r < |Run(steps).rows|
    ensures r < |Run(steps + more).rows|
    ensures Run(steps + more).rows[r] == Run(steps).rows[r].(status := Run(steps + more).rows[r].status)
  {
    if more == [] {
      assert steps + more == steps;
    } else {
      var n := |more| - 1;
      RowsStay(steps, more[..n], r);
      assert (steps + more)[..|steps + more| - 1] == steps + more[..n];
    }
  }

  /** Once a row with the id is there, a retry whose database calls succeed gets it, whatever happened in between. */
  lemma RetryFindsTheRow(steps: seq<Step>, more: seq<Step>, r: nat, i: nat, step: Step)
    requires r < |Run(steps).rows| && Run(steps).rows[r].requestId.Some?
    requires step == Check(i, true) || step == Lookup(i, true)
    requires Enabled(Run(steps + more), step)
    requires Run(steps + more).attempts[i].create.requestId == Run(steps).rows[r].requestId
    ensures var p := Run(steps).rows[r];
            Run(steps + more + [step]).attempts[i].phase == Done(Exists(p.key, p.address.host))
  {
    var all := steps + more;
    var w := Run(all);
    assert (all + [step])[..|all + [step]| - 1] == all;
    RowsStay(steps, more, r);
    var found := Find(w.rows, w.attempts[i].create.requestId.value);
    OneRowPerRequest(all, r, found.value);
  }

  // ----- addresses -----

  /** Two peers of a server never have the same stored address; they share a host only under different masks. */
  lemma SharedHostsDifferInMask(steps: seq<Step>, r: nat, s: nat)
    requires var rows := Run(steps).rows;
             r < s < |rows| && rows[r].server == rows[s].server && rows[r].address.host == rows[s].address.host
    ensures var w := Run(steps);
            && w.rows[r].address.bits != w.rows[s].address.bits
            && exists q | q in {r, s} :: w.rows[q].address.bits != 32 && w.rows[q].author < |w.attempts|
                 && w.attempts[w.rows[q].author].create.address == Some(w.rows[q].address)
  {
    RunKeepsInv(steps);
    var w := Run(steps);
    assert !Clash(w.rows[r], w.rows[s]);
    assert RowFits(w.rows[r], w.attempts) && RowFits(w.rows[s], w.attempts);
    var q := if w.rows[r].address.bits != 32 then r else s;
    assert q in {r, s} && w.rows[q].address.bits != 32;
  }

  ghost predicate OnlyFullMasks(steps: seq<Step>) {
    forall k | 0 <= k < |steps| && steps[k].Begin? && steps[k].create.address.Some? :: steps[k].create.address.value.bits == 32
  }

  lemma {:induction false} CreatesComeFromSteps(steps: seq<Step>, i: nat)
    requires i < |Run(steps).attempts|
    ensures exists k | 0 <= k < |steps| :: steps[k] == Begin(Run(steps).attempts[i].create)
  {
    var n := |steps| - 1;
    var w := Run(steps[..n]);
    if i < |w.attempts| {
      CreatesComeFromSteps(steps[..n], i);
      assert w.attempts[i].create == Run(steps).attempts[i].create;
      var k :| 0 <= k < n && steps[..n][k] == Begin(w.attempts[i].create);
      assert steps[k] == Begin(w.attempts[i].create);
    } else {
      assert steps[n] == Begin(Run(steps).attempts[i].create);
    }
  }

  lemma GivenMasksAreFull(steps: seq<Step>, i: nat)
    requires OnlyFullMasks(steps) && i < |Run(steps).attempts|
    ensures var given := Run(steps).attempts[i].create.address; given.Some? ==> given.value.bits == 32
  {
    CreatesComeFromSteps(steps, i);
  }

  /**
    With no address given under a shorter mask, over all allocations, suspensions, resumes and removals no two peers
    of a server share an address.
  */
  lemma PeersNeverShareAnAddress(steps: seq<Step>, r: nat, s: nat)
    requires OnlyFullMasks(steps)
    requires var rows := Run(steps).rows; r < s < |rows| && rows[r].server == rows[s].server
    ensures Run(steps).rows[r].address.host != Run(steps).rows[s].address.host
  {
    RunKeepsInv(steps);
    var w := Run(steps);
    assert RowFits(w.rows[r], w.attempts) && RowFits(w.rows[s], w.attempts);
    GivenMasksAreFull(steps, w.rows[r].author);
    GivenMasksAreFull(steps, w.rows[s].author);
    assert !Clash(w.rows[r], w.rows[s]);
  }

  /** An allocated address is free when it is chosen: inserted at once, it conflicts with no row of its server. */
  lemma ChosenAddressIsFree(w: World, i: nat, generated: Key, network: Network, r: nat)
    requires Enabled(w, Choose(i, generated, network, true)) && w.attempts[i].create.address.None?
    requires r < |w.rows| && w.rows[r].server == w.attempts[i].create.server
    ensures var phase := Do(w, Choose(i, generated, network, true)).attempts[i].phase;
            phase.Inserting? ==> phase.address.bits == 32 && phase.address.host != w.rows[r].address.host
  {
  }

  function Uninterrupted(i: nat, create: Create, network: Network): seq<Step> {
    [Begin(create), Check(i, true), Choose(i, 0, network, true), Insert(i, Answered)]
  }

  lemma GivenCreateInserts(w: World, create: Create, network: Network)
    requires network.Valid()
    requires create.key.Some? && create.address.Some? && create.requestId.None?
    requires var p := Peer(create.server, create.key.value, create.address.value, None, Active, |w.attempts|); !Violates(w.rows, p)
    ensures var steps := Uninterrupted(|w.attempts|, create, network);
            Do(Do(Do(Do(w, steps[0]), steps[1]), steps[2]), steps[3]) ==
              w.(rows := w.rows + [Peer(create.server, create.key.value, create.address.value, None, Active, |w.attempts|)],
                 attempts := w.attempts + [Attempt(create, Inserted(create.key.value, create.address.value))])
  {
    var i := |w.attempts|;
    var w1 := w.(attempts := w.attempts + [Attempt(create, Checking)]);
    assert Become(w1, i, Choosing).attempts == w.attempts + [Attempt(create, Choosing)];
    var w2 := w.(attempts := w.attempts + [Attempt(create, Choosing)]);
    var inserting := Inserting(create.key.value, create.address.value);
    assert Become(w2, i, inserting).attempts == w.attempts + [Attempt(create, inserting)];
  }

  lemma FourMoreSteps(steps: seq<Step>, a: Step, b: Step, c: Step, d: Step)
    ensures Run(steps + [a, b, c, d]) == Do(Do(Do(Do(Run(steps), a), b), c), d)
  {
    var all := steps + [a, b, c, d];
    var n := |steps|;
    assert all[..n] == steps && all[..n + 4] == all;
    OneMoreStep(all, n);
    OneMoreStep(all, n + 1);
    OneMoreStep(all, n + 2);
    OneMoreStep(all, n + 3);
  }

  /** The same address under two masks is two values to the unique index, and both peers get it. */
  lemma MaskedAddressExample(host: Host, bits: Bits)
    requires bits != 32
    ensures exists steps: seq<Step> :: Shares(Run(steps).rows, 0, 1) && Run(steps).rows[0].address.host == host
  {
    var plain := Create(0, Some(0), Some(Inet(host, 32)), None, false);
    var masked := Create(0, Some(1), Some(Inet(host, bits)), None, false);
    var n := Masked(host, 32);
    var first := Uninterrupted(0, plain, n);
    FourMoreSteps([], first[0], first[1], first[2], first[3]);
    GivenCreateInserts(FIRST, plain, n);
    assert [] + [first[0], first[1], first[2], first[3]] == first;
    SecondCreateShares(first, masked, n);
  }

  /** A second create that gives the host of the only peer under another mask succeeds. */
  lemma SecondCreateShares(first: seq<Step>, masked: Create, n: Network)
    requires n.Valid() && masked.key == Some(1) && masked.address.Some? && masked.requestId.None?
    requires var w := Run(first);
             && |w.attempts| == 1 && |w.rows| == 1 && w.rows[0].key == 0 && w.rows[0].server == masked.server
             && w.rows[0].address.host == masked.address.value.host && w.rows[0].address != masked.address.value
    ensures var w := Run(first + Uninterrupted(1, masked, n));
            Shares(w.rows, 0, 1) && w.rows[0] == Run(first).rows[0]
  {
    var second := Uninterrupted(1, masked, n);
    FourMoreSteps(first, second[0], second[1], second[2], second[3]);
    GivenCreateInserts(Run(first), masked, n);
    assert [second[0], second[1], second[2], second[3]] == second;
  }

  predicate Shares(rows: seq<Peer>, r: nat, s: nat) {
    r < s < |rows| && rows[r].server == rows[s].server && rows[r].address.host == rows[s].address.host
  }

  /** Clients write addresses under the admitted masks only. */
  ghost predicate OnlyMasks(steps: seq<Step>, masks: set<Bits>) {
    forall k | 0 <= k < |steps| && steps[k].Begin? && steps[k].create.address.Some? ::
      steps[k].create.address.value.bits in masks
  }

  ghost predicate NeverShare(masks: set<Bits>) {
    forall steps: seq<Step>, r: nat, s: nat | OnlyMasks(steps, masks) :: !Shares(Run(steps).rows, r, s)
  }

  /** The first peer, given no address, gets the first candidate. */
  lemma FirstAllocation(n: Network)
    requires n.Valid()
    ensures Allocate(n, HostTexts([], 0), 2) == Some(Candidate(n, 2))
  {
  }

  lemma AllocatedCreateInserts(create: Create, n: Network)
    requires n.Valid() && create == Create(0, Some(0), None, None, false)
    ensures var steps := Uninterrupted(0, create, n);
            var address := Inet(Candidate(n, 2), 32);
            Do(Do(Do(Do(FIRST, steps[0]), steps[1]), steps[2]), steps[3]) ==
              World([Peer(0, 0, address, None, Active, 0)], [Attempt(create, Inserted(0, address))], [])
  {
    FirstAllocation(n);
    var w1 := World([], [Attempt(create, Checking)], []);
    assert Become(w1, 0, Choosing).attempts == [Attempt(create, Choosing)];
    var w2 := World([], [Attempt(create, Choosing)], []);
    var inserting := Inserting(0, Inet(Candidate(n, 2), 32));
    assert AfterChoose(w2, create, 0, n, true) == inserting;
    assert Become(w2, 0, inserting).attempts == [Attempt(create, inserting)];
  }

  /** An address written under a shorter mask meets an allocated one. */
  lemma ShorterMaskShares(bits: Bits, n: Network)
    requires bits != 32 && n.Valid()
    ensures exists steps: seq<Step> :: OnlyMasks(steps, {bits}) && Shares(Run(steps).rows, 0, 1)
  {
    var plain := Create(0, Some(0), None, None, false);
    var masked := Create(0, Some(1), Some(Inet(Candidate(n, 2), bits)), None, false);
    var first := Uninterrupted(0, plain, n);
    FourMoreSteps([], first[0], first[1], first[2], first[3]);
    AllocatedCreateInserts(plain, n);
    assert [] + [first[0], first[1], first[2], first[3]] == first;
    SecondCreateShares(first, masked, n);
    assert OnlyMasks(first + Uninterrupted(1, masked, n), {bits});
  }

  /** Over all runs no two peers of a server share an address exactly when no mask but the full one is admitted. */
  lemma NeverShareExactly(masks: set<Bits>)
    ensures NeverShare(masks) <==> forall bits | bits in masks :: bits == 32
  {
    if bits :| bits in masks && bits != 32 {
      ShorterMaskShares(bits, Masked(0, 32));
      var steps :| OnlyMasks(steps, {bits}) && Shares(Run(steps).rows, 0, 1);
      assert OnlyMasks(steps, masks);
      assert !NeverShare(masks);
    } else {
      forall steps: seq<Step>, r: nat, s: nat | OnlyMasks(steps, masks) ensures !Shares(Run(steps).rows, r, s) {
        if r < s < |Run(steps).rows| && Run(steps).rows[r].server == Run(steps).rows[s].server {
          assert OnlyFullMasks(steps);
          PeersNeverShareAnAddress(steps, r, s);
        }
      }
    }
  }
}
