/**
  What a create is answered, and why: every answer over a run, traced to the statement it comes from.
*/
module PeerAnswers {
  import opened CidrText
  import opened Option
  import opened PeerAddresses
  import opened PeerCreate

  // ----- the states of a run -----

  predicate Next(trace: seq<World>, steps: seq<Step>, n: nat) {
    n < |steps| && n + 1 < |trace| && trace[n + 1] == Do(trace[n], steps[n])
  }

  /** `trace` holds the state before every step and the last one. */
  ghost predicate IsTrace(trace: seq<World>, steps: seq<Step>) {
    |trace| == |steps| + 1 && trace[0] == FIRST && forall n | 0 <= n < |steps| :: Next(trace, steps, n)
  }

  lemma {:induction false} TraceAt(trace: seq<World>, steps: seq<Step>, n: nat)
    requires IsTrace(trace, steps) && n <= |steps|
    ensures trace[n] == Run(steps[..n])
  {
    if n > 0 {
      TraceAt(trace, steps, n - 1);
      assert Next(trace, steps, n - 1);
      assert steps[..n][..n - 1] == steps[..n - 1];
    }
  }

  lemma TraceStep(trace: seq<World>, steps: seq<Step>, n: nat)
    requires IsTrace(trace, steps) && n < |steps|
    ensures Inv(trace[n]) && trace[n + 1] == Do(trace[n], steps[n])
  {
    TraceAt(trace, steps, n);
    RunKeepsInv(steps[..n]);
    assert Next(trace, steps, n);
  }

  // ----- addresses in use -----

  ghost predicate InUse(rows: seq<Peer>, server: ServerId, host: nat) {
    exists r | 0 <= r < |rows| :: rows[r].server == server && rows[r].address.host == host
  }

  lemma {:induction false} TextsAreInUse(rows: seq<Peer>, server: ServerId, text: string)
    ensures text in HostTexts(rows, server) <==>
              exists r | 0 <= r < |rows| :: rows[r].server == server && PrintAddress(rows[r].address.host) == text
  {
    if rows != [] {
      var before := rows[..|rows| - 1];
      TextsAreInUse(before, server, text);
      if r :| 0 <= r < |before| && before[r].server == server && PrintAddress(before[r].address.host) == text {
        assert rows[r] == before[r];
      }
    }
  }

  /** The allocator compares texts; that is as good as comparing addresses. */
  lemma TextUsedExactly(rows: seq<Peer>, server: ServerId, n: Network, k: nat)
    requires n.Valid() && k < 0x100
    ensures CandidateText(n, k) in HostTexts(rows, server) <==> InUse(rows, server, Candidate(n, k))
  {
    CandidateIsPrinted(n, k);
    TextsAreInUse(rows, server, CandidateText(n, k));
    ParsePrintedAddress(Candidate(n, k));
    forall r | 0 <= r < |rows| ensures ParseAddress(PrintAddress(rows[r].address.host)) == Some(rows[r].address.host) {
      ParsePrintedAddress(rows[r].address.host);
    }
  }

  /** The host octets from 2 up to `k`. */
  ghost predicate AllInUse(rows: seq<Peer>, server: ServerId, n: Network, k: nat)
    requires n.Valid() && k < 0x100
  {
    forall j | 2 <= j < k :: InUse(rows, server, Candidate(n, j))
  }

  ghost predicate IsLowestFree(rows: seq<Peer>, server: ServerId, n: Network, host: nat)
    requires n.Valid()
  {
    exists k | 2 <= k < 255 :: host == Candidate(n, k) && !InUse(rows, server, host) && AllInUse(rows, server, n, k)
  }

  lemma AllUsedExactly(rows: seq<Peer>, server: ServerId, n: Network, k: nat)
    requires n.Valid() && k < 0x100
    ensures AllUsed(n, HostTexts(rows, server), k) <==> AllInUse(rows, server, n, k)
  {
    forall j | 2 <= j < k
      ensures CandidateText(n, j) in HostTexts(rows, server) <==> InUse(rows, server, Candidate(n, j))
    {
      TextUsedExactly(rows, server, n, j);
    }
  }

  /** Over the rows of the server: the lowest free address, or none when 2 to 254 are all in use. */
  lemma AllocatesLowest(rows: seq<Peer>, server: ServerId, n: Network)
    requires n.Valid()
    ensures var r := Allocate(n, HostTexts(rows, server), 2);
            && (r.None? <==> AllInUse(rows, server, n, 255))
            && (r.Some? ==> IsLowestFree(rows, server, n, r.value))
  {
    var used := HostTexts(rows, server);
    var r := Allocate(n, used, 2);
    AllUsedExactly(rows, server, n, 255);
    if r.Some? {
      var k :| IsFirstFree(n, used, k) && PrintAddress(r.value) == CandidateText(n, k);
      CandidateIsPrinted(n, k);
      ParsePrintedAddress(r.value);
      ParsePrintedAddress(Candidate(n, k));
      TextUsedExactly(rows, server, n, k);
      AllUsedExactly(rows, server, n, k);
    }
  }

  // ----- every answer has its cause -----

  ghost predicate At(w: World, i: nat, phase: Phase) {
    i < |w.attempts| && w.attempts[i].phase == phase
  }

  ghost predicate NoRowHas(rows: seq<Peer>, id: Option<RequestId>) {
    forall r | 0 <= r < |rows| :: rows[r].requestId != id
  }

  /** The statement fails the attempt. */
  ghost predicate FailsAt(w: World, step: Step, i: nat) {
    && i < |w.attempts|
    && var a := w.attempts[i];
       match step
       case Check(j, ok) => j == i && a.phase.Checking? && a.create.requestId.Some? && !ok
       case Choose(j, _, n, ok) =>
         && j == i && a.phase.Choosing? && n.Valid() && a.create.address.None?
         && (!ok || AllInUse(w.rows, a.create.server, n, 255))
       case Insert(j, outcome) =>
         && j == i && a.phase.Inserting?
         && (outcome.Answered? ==> a.create.requestId.None? && Violates(w.rows, NewRow(a, i)))
       case Lookup(j, ok) => j == i && a.phase.Conflicted? && (!ok || NoRowHas(w.rows, a.create.requestId))
       case Respond(j, tokenOk, _) =>
         j == i && a.phase.Inserted? && a.create.sendEmail && a.create.key.None? && !tokenOk
       case _ => false
  }

  /** The statement finds the row that another attempt inserted for the id. */
  ghost predicate ReplaysAt(w: World, step: Step, i: nat, key: Key, host: Host) {
    && i < |w.attempts| && w.attempts[i].create.requestId.Some?
    && ((step == Check(i, true) && w.attempts[i].phase.Checking?)
        || (step == Lookup(i, true) && w.attempts[i].phase.Conflicted?))
    && HasRow(w.rows, w.attempts[i].create.requestId.value, key, host)
  }

  ghost predicate CreatesAt(w: World, step: Step, i: nat, key: Key, address: Inet) {
    && step.Respond? && step.i == i && At(w, i, Inserted(key, address))
    && (w.attempts[i].create.sendEmail && w.attempts[i].create.key.None? ==> step.tokenOk)
  }

  ghost predicate AnswersAt(w: World, step: Step, i: nat, reply: Reply) {
    match reply
    case Failed => FailsAt(w, step, i)
    case Exists(key, host) => ReplaysAt(w, step, i, key, host)
    case Created(key, address) => CreatesAt(w, step, i, key, address)
  }

  /** The answer changes only by the statement that gives it. */
  ghost predicate AnswersExactly(w: World, step: Step, w': World, i: nat, reply: Reply) {
    At(w', i, Done(reply)) <==> At(w, i, Done(reply)) || AnswersAt(w, step, i, reply)
  }

  lemma ReplayExactly(w: World, i: nat, id: RequestId, otherwise: Phase, key: Key, host: Host)
    requires Inv(w) && otherwise in {Choosing, Done(Failed)}
    ensures Replay(w.rows, id, otherwise) == Done(Exists(key, host)) <==> HasRow(w.rows, id, key, host)
    ensures Replay(w.rows, id, otherwise) == otherwise <==> NoRowHas(w.rows, Some(id))
  {
    var found := Find(w.rows, id);
    if found.Some? && HasRow(w.rows, id, key, host) {
      var r :| 0 <= r < |w.rows| && w.rows[r].requestId == Some(id) && w.rows[r].key == key && w.rows[r].address.host == host;
      ClashMeansSame(w.rows, r, found.value);
    }
  }

  lemma CheckAnswers(w: World, j: nat, ok: bool, i: nat, reply: Reply)
    requires Inv(w) && Enabled(w, Check(j, ok))
    ensures AnswersExactly(w, Check(j, ok), Do(w, Check(j, ok)), i, reply)
  {
    var create := w.attempts[j].create;
    if reply.Exists? && create.requestId.Some? {
      ReplayExactly(w, j, create.requestId.value, Choosing, reply.key, reply.host);
    }
  }

  lemma ChoosingFails(w: World, create: Create, generated: Key, n: Network, ok: bool)
    requires n.Valid()
    ensures var phase := AfterChoose(w, create, generated, n, ok);
            && (phase.Done? ==> phase == Done(Failed))
            && (phase.Done? <==> create.address.None? && (!ok || AllInUse(w.rows, create.server, n, 255)))
  {
    AllocatesLowest(w.rows, create.server, n);
  }

  lemma ChooseAnswers(w: World, step: Step, i: nat, reply: Reply)
    requires step.Choose? && Enabled(w, step)
    ensures AnswersExactly(w, step, Do(w, step), i, reply)
  {
    ChoosingFails(w, w.attempts[step.i].create, step.generated, step.network, step.ok);
    ChoseAnswers(w, step, AfterChoose(w, w.attempts[step.i].create, step.generated, step.network, step.ok), i, reply);
  }

  lemma ChoseAnswers(w: World, step: Step, phase: Phase, i: nat, reply: Reply)
    requires step.Choose? && Enabled(w, step) && (phase.Done? ==> phase == Done(Failed))
    requires phase.Done? <==> FailsAt(w, step, step.i)
    ensures AnswersExactly(w, step, Become(w, step.i, phase), i, reply)
  {
  }

  lemma InsertAnswers(w: World, j: nat, outcome: Outcome, i: nat, reply: Reply)
    requires Inv(w) && Enabled(w, Insert(j, outcome))
    ensures AnswersExactly(w, Insert(j, outcome), DoInsert(w, j, outcome), i, reply)
  {
  }

  lemma LookupAnswers(w: World, j: nat, ok: bool, i: nat, reply: Reply)
    requires Inv(w) && Enabled(w, Lookup(j, ok))
    ensures AnswersExactly(w, Lookup(j, ok), Do(w, Lookup(j, ok)), i, reply)
  {
    var id := w.attempts[j].create.requestId.value;
    if reply.Exists? {
      ReplayExactly(w, j, id, Done(Failed), reply.key, reply.host);
    } else {
      ReplayExactly(w, j, id, Done(Failed), 0, 0);
    }
  }

  lemma RespondAnswers(w: World, step: Step, i: nat, reply: Reply)
    requires step.Respond? && Enabled(w, step)
    ensures AnswersExactly(w, step, Do(w, step), i, reply)
  {
  }

  lemma StepAnswers(w: World, step: Step, i: nat, reply: Reply)
    requires Inv(w)
    ensures AnswersExactly(w, step, Do(w, step), i, reply)
  {
    if Enabled(w, step) {
      match step
      case Check(j, ok) => CheckAnswers(w, j, ok, i, reply);
      case Choose(_, _, _, _) => ChooseAnswers(w, step, i, reply);
      case Insert(j, outcome) => InsertAnswers(w, j, outcome, i, reply);
      case Lookup(j, ok) => LookupAnswers(w, j, ok, i, reply);
      case Respond(_, _, _) => RespondAnswers(w, step, i, reply);
      case _ =>
    }
  }

  lemma AnswersStep(trace: seq<World>, steps: seq<Step>, n: nat, i: nat, reply: Reply)
    requires IsTrace(trace, steps) && n < |steps|
    ensures AnswersExactly(trace[n], steps[n], trace[n + 1], i, reply)
  {
    TraceStep(trace, steps, n);
    StepAnswers(trace[n], steps[n], i, reply);
  }

  lemma {:induction false} AnsweredAt(trace: seq<World>, steps: seq<Step>, n: nat, i: nat, reply: Reply) returns (k: nat)
    requires IsTrace(trace, steps) && n <= |steps| && At(trace[n], i, Done(reply))
    ensures k < n && AnswersAt(trace[k], steps[k], i, reply)
    decreases n
  {
    AnswersStep(trace, steps, n - 1, i, reply);
    if At(trace[n - 1], i, Done(reply)) {
      k := AnsweredAt(trace, steps, n - 1, i, reply);
    } else {
      k := n - 1;
    }
  }

  lemma {:induction false} AnswerStays(trace: seq<World>, steps: seq<Step>, k: nat, n: nat, i: nat, reply: Reply)
    requires IsTrace(trace, steps) && k < n <= |steps| && AnswersAt(trace[k], steps[k], i, reply)
    ensures At(trace[n], i, Done(reply))
    decreases n
  {
    AnswersStep(trace, steps, n - 1, i, reply);
    if k < n - 1 { AnswerStays(trace, steps, k, n - 1, i, reply); }
  }

  /**
    Over every run, an attempt has an answer exactly when one of its statements gave it: "failed" from a query or an
    insert that went wrong, an exhausted network, a clash of a create without an id, a missing token; "exists" from a
    lookup that found the row; "created" after its own insert.
  */
  lemma AnsweredExactly(trace: seq<World>, steps: seq<Step>, i: nat, reply: Reply)
    requires IsTrace(trace, steps)
    ensures At(trace[|steps|], i, Done(reply)) <==>
              exists k | 0 <= k < |steps| :: AnswersAt(trace[k], steps[k], i, reply)
  {
    if At(trace[|steps|], i, Done(reply)) {
      var k := AnsweredAt(trace, steps, |steps|, i, reply);
    }
    if k :| 0 <= k < |steps| && AnswersAt(trace[k], steps[k], i, reply) {
      AnswerStays(trace, steps, k, |steps|, i, reply);
    }
  }

  /** Every call of the attempt is answered. */
  predicate CallsAnswered(steps: seq<Step>, i: nat) {
    forall k | 0 <= k < |steps| && Of(steps[k], i) :: IsAnswered(steps[k])
  }

  predicate Of(step: Step, i: nat) {
    (step.Check? || step.Choose? || step.Insert? || step.Lookup? || step.Respond?) && step.i == i
  }

  predicate IsAnswered(step: Step) {
    match step
    case Check(_, ok) => ok
    case Choose(_, _, _, ok) => ok
    case Insert(_, outcome) => outcome.Answered?
    case Lookup(_, ok) => ok
    case Respond(_, tokenOk, _) => tokenOk
    case _ => true
  }

  /** No address left for a create that gave none; or the key or the address is another peer's. */
  ghost predicate NothingToGive(w: World, step: Step, i: nat) {
    && i < |w.attempts|
    && var a := w.attempts[i];
       match step
       case Choose(j, _, n, _) =>
         j == i && a.phase.Choosing? && n.Valid() && a.create.address.None? && AllInUse(w.rows, a.create.server, n, 255)
       case Lookup(j, _) => j == i && a.phase.Conflicted? && NoRowHas(w.rows, a.create.requestId)
       case _ => false
  }

  lemma AnsweredStepFails(w: World, step: Step, i: nat)
    requires Of(step, i) ==> IsAnswered(step)
    requires i < |w.attempts| ==> w.attempts[i].create.requestId.Some?
    ensures FailsAt(w, step, i) <==> NothingToGive(w, step, i)
  {
  }

  /** When all its calls are answered, a create with an id fails exactly when there was nothing to give it. */
  lemma WithIdFailsExactly(trace: seq<World>, steps: seq<Step>, i: nat)
    requires IsTrace(trace, steps) && CallsAnswered(steps, i)
    requires i < |trace[|steps|].attempts| && trace[|steps|].attempts[i].create.requestId.Some?
    ensures At(trace[|steps|], i, Done(Failed)) <==>
              exists k | 0 <= k < |steps| :: NothingToGive(trace[k], steps[k], i)
  {
    AnsweredExactly(trace, steps, i, Failed);
    if At(trace[|steps|], i, Done(Failed)) {
      var k := AnsweredAt(trace, steps, |steps|, i, Failed);
      FailsByNothing(trace, steps, k, i);
    }
    if k :| 0 <= k < |steps| && NothingToGive(trace[k], steps[k], i) {
      FailsByNothing(trace, steps, k, i);
    }
  }

  lemma FailsByNothing(trace: seq<World>, steps: seq<Step>, k: nat, i: nat)
    requires IsTrace(trace, steps) && k < |steps| && CallsAnswered(steps, i)
    requires i < |trace[|steps|].attempts| && trace[|steps|].attempts[i].create.requestId.Some?
    ensures AnswersAt(trace[k], steps[k], i, Failed) <==> NothingToGive(trace[k], steps[k], i)
  {
    if i < |trace[k].attempts| { CreateStays(trace, steps, k, |steps|, i); }
    AnsweredStepFails(trace[k], steps[k], i);
  }

  lemma {:induction false} CreateStays(trace: seq<World>, steps: seq<Step>, k: nat, n: nat, i: nat)
    requires IsTrace(trace, steps) && k <= n <= |steps| && i < |trace[k].attempts|
    ensures i < |trace[n].attempts| && trace[n].attempts[i].create == trace[k].attempts[i].create
    decreases n
  {
    if k < n {
      CreateStays(trace, steps, k, n - 1, i);
      TraceStep(trace, steps, n - 1);
      StepKeepsCreate(trace[n - 1], steps[n - 1], i);
    }
  }

  lemma StepKeepsCreate(w: World, step: Step, i: nat)
    requires i < |w.attempts|
    ensures i < |Do(w, step).attempts| && Do(w, step).attempts[i].create == w.attempts[i].create
  {
  }

  // ----- what was chosen -----

  /** What the client left out is chosen now: the key made for it, the lowest free address under the full mask. */
  ghost predicate ChoosesAt(w: World, step: Step, i: nat, key: Key, address: Inet) {
    && step.Choose? && step.i == i && step.network.Valid() && At(w, i, Choosing)
    && var create := w.attempts[i].create;
       && key == (if create.key.Some? then create.key.value else step.generated)
       && (if create.address.Some? then address == create.address.value
           else step.ok && address.bits == 32 && IsLowestFree(w.rows, create.server, step.network, address.host))
  }

  /** The key and the address an attempt goes on with. */
  predicate Carries(phase: Phase, key: Key, address: Inet) {
    phase == Inserting(key, address) || phase == Inserted(key, address) || phase == Done(Created(key, address))
  }

  lemma ChooseGives(w: World, step: Step, i: nat, key: Key, address: Inet)
    requires step.Choose? && Enabled(w, step) && step.i == i && Carries(Do(w, step).attempts[i].phase, key, address)
    ensures ChoosesAt(w, step, i, key, address)
  {
    AllocatesLowest(w.rows, w.attempts[i].create.server, step.network);
  }

  lemma StepCarries(w: World, step: Step, i: nat, key: Key, address: Inet)
    requires i < |Do(w, step).attempts| && Carries(Do(w, step).attempts[i].phase, key, address)
    ensures (i < |w.attempts| && Carries(w.attempts[i].phase, key, address)) || ChoosesAt(w, step, i, key, address)
  {
    if step.Choose? && Enabled(w, step) && step.i == i { ChooseGives(w, step, i, key, address); }
  }

  /** A peer is created under the key and the address its own choice gave, and the allocation was free then. */
  lemma {:induction false} CreatedAsChosen(trace: seq<World>, steps: seq<Step>, n: nat, i: nat, key: Key, address: Inet)
    requires IsTrace(trace, steps) && n <= |steps| && i < |trace[n].attempts|
    requires Carries(trace[n].attempts[i].phase, key, address)
    ensures exists k | 0 <= k < n :: ChoosesAt(trace[k], steps[k], i, key, address)
    decreases n
  {
    TraceStep(trace, steps, n - 1);
    StepCarries(trace[n - 1], steps[n - 1], i, key, address);
    if !ChoosesAt(trace[n - 1], steps[n - 1], i, key, address) {
      CreatedAsChosen(trace, steps, n - 1, i, key, address);
    }
  }

  // ----- which attempts leave a row -----

  ghost predicate HasOwnRow(w: World, i: nat) {
    exists r | 0 <= r < |w.rows| :: w.rows[r].author == i
  }

  /** The insert is committed, whether or not its answer arrives. */
  ghost predicate CommitsAt(w: World, step: Step, i: nat) {
    && step.Insert? && step.i == i && !step.outcome.Broken?
    && i < |w.attempts| && w.attempts[i].phase.Inserting? && !Violates(w.rows, NewRow(w.attempts[i], i))
  }

  lemma InsertCommits(w: World, j: nat, outcome: Outcome, i: nat)
    requires Enabled(w, Insert(j, outcome))
    ensures HasOwnRow(DoInsert(w, j, outcome), i) <==> HasOwnRow(w, i) || CommitsAt(w, Insert(j, outcome), i)
  {
    var w' := DoInsert(w, j, outcome);
    if CommitsAt(w, Insert(j, outcome), i) { assert w'.rows[|w.rows|].author == i; }
    if r :| 0 <= r < |w.rows| && w.rows[r].author == i { assert w'.rows[r].author == i; }
  }

  lemma StatusCommits(w: World, row: nat, status: Status, i: nat)
    requires row < |w.rows|
    ensures HasOwnRow(Do(w, SetStatus(row, status)), i) <==> HasOwnRow(w, i)
  {
    var w' := Do(w, SetStatus(row, status));
    assert forall r | 0 <= r < |w.rows| :: w'.rows[r].author == w.rows[r].author;
  }

  lemma StepCommits(w: World, step: Step, i: nat)
    ensures HasOwnRow(Do(w, step), i) <==> HasOwnRow(w, i) || CommitsAt(w, step, i)
  {
    if Enabled(w, step) {
      if step.Insert? {
        InsertCommits(w, step.i, step.outcome, i);
      } else if step.SetStatus? {
        StatusCommits(w, step.row, step.status, i);
      }
    }
  }

  /** Over every run, exactly the attempts with a committed insert leave a row; a lost answer does not undo it. */
  lemma {:induction false} RowExactly(trace: seq<World>, steps: seq<Step>, n: nat, i: nat)
    requires IsTrace(trace, steps) && n <= |steps|
    ensures HasOwnRow(trace[n], i) <==> exists k | 0 <= k < n :: CommitsAt(trace[k], steps[k], i)
    decreases n
  {
    if n > 0 {
      TraceStep(trace, steps, n - 1);
      StepCommits(trace[n - 1], steps[n - 1], i);
      RowExactly(trace, steps, n - 1, i);
    }
  }

  /** The status that was set last; a new row is active. */
  function LastStatus(trace: seq<World>, steps: seq<Step>, n: nat, r: nat): Status
    requires n <= |steps| < |trace|
  {
    if n == 0 then Active
    else if steps[n - 1].SetStatus? && steps[n - 1].row == r < |trace[n - 1].rows| then steps[n - 1].status
    else LastStatus(trace, steps, n - 1, r)
  }

  lemma NewRowsAreActive(w: World, step: Step, r: nat)
    requires r < |Do(w, step).rows|
    ensures r >= |w.rows| ==> Do(w, step).rows[r].status == Active
    ensures r < |w.rows| && !(step.SetStatus? && step.row == r) ==> Do(w, step).rows[r].status == w.rows[r].status
    ensures r < |w.rows| && step.SetStatus? && step.row == r ==> Do(w, step).rows[r].status == step.status
  {
  }

  lemma {:induction false} NoStatusYet(trace: seq<World>, steps: seq<Step>, n: nat, r: nat)
    requires IsTrace(trace, steps) && n <= |steps| && r >= |trace[n].rows|
    ensures LastStatus(trace, steps, n, r) == Active
    decreases n
  {
    if n > 0 {
      TraceStep(trace, steps, n - 1);
      RowsNeverFewer(trace[n - 1], steps[n - 1]);
      NoStatusYet(trace, steps, n - 1, r);
    }
  }

  lemma RowsNeverFewer(w: World, step: Step)
    ensures |w.rows| <= |Do(w, step).rows|
  {
  }

  /** Over every run a peer is active, suspended or removed as was last set. */
  lemma {:induction false} StatusExactly(trace: seq<World>, steps: seq<Step>, n: nat, r: nat)
    requires IsTrace(trace, steps) && n <= |steps| && r < |trace[n].rows|
    ensures trace[n].rows[r].status == LastStatus(trace, steps, n, r)
    decreases n
  {
    if n > 0 {
      TraceStep(trace, steps, n - 1);
      NewRowsAreActive(trace[n - 1], steps[n - 1], r);
      if r < |trace[n - 1].rows| { StatusExactly(trace, steps, n - 1, r); } else { NoStatusYet(trace, steps, n - 1, r); }
    }
  }

  // ----- a lost race -----

  lemma {:induction false} OthersLeave(steps: seq<Step>, more: seq<Step>, i: nat)
    requires i < |Run(steps).attempts| && forall k | 0 <= k < |more| :: !Of(more[k], i)
    ensures i < |Run(steps + more).attempts| && Run(steps + more).attempts[i] == Run(steps).attempts[i]
  {
    if more == [] {
      assert steps + more == steps;
    } else {
      var n := |more| - 1;
      OthersLeave(steps, more[..n], i);
      assert (steps + more)[..|steps + more| - 1] == steps + more[..n];
      StepLeaves(Run(steps + more[..n]), more[n], i);
    }
  }

  lemma StepLeaves(w: World, step: Step, i: nat)
    requires i < |w.attempts| && !Of(step, i)
    ensures i < |Do(w, step).attempts| && Do(w, step).attempts[i] == w.attempts[i]
  {
  }

  lemma TakenIdConflicts(w: World, i: nat, r: nat)
    requires i < |w.attempts| && w.attempts[i].phase.Inserting? && r < |w.rows|
    requires w.rows[r].requestId.Some? && w.rows[r].requestId == w.attempts[i].create.requestId
    ensures Do(w, Insert(i, Answered)) == Become(w, i, Conflicted)
  {
    assert Clash(w.rows[r], NewRow(w.attempts[i], i));
  }

  /**
    The create that loses the race on its id answers with the winner's key and address: from the insert on, whatever
    the others do in between.
  */
  lemma LostRaceIsAnswered(steps: seq<Step>, more: seq<Step>, r: nat, i: nat)
    requires r < |Run(steps).rows| && Run(steps).rows[r].requestId.Some?
    requires i < |Run(steps).attempts| && Run(steps).attempts[i].phase.Inserting?
    requires Run(steps).attempts[i].create.requestId == Run(steps).rows[r].requestId
    requires forall k | 0 <= k < |more| :: !Of(more[k], i)
    ensures var p := Run(steps).rows[r];
            At(Run(steps + [Insert(i, Answered)] + more + [Lookup(i, true)]), i, Done(Exists(p.key, p.address.host)))
  {
    var w, all := Run(steps), steps + [Insert(i, Answered)];
    assert all[..|steps|] == steps && all[..|steps| + 1] == all;
    OneMoreStep(all, |steps|);
    TakenIdConflicts(w, i, r);
    OthersLeave(all, more, i);
    assert all + more == steps + ([Insert(i, Answered)] + more);
    RetryFindsTheRow(steps, [Insert(i, Answered)] + more, r, i, Lookup(i, true));
  }
}
