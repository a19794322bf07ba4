/**
  The per-server kernel sync queue.

  A sync request finds or creates the server's job and, unless the job already has a goroutine, starts
  one. The goroutine loops over passes; a teardown request ends it. Every section that holds the
  queue's mutex, every database read and every call to the kernel helper is one atomic step, and any
  interleaving of the steps is allowed.
*/
module ServerSyncQueue {
  import opened Option

  type ServerId = nat
  type JobRef = nat

  // ----- memory shared by all goroutines: the job objects and the map of jobs -----

  datatype Job = Job(server: ServerId, hasPool: bool, running: bool, dirty: bool, remove: bool, iface: string)

  /** Every job object ever allocated, addressed by its index, and the map from server to job. */
  datatype Memory = Memory(jobs: seq<Job>, table: map<ServerId, JobRef>)
  {
    ghost predicate Valid() {
      forall s | s in table :: table[s] < |jobs| && jobs[table[s]].server == s
    }

    /** A section that may start a goroutine: it returns the job the new goroutine must run. */
    function RequestSync(s: ServerId): (Memory, Option<JobRef>)
      requires Valid()
    {
      if s in table && jobs[table[s]].remove then
        (this, None)
      else if s !in table then
        (Memory(jobs + [Job(s, true, true, true, false, "")], table[s := |jobs|]), Some(|jobs|))
      else
        var ref := table[s];
        (this.(jobs := jobs[ref := jobs[ref].(dirty := true, running := true)]),
         if jobs[ref].running then None else Some(ref))
    }

    function RequestRemoval(s: ServerId, iface: string): (Memory, Option<JobRef>)
      requires Valid()
    {
      if s !in table then
        (Memory(jobs + [Job(s, false, true, false, true, iface)], table[s := |jobs|]), Some(|jobs|))
      else
        var ref := table[s];
        var job := jobs[ref];
        (this.(jobs := jobs[ref := job.(remove := true, running := true,
                                        iface := if iface == "" then job.iface else iface)]),
         if job.running then None else Some(ref))
    }

    function BeginPass(ref: JobRef): Memory
      requires ref < |jobs|
    {
      this.(jobs := jobs[ref := jobs[ref].(dirty := false)])
    }

    function Retire(ref: JobRef): Memory
      requires ref < |jobs|
    {
      Memory(jobs[ref := jobs[ref].(running := false)], table - {jobs[ref].server})
    }

    /** The section after an apply: loop again (true), or retire the job. */
    function EndPass(ref: JobRef): (Memory, bool)
      requires ref < |jobs|
    {
      if jobs[ref].remove || jobs[ref].dirty then (this, true) else (Retire(ref), false)
    }
  }

  /** The queue as the program holds it; each method is one section under the mutex. */
  class SyncQueue {
    var jobs: seq<Job>
    var table: map<ServerId, JobRef>

    ghost function Shared(): Memory
      reads this
    {
      Memory(jobs, table)
    }

    constructor ()
      ensures Shared() == Memory([], map[])
    {
      jobs, table := [], map[];
    }

    method RequestServerSync(s: ServerId) returns (start: Option<JobRef>)
      requires Shared().Valid()
      modifies this
      ensures (Shared(), start) == old(Shared()).RequestSync(s)
    {
      if s in table && jobs[table[s]].remove {
        return None;
      }
      if s !in table {
        table := table[s := |jobs|];
        jobs := jobs + [Job(s, true, false, false, false, "")];
      }
      var ref := table[s];
      var wasRunning := jobs[ref].running;
      jobs := jobs[ref := jobs[ref].(dirty := true)];
      jobs := jobs[ref := jobs[ref].(running := true)];
      start := if wasRunning then None else Some(ref);
      assert jobs == old(Shared()).RequestSync(s).0.jobs;
    }

    method RequestServerRemoval(s: ServerId, iface: string) returns (start: Option<JobRef>)
      requires Shared().Valid()
      modifies this
      ensures (Shared(), start) == old(Shared()).RequestRemoval(s, iface)
    {
      if s !in table {
        table := table[s := |jobs|];
        jobs := jobs + [Job(s, false, false, false, false, "")];
      }
      var ref := table[s];
      jobs := jobs[ref := jobs[ref].(remove := true)];
      if iface != "" {
        jobs := jobs[ref := jobs[ref].(iface := iface)];
      }
      start := if jobs[ref].running then None else Some(ref);
      jobs := jobs[ref := jobs[ref].(running := true)];
      assert jobs == old(Shared()).RequestRemoval(s, iface).0.jobs;
    }

    method BeginPass(ref: JobRef) returns (remove: bool, iface: string)
      requires ref < |jobs|
      modifies this
      ensures Shared() == old(Shared()).BeginPass(ref)
      ensures remove == old(jobs[ref].remove) && iface == old(jobs[ref].iface)
    {
      remove, iface := jobs[ref].remove, jobs[ref].iface;
      jobs := jobs[ref := jobs[ref].(dirty := false)];
    }

    method RetireAfterTeardown(ref: JobRef)
      requires ref < |jobs|
      modifies this
      ensures Shared() == old(Shared()).Retire(ref)
    {
      jobs := jobs[ref := jobs[ref].(running := false)];
      table := table - {jobs[ref].server};
    }

    method EndPass(ref: JobRef) returns (again: bool)
      requires ref < |jobs|
      modifies this
      ensures (Shared(), again) == old(Shared()).EndPass(ref)
    {
      if jobs[ref].remove {
        return true;
      }
      if !jobs[ref].dirty {
        jobs := jobs[ref := jobs[ref].(running := false)];
        table := table - {jobs[ref].server};
        return false;
      }
      return true;
    }
  }

  // ----- the concurrent system -----

  /** The queries of a pass after the one for the server's row. */
  const MORE_READS := 7

  /**
    Where a goroutine stands in its loop. `Read` is inside a pass, before its first query; in `Apply` the queries so far
    saw the database at versions from `lo` to `hi`, and at most `more` follow before the kernel call.
  */
  datatype Phase =
    | Top
    | Teardown(iface: string)
    | Retiring
    | Read
    | Apply(iface: string, lo: nat, hi: nat, more: nat)
    | Post
    | Done

  datatype Runner = Runner(job: JobRef, phase: Phase)

  datatype Event =
    | SyncRequested(server: ServerId, version: nat)
    | SyncDropped(server: ServerId)
    | RemovalRequested(server: ServerId)
    | PassStarted(server: ServerId, version: nat)
    | Applied(server: ServerId, iface: string, lo: nat, hi: nat)
    | TornDown(server: ServerId, iface: string)

  /**
    `rows` holds the interface name of every existing server row and `deleted` that of every row that was
    deleted. `version` counts the committed database changes.
  */
  datatype System = System(
    mem: Memory,
    runners: seq<Runner>,
    rows: map<ServerId, string>,
    deleted: map<ServerId, string>,
    version: nat,
    log: seq<Event>)

  const INITIAL := System(Memory([], map[]), [], map[], map[], 0, [])

  /**
    `InsertRow` uses a fresh identifier and `RequestRemoval` follows the row's deletion, as in the two server
    handlers. `Run(r, ok)` lets goroutine `r` take its next step; `ok` resolves what the step cannot see: whether
    the pass goes on after its first query (it does not for a manual or remote server or after a lookup error), reads
    on (a failure in the drop list ends the reading, not the pass), and in the end makes the kernel call.
  */
  datatype Step =
    | RequestSync(server: ServerId)
    | RequestRemoval(server: ServerId)
    | InsertRow(server: ServerId, iface: string)
    | DeleteRow(server: ServerId)
    | Commit
    | Run(runner: nat, ok: bool)

  ghost predicate Shape(st: System) {
    && st.mem.Valid()
    && forall r | 0 <= r < |st.runners| :: st.runners[r].job < |st.mem.jobs|
  }

  function Spawn(st: System, mem: Memory, start: Option<JobRef>, event: Event): System {
    st.(mem := mem,
        runners := if start.Some? then st.runners + [Runner(start.value, Top)] else st.runners,
        log := st.log + [event])
  }

  function RunStep(st: System, r: nat, ok: bool): System
    requires Shape(st) && r < |st.runners|
  {
    var ref := st.runners[r].job;
    var job := st.mem.jobs[ref];
    match st.runners[r].phase
    case Top =>
      Goto(st.(mem := st.mem.BeginPass(ref)), r, if job.remove then Teardown(job.iface) else Read)
    case Teardown(iface) =>
      Goto(st.(log := st.log + [TornDown(job.server, iface)]), r, Retiring)
    case Retiring =>
      Goto(st.(mem := st.mem.Retire(ref)), r, Done)
    case Read =>
      var read := st.(log := st.log + [PassStarted(job.server, st.version)]);
      Goto(read, r, if job.server in st.rows && ok then Apply(st.rows[job.server], st.version, st.version, MORE_READS) else Post)
    case Apply(iface, lo, hi, more) =>
      if more > 0 then Goto(st, r, if ok then Apply(iface, lo, st.version, more - 1) else Apply(iface, lo, hi, 0))
      else if ok then Goto(st.(log := st.log + [Applied(job.server, iface, lo, hi)]), r, Post)
      else Goto(st, r, Post)
    case Post =>
      var (mem, again) := st.mem.EndPass(ref);
      Goto(st.(mem := mem), r, if again then Top else Done)
    case Done =>
      st
  }

  function Goto(st: System, r: nat, phase: Phase): System
    requires r < |st.runners|
  {
    st.(runners := st.runners[r := st.runners[r].(phase := phase)])
  }

  /** One step; a step whose guard fails leaves the system as it is. */
  function Do(st: System, step: Step): System
    requires Shape(st)
  {
    match step
    case RequestSync(s) =>
      var (mem, start) := st.mem.RequestSync(s);
      Spawn(st, mem, start,
            if s in st.mem.table && st.mem.jobs[st.mem.table[s]].remove
            then SyncDropped(s) else SyncRequested(s, st.version))
    case RequestRemoval(s) =>
      if s !in st.deleted then st else
      var (mem, start) := st.mem.RequestRemoval(s, st.deleted[s]);
      Spawn(st, mem, start, RemovalRequested(s))
    case InsertRow(s, iface) =>
      if s in st.rows || s in st.deleted then st
      else st.(rows := st.rows[s := iface], version := st.version + 1)
    case DeleteRow(s) =>
      if s !in st.rows then st
      else st.(rows := st.rows - {s}, deleted := st.deleted[s := st.rows[s]], version := st.version + 1)
    case Commit =>
      st.(version := st.version + 1)
    case Run(r, ok) =>
      if r < |st.runners| then RunStep(st, r, ok) else st
  }

  // ----- the invariant -----

  predicate Live(st: System, r: nat)
    requires r < |st.runners|
  {
    st.runners[r].phase != Done
  }

  /** Each job is run by exactly one goroutine in its life, and is in the map exactly while that one lives. */
  ghost predicate Structure(st: System) {
    && Shape(st)
    && |st.runners| == |st.mem.jobs|
    && (forall r | 0 <= r < |st.runners| :: st.runners[r].job == r)
    && (forall r | 0 <= r < |st.runners| :: st.mem.jobs[r].running == Live(st, r))
    && (forall r | 0 <= r < |st.runners| && Live(st, r) ::
          st.mem.jobs[r].server in st.mem.table && st.mem.table[st.mem.jobs[r].server] == r)
    && (forall s | s in st.mem.table :: Live(st, st.mem.table[s]))
  }

  /** A job that may tear down belongs to a deleted row; every other job can reach the database. */
  ghost predicate JobOk(st: System, job: Job) {
    if job.remove then job.server in st.deleted && job.iface == st.deleted[job.server]
    else job.hasPool && job.iface == ""
  }

  ghost predicate Rows(st: System) {
    && st.rows.Keys !! st.deleted.Keys
    && (forall r | 0 <= r < |st.mem.jobs| :: JobOk(st, st.mem.jobs[r]))
  }

  /** The interface a server has or had. */
  ghost predicate IfaceOf(st: System, s: ServerId, iface: string) {
    || (s in st.rows && st.rows[s] == iface)
    || (s in st.deleted && st.deleted[s] == iface)
  }

  ghost predicate WasTornDown(log: seq<Event>, s: ServerId) {
    exists i | 0 <= i < |log| :: log[i].TornDown? && log[i].server == s
  }

  ghost predicate AppliedUpTo(log: seq<Event>, s: ServerId, version: nat) {
    forall i | 0 <= i < |log| && log[i].Applied? && log[i].server == s :: log[i].hi <= version
  }

  ghost predicate PhaseOk(st: System, r: nat)
    requires Structure(st) && r < |st.runners|
  {
    var job := st.mem.jobs[r];
    match st.runners[r].phase
    case Teardown(iface) => job.remove && !job.dirty && iface == job.iface
    case Retiring => job.remove && !job.dirty && WasTornDown(st.log, job.server)
    case Read => job.hasPool
    case Apply(iface, lo, hi, more) =>
      && job.hasPool
      && lo <= hi <= st.version && more <= MORE_READS
      && IfaceOf(st, job.server, iface)
      && AppliedUpTo(st.log, job.server, lo)
      && !WasTornDown(st.log, job.server)
    case _ => true
  }

  ghost predicate Phases(st: System)
    requires Structure(st)
  {
    forall r | 0 <= r < |st.runners| :: PhaseOk(st, r)
  }

  /** The goroutine of `s` still has a pass or the teardown ahead of it. */
  predicate Pending(st: System, s: ServerId)
    requires Structure(st)
  {
    && s in st.mem.table
    && var r := st.mem.table[s];
       || st.mem.jobs[r].dirty
       || st.runners[r].phase in {Top, Read}
       || (st.mem.jobs[r].remove && st.runners[r].phase != Retiring)
  }

  predicate Serves(e: Event, s: ServerId, version: nat) {
    || (e.PassStarted? && e.server == s && version <= e.version)
    || (e.TornDown? && e.server == s)
  }

  /** The request logged at `i` was answered by a pass that read the database later, or by the teardown. */
  ghost predicate Served(log: seq<Event>, i: nat)
    requires i < |log| && log[i].SyncRequested?
  {
    exists k | i < k < |log| :: Serves(log[k], log[i].server, log[i].version)
  }

  ghost predicate SyncOk(st: System, i: nat)
    requires Structure(st) && i < |st.log|
  {
    st.log[i].SyncRequested? ==>
      st.log[i].version <= st.version && (Served(st.log, i) || Pending(st, st.log[i].server))
  }

  ghost predicate RemovalOk(st: System, s: ServerId)
    requires Structure(st)
  {
    && s in st.deleted
    && (WasTornDown(st.log, s) || (s in st.mem.table && st.mem.jobs[st.mem.table[s]].remove))
  }

  ghost predicate Requests(st: System)
    requires Structure(st)
  {
    && (forall i | 0 <= i < |st.log| :: SyncOk(st, i))
    && (forall i | 0 <= i < |st.log| && st.log[i].RemovalRequested? :: RemovalOk(st, st.log[i].server))
  }

  /** Teardown comes last and the versions applied never go back. */
  ghost predicate InOrder(before: Event, after: Event) {
    after.Applied? && before.server == after.server ==>
      && !before.TornDown?
      && (before.Applied? ==> before.hi <= after.lo)
  }

  ghost predicate Ordered(log: seq<Event>) {
    forall i, k | 0 <= i < k < |log| :: InOrder(log[i], log[k])
  }

  /** An event names the interface of its own server; only deleted servers are torn down. */
  ghost predicate EventOk(st: System, e: Event) {
    match e
    case Applied(s, iface, lo, hi) => lo <= hi <= st.version && IfaceOf(st, s, iface)
    case TornDown(s, iface) => s in st.deleted && iface == st.deleted[s]
    case _ => true
  }

  ghost predicate Events(st: System) {
    forall i | 0 <= i < |st.log| :: EventOk(st, st.log[i])
  }

  ghost predicate Inv(st: System) {
    && Structure(st)
    && Rows(st)
    && Phases(st)
    && Requests(st)
    && Ordered(st.log)
    && Events(st)
  }

  // ----- every step keeps the invariant -----

  predicate JobGrows(before: Job, after: Job) {
    && after.server == before.server && after.hasPool == before.hasPool
    && (before.remove ==> after.remove && after.iface == before.iface && (after.dirty ==> before.dirty))
  }

  /** A request leaves the jobs of other servers alone and keeps what is known of the job of its own. */
  lemma RequestEffect(m: Memory, s: ServerId, iface: string, r: nat)
    requires m.Valid() && r < |m.jobs|
    ensures r < |m.RequestSync(s).0.jobs| && r < |m.RequestRemoval(s, iface).0.jobs|
    ensures m.jobs[r].server != s ==>
              m.RequestSync(s).0.jobs[r] == m.jobs[r] && m.RequestRemoval(s, iface).0.jobs[r] == m.jobs[r]
    ensures JobGrows(m.jobs[r], m.RequestSync(s).0.jobs[r])
    ensures (m.jobs[r].remove ==> m.jobs[r].iface == iface) ==> JobGrows(m.jobs[r], m.RequestRemoval(s, iface).0.jobs[r])
  {
  }

  lemma StructureKeptLive(st: System, st': System, r: nat, job: Job, phase: Phase)
    requires Structure(st) && r < |st.runners| && Live(st, r)
    requires phase != Done && job.server == st.mem.jobs[r].server && job.running
    requires st'.runners == st.runners[r := Runner(r, phase)]
    requires st'.mem == Memory(st.mem.jobs[r := job], st.mem.table)
    ensures Structure(st')
  {
  }

  lemma StructureKeptNew(st: System, st': System, job: Job)
    requires Structure(st) && job.server !in st.mem.table && job.running
    requires st'.runners == st.runners + [Runner(|st.mem.jobs|, Top)]
    requires st'.mem == Memory(st.mem.jobs + [job], st.mem.table[job.server := |st.mem.jobs|])
    ensures Structure(st')
  {
  }

  lemma StructureKeptByRequest(st: System, s: ServerId, step: Step)
    requires Structure(st) && (step == Step.RequestSync(s) || (step == Step.RequestRemoval(s) && s in st.deleted))
    ensures Structure(Do(st, step))
  {
    var st' := Do(st, step);
    if s in st.mem.table {
      var r := st.mem.table[s];
      assert st.runners == st.runners[r := st.runners[r]];
      assert st.mem.jobs == st.mem.jobs[r := st.mem.jobs[r]];
      StructureKeptLive(st, st', r, st'.mem.jobs[r], st.runners[r].phase);
    } else {
      StructureKeptNew(st, st', st'.mem.jobs[|st.mem.jobs|]);
    }
  }

  lemma StructureKeptRetired(st: System, st': System, r: nat)
    requires Structure(st) && r < |st.runners| && Live(st, r)
    requires st'.runners == st.runners[r := Runner(r, Done)]
    requires st'.mem == st.mem.Retire(r)
    ensures Structure(st')
  {
  }

  lemma StructureKeptByRun(st: System, r: nat, ok: bool)
    requires Structure(st) && r < |st.runners|
    ensures Structure(RunStep(st, r, ok))
  {
    var st' := RunStep(st, r, ok);
    var job := st.mem.jobs[r];
    assert st.mem.jobs == st.mem.jobs[r := job];
    if Live(st, r) {
      if Live(st', r) {
        StructureKeptLive(st, st', r, st'.mem.jobs[r], st'.runners[r].phase);
      } else {
        StructureKeptRetired(st, st', r);
      }
    }
  }

  lemma StructureKept(st: System, step: Step)
    requires Structure(st)
    ensures Structure(Do(st, step))
  {
    if step.Run? {
      if step.runner < |st.runners| { StructureKeptByRun(st, step.runner, step.ok); }
    } else if step.RequestSync? || (step.RequestRemoval? && step.server in st.deleted) {
      StructureKeptByRequest(st, step.server, step);
    }
  }

  lemma RowsKeptByRun(st: System, r: nat, ok: bool, q: nat)
    requires Shape(st) && r < |st.runners| && q < |st.runners| == |st.mem.jobs| && st.runners[r].job == r
    ensures var st' := RunStep(st, r, ok);
            && st'.rows == st.rows && st'.deleted == st.deleted
            && |st'.runners| == |st.runners| && |st'.mem.jobs| == |st.mem.jobs|
            && SameJob(st.mem.jobs[q], st'.mem.jobs[q])
            && (q != r ==> st'.mem.jobs[q] == st.mem.jobs[q] && st'.runners[q] == st.runners[q])
  {
  }

  predicate SameJob(before: Job, after: Job) {
    && after.server == before.server && after.hasPool == before.hasPool
    && after.remove == before.remove && after.iface == before.iface
    && (after.dirty ==> before.dirty)
  }

  lemma JobKeptByRun(st: System, q: nat, ok: bool, r: nat)
    requires Structure(st) && Rows(st) && q < |st.runners| && r < |st.mem.jobs|
    ensures r < |RunStep(st, q, ok).mem.jobs| && JobOk(RunStep(st, q, ok), RunStep(st, q, ok).mem.jobs[r])
  {
    assert JobOk(st, st.mem.jobs[r]);
    RowsKeptByRun(st, q, ok, r);
  }

  lemma JobKept(st: System, step: Step, r: nat)
    requires Structure(st) && Rows(st) && r < |Do(st, step).mem.jobs|
    ensures JobOk(Do(st, step), Do(st, step).mem.jobs[r])
  {
    if step.Run? {
      if step.runner < |st.runners| {
        RowsKeptByRun(st, step.runner, step.ok, step.runner);
        JobKeptByRun(st, step.runner, step.ok, r);
      } else {
        assert JobOk(st, st.mem.jobs[r]);
      }
    } else if r < |st.mem.jobs| {
      assert JobOk(st, st.mem.jobs[r]);
    }
  }

  lemma RowsKept(st: System, step: Step)
    requires Structure(st) && Rows(st)
    ensures Rows(Do(st, step))
  {
    forall r | 0 <= r < |Do(st, step).mem.jobs| ensures JobOk(Do(st, step), Do(st, step).mem.jobs[r]) {
      JobKept(st, step, r);
    }
    assert Do(st, step).rows.Keys !! Do(st, step).deleted.Keys;
  }

  /** What one step may append to the log. */
  lemma Appended(st: System, step: Step) returns (e: Option<Event>)
    requires Structure(st) && Rows(st) && Phases(st)
    ensures Do(st, step).log == if e.Some? then st.log + [e.value] else st.log
    ensures st.version <= Do(st, step).version
    ensures e.Some? ==> EventOk(Do(st, step), e.value)
    ensures e.Some? && e.value.Applied? ==>
              !WasTornDown(st.log, e.value.server) && AppliedUpTo(st.log, e.value.server, e.value.lo)
  {
    match step
    case RequestSync(s) =>
      e := Some(if s in st.mem.table && st.mem.jobs[st.mem.table[s]].remove
                then SyncDropped(s) else SyncRequested(s, st.version));
    case RequestRemoval(s) =>
      e := if s in st.deleted then Some(RemovalRequested(s)) else None;
    case Run(r, ok) =>
      e := None;
      if r < |st.runners| {
        assert PhaseOk(st, r);
        assert JobOk(st, st.mem.jobs[r]);
        match st.runners[r].phase
        case Teardown(iface) => e := Some(TornDown(st.mem.jobs[r].server, iface));
        case Read => e := Some(PassStarted(st.mem.jobs[r].server, st.version));
        case Apply(iface, lo, hi, more) =>
          if more == 0 && ok { e := Some(Applied(st.mem.jobs[r].server, iface, lo, hi)); }
        case _ =>
      }
    case _ => e := None;
  }

  lemma OrderKept(st: System, step: Step)
    requires Structure(st) && Rows(st) && Phases(st) && Ordered(st.log)
    ensures Ordered(Do(st, step).log)
  {
    var e := Appended(st, step);
  }

  lemma HistoryKept(st: System, step: Step)
    requires Structure(st) && Rows(st) && Phases(st) && Ordered(st.log) && Events(st)
    ensures Ordered(Do(st, step).log) && Events(Do(st, step))
  {
    OrderKept(st, step);
    var st' := Do(st, step);
    var e := Appended(st, step);
    forall i | 0 <= i < |st'.log| ensures EventOk(st', st'.log[i]) {
      if i < |st.log| { assert EventOk(st, st.log[i]); }
    }
  }

  lemma TornDownStays(log: seq<Event>, log': seq<Event>, s: ServerId)
    requires log <= log' && WasTornDown(log, s)
    ensures WasTornDown(log', s)
  {
    var i :| 0 <= i < |log| && log[i].TornDown? && log[i].server == s;
    assert log'[i] == log[i];
  }

  /** What a step leaves alone: every goroutine but the acting one, and what a job and a row once said. */
  lemma Frame(st: System, step: Step, r: nat)
    requires Structure(st) && Rows(st) && r < |st.runners|
    ensures var st' := Do(st, step);
            && r < |st'.runners| && r < |st'.mem.jobs|
            && JobGrows(st.mem.jobs[r], st'.mem.jobs[r])
            && (step != Run(r, true) && step != Run(r, false) ==> st'.runners[r] == st.runners[r])
  {
    assert JobOk(st, st.mem.jobs[r]);
    match step
    case RequestSync(s) => RequestEffect(st.mem, s, "", r);
    case RequestRemoval(s) => if s in st.deleted { RequestEffect(st.mem, s, st.deleted[s], r); }
    case Run(q, ok) => if q < |st.runners| { RowsKeptByRun(st, q, ok, r); }
    case _ =>
  }

  lemma RowsGrow(st: System, step: Step, s: ServerId, iface: string)
    requires Structure(st) && Rows(st) && IfaceOf(st, s, iface)
    ensures IfaceOf(Do(st, step), s, iface)
  {
  }

  /** An event of another goroutine concerns another server. */
  lemma AppendedElsewhere(st: System, step: Step, r: nat, e: Event)
    requires Structure(st) && r < |st.runners| && Live(st, r)
    requires step != Run(r, true) && step != Run(r, false)
    requires Do(st, step).log == st.log + [e] && (e.Applied? || e.TornDown?)
    ensures e.server != st.mem.jobs[r].server
  {
    assert Do(st, step).log[|st.log|] == e;
  }

  lemma OtherPhaseKept(st: System, st': System, r: nat, e: Option<Event>)
    requires Structure(st) && Structure(st') && r < |st.runners| && r < |st'.runners|
    requires PhaseOk(st, r) && st'.runners[r] == st.runners[r] && JobGrows(st.mem.jobs[r], st'.mem.jobs[r])
    requires st'.log == (if e.Some? then st.log + [e.value] else st.log) && st.version <= st'.version
    requires forall iface | IfaceOf(st, st.mem.jobs[r].server, iface) :: IfaceOf(st', st.mem.jobs[r].server, iface)
    requires Live(st, r) && e.Some? && (e.value.Applied? || e.value.TornDown?) ==> e.value.server != st.mem.jobs[r].server
    ensures PhaseOk(st', r)
  {
    if st.runners[r].phase.Retiring? { TornDownStays(st.log, st'.log, st.mem.jobs[r].server); }
  }

  lemma ActorPhaseKept(st: System, r: nat, ok: bool)
    requires Structure(st) && Rows(st) && Phases(st) && Events(st) && r < |st.runners|
    requires Structure(RunStep(st, r, ok))
    ensures PhaseOk(RunStep(st, r, ok), r)
  {
    var st' := RunStep(st, r, ok);
    var job := st.mem.jobs[r];
    assert PhaseOk(st, r) && JobOk(st, job);
    match st.runners[r].phase
    case Teardown(iface) =>
      assert st'.log[|st.log|] == TornDown(job.server, iface);
    case Read =>
      if st'.runners[r].phase.Apply? {
        forall i | 0 <= i < |st.log| ensures EventOk(st, st.log[i]) {}
      }
    case _ =>
  }

  lemma OthersPhaseKept(st: System, step: Step, r: nat)
    requires Structure(st) && Rows(st) && Phases(st) && r < |st.runners|
    requires Structure(Do(st, step)) && step != Run(r, true) && step != Run(r, false)
    ensures r < |Do(st, step).runners| && PhaseOk(Do(st, step), r)
  {
    var st' := Do(st, step);
    var e := Appended(st, step);
    Frame(st, step, r);
    forall iface | IfaceOf(st, st.mem.jobs[r].server, iface)
      ensures IfaceOf(st', st.mem.jobs[r].server, iface)
    {
      RowsGrow(st, step, st.mem.jobs[r].server, iface);
    }
    if Live(st, r) && e.Some? && (e.value.Applied? || e.value.TornDown?) {
      AppendedElsewhere(st, step, r, e.value);
    }
    OtherPhaseKept(st, st', r, e);
  }

  lemma NewRunnersAtTop(st: System, step: Step, r: nat)
    requires Structure(st) && |st.runners| <= r < |Do(st, step).runners|
    ensures Do(st, step).runners[r].phase == Top
  {
  }

  lemma PhaseKept(st: System, step: Step, r: nat)
    requires Structure(st) && Rows(st) && Phases(st) && Events(st)
    requires Structure(Do(st, step)) && r < |Do(st, step).runners|
    ensures PhaseOk(Do(st, step), r)
  {
    if r >= |st.runners| {
      NewRunnersAtTop(st, step, r);
    } else if step == Run(r, true) || step == Run(r, false) {
      ActorPhaseKept(st, r, step.ok);
    } else {
      OthersPhaseKept(st, step, r);
    }
  }

  lemma PhasesKept(st: System, step: Step)
    requires Structure(st) && Rows(st) && Phases(st) && Events(st)
    requires Structure(Do(st, step))
    ensures Phases(Do(st, step))
  {
    forall r | 0 <= r < |Do(st, step).runners| ensures PhaseOk(Do(st, step), r) {
      PhaseKept(st, step, r);
    }
  }

  lemma PendingOrServedByRun(st: System, r: nat, ok: bool, s: ServerId)
    requires Structure(st) && Rows(st) && Phases(st) && Pending(st, s) && r < |st.runners|
    requires Structure(RunStep(st, r, ok))
    ensures Pending(RunStep(st, r, ok), s)
         || (RunStep(st, r, ok).log != st.log && Serves(RunStep(st, r, ok).log[|st.log|], s, st.version))
  {
    var st' := RunStep(st, r, ok);
    var q := st.mem.table[s];
    assert PhaseOk(st, r) && JobOk(st, st.mem.jobs[r]);
    if r != q {
      assert st'.mem.jobs[q] == st.mem.jobs[q] && st'.runners[q] == st.runners[q];
      assert s in st'.mem.table && st'.mem.table[s] == q;
    }
  }

  lemma PendingOrServed(st: System, step: Step, s: ServerId)
    requires Structure(st) && Rows(st) && Phases(st) && Pending(st, s)
    requires Structure(Do(st, step))
    ensures Pending(Do(st, step), s)
         || (Do(st, step).log != st.log && Serves(Do(st, step).log[|st.log|], s, st.version))
  {
    if step.Run? {
      if step.runner < |st.runners| { PendingOrServedByRun(st, step.runner, step.ok, s); }
    } else {
      Frame(st, step, st.mem.table[s]);
    }
  }

  lemma RemovalKept(st: System, step: Step, s: ServerId)
    requires Structure(st) && Rows(st) && Phases(st) && RemovalOk(st, s)
    requires Structure(Do(st, step))
    ensures RemovalOk(Do(st, step), s)
  {
    var st' := Do(st, step);
    var e := Appended(st, step);
    if WasTornDown(st.log, s) {
      TornDownStays(st.log, st'.log, s);
    } else {
      var r := st.mem.table[s];
      assert PhaseOk(st, r);
      Frame(st, step, r);
    }
  }

  lemma SyncKept(st: System, step: Step, i: nat)
    requires Structure(st) && Rows(st) && Phases(st) && i < |st.log| && SyncOk(st, i)
    requires Structure(Do(st, step))
    ensures i < |Do(st, step).log| && SyncOk(Do(st, step), i)
  {
    var st' := Do(st, step);
    var e := Appended(st, step);
    assert st'.log[i] == st.log[i];
    if st.log[i].SyncRequested? {
      if Served(st.log, i) {
        var k :| i < k < |st.log| && Serves(st.log[k], st.log[i].server, st.log[i].version);
        assert st'.log[k] == st.log[k];
      } else {
        PendingOrServed(st, step, st.log[i].server);
      }
    }
  }

  /** A request just logged has a pass or the teardown ahead of it. */
  lemma NewRequestOk(st: System, step: Step)
    requires Structure(st) && Structure(Do(st, step)) && !step.Run? && |Do(st, step).log| > |st.log|
    ensures SyncOk(Do(st, step), |st.log|)
    ensures Do(st, step).log[|st.log|].RemovalRequested? ==> RemovalOk(Do(st, step), Do(st, step).log[|st.log|].server)
  {
  }

  lemma RequestsKept(st: System, step: Step)
    requires Inv(st) && Structure(Do(st, step))
    ensures Requests(Do(st, step))
  {
    var log, log' := st.log, Do(st, step).log;
    var e := Appended(st, step);
    assert |log'| > |log| ==> |log'| == |log| + 1;
    if |log'| > |log| && !step.Run? { NewRequestOk(st, step); }
    forall i | 0 <= i < |log'| ensures SyncOk(Do(st, step), i) {
      if i < |log| {
        assert SyncOk(st, i);
        SyncKept(st, step, i);
      }
    }
    forall i | 0 <= i < |log'| && log'[i].RemovalRequested? ensures RemovalOk(Do(st, step), log'[i].server) {
      if i < |log| {
        assert log'[i] == log[i];
        RemovalKept(st, step, log[i].server);
      }
    }
  }

  lemma InvKept(st: System, step: Step)
    requires Inv(st)
    ensures Inv(Do(st, step))
  {
    StructureKept(st, step);
    RowsKept(st, step);
    HistoryKept(st, step);
    PhasesKept(st, step);
    RequestsKept(st, step);
  }

  // ----- progress -----

  /** How many of its own steps goroutine `r` is from its end, if nobody asks for anything more. */
  function StepsLeft(st: System, r: nat): nat
    requires Structure(st) && r < |st.runners|
  {
    var job := st.mem.jobs[r];
    var fromPost := if job.remove then 4 else if job.dirty then 5 + MORE_READS else 1;
    match st.runners[r].phase
    case Done => 0
    case Retiring => 1
    case Teardown(_) => 2
    case Top => if job.remove then 3 else 4 + MORE_READS
    case Post => fromPost
    case Apply(_, _, _, more) => 1 + more + fromPost
    case Read => 2 + MORE_READS + fromPost
  }

  lemma OwnStepLowers(st: System, r: nat, ok: bool)
    requires Structure(st) && r < |st.runners| && Live(st, r) && Structure(RunStep(st, r, ok))
    ensures StepsLeft(RunStep(st, r, ok), r) < StepsLeft(st, r)
  {
  }

  lemma AtMostSteps(st: System, r: nat)
    requires Structure(st) && r < |st.runners| && PhaseOk(st, r)
    ensures StepsLeft(st, r) <= 7 + 2 * MORE_READS
  {
  }

  /** A goroutine cannot loop for ever: every step of its own brings it nearer to its end. */
  lemma GoroutineFinishes(st: System, r: nat, ok: bool)
    requires Reachable(st) && Structure(st) && r < |st.runners| && Live(st, r) && Structure(RunStep(st, r, ok))
    ensures StepsLeft(RunStep(st, r, ok), r) < StepsLeft(st, r) <= 7 + 2 * MORE_READS
  {
    ReachableInv(st);
    OwnStepLowers(st, r, ok);
    AtMostSteps(st, r);
  }

  /** Nothing but its own steps and the requests for its own server touches a goroutine or its job. */
  lemma OnlyRequestsDelay(st: System, r: nat, step: Step)
    requires Structure(st) && r < |st.runners|
    requires step != Run(r, true) && step != Run(r, false)
    requires (step.RequestSync? || step.RequestRemoval?) ==> step.server != st.mem.jobs[r].server
    ensures var st' := Do(st, step);
            && r < |st'.runners| && st'.runners[r] == st.runners[r]
            && r < |st'.mem.jobs| && st'.mem.jobs[r] == st.mem.jobs[r]
  {
    match step
    case RequestSync(s) => RequestEffect(st.mem, s, "", r);
    case RequestRemoval(s) =>
      if s in st.deleted { RequestEffect(st.mem, s, st.deleted[s], r); }
    case Run(q, ok) =>
      if q < |st.runners| { RowsKeptByRun(st, q, ok, r); }
    case _ =>
  }

  // ----- every run -----

  /** The state after any interleaving of steps, from the program's start. */
  ghost function Exec(steps: seq<Step>): (st: System)
    ensures Structure(st)
  {
    if steps == [] then INITIAL
    else
      var before := Exec(steps[..|steps| - 1]);
      StructureKept(before, steps[|steps| - 1]);
      Do(before, steps[|steps| - 1])
  }

  lemma {:induction false} ExecKeepsInv(steps: seq<Step>)
    ensures Inv(Exec(steps))
  {
    if steps != [] {
      ExecKeepsInv(steps[..|steps| - 1]);
      InvKept(Exec(steps[..|steps| - 1]), steps[|steps| - 1]);
    }
  }

  ghost predicate Reachable(st: System) {
    exists steps :: st == Exec(steps)
  }

  lemma ReachableInv(st: System)
    requires Reachable(st)
    ensures Inv(st)
  {
    var steps :| st == Exec(steps);
    ExecKeepsInv(steps);
  }

  /** At most one live goroutine per server, and the map holds a server's job exactly while that goroutine lives. */
  lemma OneRunnerPerServer(st: System, r: nat)
    requires Reachable(st) && r < |st.runners|
    ensures st.runners[r].job < |st.mem.jobs|
    ensures var s := st.mem.jobs[st.runners[r].job].server;
            && (Live(st, r) <==> s in st.mem.table && st.mem.table[s] == st.runners[r].job)
            && forall q | 0 <= q < |st.runners| && q != r && Live(st, r) && Live(st, q) ::
                 st.runners[q].job < |st.mem.jobs| && st.mem.jobs[st.runners[q].job].server != s
  {
    ReachableInv(st);
  }

  /** No accepted request is lost: once the server has no goroutine left, a pass or the teardown came after it. */
  lemma NoRequestUnseen(st: System, i: nat)
    requires Reachable(st) && i < |st.log| && st.log[i].SyncRequested? && st.log[i].server !in st.mem.table
    ensures Served(st.log, i)
  {
    ReachableInv(st);
    assert SyncOk(st, i);
  }

  /** A request is turned away only when the server's row is gone and its teardown is under way. */
  lemma DroppedOnlyDuringTeardown(st: System, s: ServerId)
    requires Reachable(st) && Shape(st)
    ensures Do(st, Step.RequestSync(s)).log == st.log + [SyncDropped(s)] ==> s in st.deleted && s in st.mem.table
  {
    ReachableInv(st);
    if Do(st, Step.RequestSync(s)).log == st.log + [SyncDropped(s)] {
      assert Do(st, Step.RequestSync(s)).log[|st.log|] == SyncDropped(s);
      assert JobOk(st, st.mem.jobs[st.mem.table[s]]);
    }
  }

  /** The queue never applies a server after tearing it down, and tears down the interface it applied. */
  lemma TeardownIsLast(st: System, i: nat, k: nat)
    requires Reachable(st) && i < |st.log| && k < |st.log|
    requires st.log[i].TornDown? && st.log[k].Applied? && st.log[i].server == st.log[k].server
    ensures k < i && st.log[k].iface == st.log[i].iface
  {
    ReachableInv(st);
    assert EventOk(st, st.log[i]) && EventOk(st, st.log[k]);
    assert i < k ==> InOrder(st.log[i], st.log[k]);
  }

  /** A requested removal has been carried out, after every apply, once no goroutine of the server is left. */
  lemma RemovalCompletes(st: System, i: nat)
    requires Reachable(st) && i < |st.log| && st.log[i].RemovalRequested? && st.log[i].server !in st.mem.table
    ensures var s := st.log[i].server;
            && s in st.deleted
            && exists k :: 0 <= k < |st.log| && st.log[k] == TornDown(s, st.deleted[s])
                 && forall j | 0 <= j < |st.log| && st.log[j].Applied? && st.log[j].server == s :: j < k
  {
    ReachableInv(st);
    var s := st.log[i].server;
    assert RemovalOk(st, s);
    var k :| 0 <= k < |st.log| && st.log[k].TornDown? && st.log[k].server == s;
    assert EventOk(st, st.log[k]);
    forall j | 0 <= j < |st.log| && st.log[j].Applied? && st.log[j].server == s ensures j < k {
      TeardownIsLast(st, k, j);
    }
  }

  /** A pass never runs on a job that was created by a teardown and has no database pool. */
  lemma PassesHavePool(st: System, r: nat)
    requires Reachable(st) && r < |st.runners| && (st.runners[r].phase.Read? || st.runners[r].phase.Apply?)
    ensures st.runners[r].job < |st.mem.jobs| && st.mem.jobs[st.runners[r].job].hasPool
  {
    ReachableInv(st);
    assert PhaseOk(st, r);
  }

  /** The newest committed state wins: all reads behind an apply follow those behind every earlier apply of its server. */
  lemma NewestWins(st: System, i: nat, k: nat)
    requires Reachable(st) && i < k < |st.log|
    requires st.log[i].Applied? && st.log[k].Applied? && st.log[i].server == st.log[k].server
    ensures st.log[i].lo <= st.log[i].hi <= st.log[k].lo
  {
    ReachableInv(st);
    assert InOrder(st.log[i], st.log[k]) && EventOk(st, st.log[i]);
  }
}
