/**
  Importing a DNS query log.

  The log is read newest-first, a page at a time, backwards from its newest entry until something already imported.
  A cursor remembers how far the import has got. Times are whole numbers, 0 being the zero time; every entry's time
  parses.
*/
module BrowseImport {
  import opened Option

  type Time = nat
  type Client = nat
  type PeerId = nat

  /** `client` and `host` are in their normal form; a host may have become empty. */
  datatype Entry = Entry(time: Time, client: Client, host: string)

  datatype Key = Key(client: Client, host: string, time: Time)
  datatype Row = Row(key: Key, peer: PeerId)

  // ----- the log -----

  predicate Descending(log: seq<Entry>) {
    forall i, j | 0 <= i < j < |log| :: log[i].time > log[j].time
  }

  function DropFrom(log: seq<Entry>, olderThan: Time): seq<Entry> {
    if log == [] || log[0].time < olderThan then log else DropFrom(log[1..], olderThan)
  }

  /** A page: the newest entries, or the newest of those strictly older than a time. */
  function Fetch(log: seq<Entry>, olderThan: Time, size: nat): seq<Entry> {
    var older := if olderThan == 0 then log else DropFrom(log, olderThan);
    if |older| <= size then older else older[..size]
  }

  /** How many entries are newer than a time: they come first. */
  function Newer(log: seq<Entry>, from: Time): (n: nat)
    ensures n <= |log|
    ensures forall i | 0 <= i < n :: log[i].time > from
    ensures n < |log| ==> log[n].time <= from
  {
    if log == [] || log[0].time <= from then 0 else 1 + Newer(log[1..], from)
  }

  function Least(a: nat, b: nat): nat { if a < b then a else b }

  lemma {:induction false} DropIsSuffix(log: seq<Entry>, k: nat)
    requires Descending(log) && k < |log|
    ensures DropFrom(log, log[k].time) == log[k + 1..]
  {
    if k > 0 {
      assert log[1..][k - 1] == log[k];
      DropIsSuffix(log[1..], k - 1);
    } else {
      DropNone(log[1..], log[0].time);
    }
  }

  lemma DropNone(log: seq<Entry>, olderThan: Time)
    requires forall i | 0 <= i < |log| :: log[i].time < olderThan
    ensures DropFrom(log, olderThan) == log
  {
  }

  lemma FetchIsSlice(log: seq<Entry>, pos: nat, size: nat)
    requires Descending(log) && pos <= |log| && (pos > 0 ==> log[pos - 1].time > 0)
    ensures Fetch(log, if pos == 0 then 0 else log[pos - 1].time, size) == log[pos..Least(pos + size, |log|)]
  {
    if pos > 0 { DropIsSuffix(log, pos - 1); }
  }

  /** Entries that arrive while the log is being read do not disturb the older pages. */
  lemma {:induction false} FetchIgnoresNewer(more: seq<Entry>, log: seq<Entry>, olderThan: Time, size: nat)
    requires olderThan > 0 && forall i | 0 <= i < |more| :: more[i].time >= olderThan
    ensures Fetch(more + log, olderThan, size) == Fetch(log, olderThan, size)
  {
    if more == [] {
      assert more + log == log;
    } else {
      assert (more + log)[1..] == more[1..] + log;
      FetchIgnoresNewer(more[1..], log, olderThan, size);
    }
  }

  // ----- rows -----

  predicate Attributable(index: map<Client, PeerId>, e: Entry) {
    e.client in index && e.host != ""
  }

  function KeyOf(e: Entry): Key { Key(e.client, e.host, e.time) }

  /** A row that is already there stays as it is. */
  function Put(records: map<Key, PeerId>, row: Row): map<Key, PeerId> {
    if row.key in records then records else records[row.key := row.peer]
  }

  function Take(records: map<Key, PeerId>, index: map<Client, PeerId>, e: Entry): map<Key, PeerId> {
    if Attributable(index, e) then Put(records, Row(KeyOf(e), index[e.client])) else records
  }

  /** The table after importing the entries from `a` up to `b`. */
  function Taken(records: map<Key, PeerId>, index: map<Client, PeerId>, log: seq<Entry>, a: nat, b: nat): map<Key, PeerId>
    requires a <= b <= |log|
    decreases b
  {
    if a == b then records else Take(Taken(records, index, log, a, b - 1), index, log[b - 1])
  }

  lemma {:induction false} TakenInTwo(records: map<Key, PeerId>, index: map<Client, PeerId>, log: seq<Entry>, a: nat, b: nat, c: nat)
    requires a <= b <= c <= |log|
    ensures Taken(Taken(records, index, log, a, b), index, log, b, c) == Taken(records, index, log, a, c)
  {
    if b < c { TakenInTwo(records, index, log, a, b, c - 1); }
  }

  lemma {:induction false} TakenFromPage(records: map<Key, PeerId>, index: map<Client, PeerId>, log: seq<Entry>, pos: nat, m: nat, k: nat)
    requires pos <= m <= |log| && k <= m - pos
    ensures Taken(records, index, log[pos..m], 0, k) == Taken(records, index, log, pos, pos + k)
  {
    if k > 0 { TakenFromPage(records, index, log, pos, m, k - 1); }
  }

  lemma {:induction false} TakenKeys(records: map<Key, PeerId>, index: map<Client, PeerId>, log: seq<Entry>, b: nat, key: Key)
    requires b <= |log|
    ensures key in Taken(records, index, log, 0, b) <==>
              key in records || exists i | 0 <= i < b :: Attributable(index, log[i]) && KeyOf(log[i]) == key
    ensures key in records ==> Taken(records, index, log, 0, b)[key] == records[key]
    ensures key !in records && key in Taken(records, index, log, 0, b) ==>
              key.client in index && Taken(records, index, log, 0, b)[key] == index[key.client]
  {
    if b > 0 { TakenKeys(records, index, log, b - 1, key); }
  }

  function RowsOf(index: map<Client, PeerId>, entries: seq<Entry>, n: nat): seq<Row>
    requires n <= |entries|
  {
    if n == 0 then []
    else
      var e := entries[n - 1];
      RowsOf(index, entries, n - 1) + (if Attributable(index, e) then [Row(KeyOf(e), index[e.client])] else [])
  }

  function Inserted(records: map<Key, PeerId>, rows: seq<Row>, k: nat): map<Key, PeerId>
    requires k <= |rows|
  {
    if k == 0 then records else Put(Inserted(records, rows, k - 1), rows[k - 1])
  }

  lemma {:induction false} InsertedPrefix(records: map<Key, PeerId>, rows: seq<Row>, more: seq<Row>, k: nat)
    requires k <= |rows|
    ensures Inserted(records, rows + more, k) == Inserted(records, rows, k)
  {
    if k > 0 { InsertedPrefix(records, rows, more, k - 1); }
  }

  lemma {:induction false} AllRowsInserted(records: map<Key, PeerId>, index: map<Client, PeerId>, entries: seq<Entry>, n: nat)
    requires n <= |entries|
    ensures var rows := RowsOf(index, entries, n); Inserted(records, rows, |rows|) == Taken(records, index, entries, 0, n)
  {
    if n > 0 {
      var before := RowsOf(index, entries, n - 1);
      AllRowsInserted(records, index, entries, n - 1);
      InsertedPrefix(records, before, RowsOf(index, entries, n)[|before|..], |before|);
      assert RowsOf(index, entries, n) == before + RowsOf(index, entries, n)[|before|..];
    }
  }

  // ----- one tick -----

  datatype Tick = Imported(reached: bool) | Failed | NoPeers

  /** Pages whose fetch fails, pages whose insert fails after some rows, and whether the cursor cannot be saved. */
  datatype Faults = Faults(fetch: set<nat>, insert: map<nat, nat>, save: bool)

  function Clamped(cursor: Time, cutoff: Time): Time {
    if cursor < cutoff then cutoff else cursor
  }

  /** How many entries so many pages hold. */
  function Span(pages: nat, size: nat): nat {
    if pages == 0 then 0 else Span(pages - 1, size) + size
  }

  lemma {:induction false} SpanGrows(page: nat, pages: nat, size: nat)
    requires page < pages
    ensures Span(page, size) + size <= Span(pages, size)
  {
    if page < pages - 1 { SpanGrows(page, pages - 1, size); }
  }

  /** How much of the log a tick imports: what is newer than the clamped cursor, as far as the page cap allows. */
  function Covered(log: seq<Entry>, from: Time, size: nat, pages: nat): (n: nat)
    ensures n <= |log|
  {
    Least(Newer(log, from), Span(pages, size))
  }

  predicate Reaches(log: seq<Entry>, from: Time, size: nat, pages: nat) {
    var n := Newer(log, from);
    if n < |log| then n < Span(pages, size) else pages > 0 && |log| <= Span(pages - 1, size)
  }

  /** Where the cursor is moved: to the newest entry, or to the deepest one examined when the cap was hit. */
  function Advance(log: seq<Entry>, from: Time, size: nat, pages: nat): Time {
    if log == [] || Span(pages, size) == 0 then 0
    else if Reaches(log, from, size, pages) then log[0].time
    else log[Least(|log|, Span(pages, size)) - 1].time
  }

  /** A failed tick leaves the pages before the failing one imported. */
  ghost predicate IsWholePages(records: map<Key, PeerId>, index: map<Client, PeerId>, log: seq<Entry>, from: Time,
                               size: nat, pages: nat, records': map<Key, PeerId>)
  {
    exists p | 0 <= p <= pages ::
      records' == Taken(records, index, log, 0, Least(Covered(log, from, size, pages), Span(p, size)))
  }

  ghost predicate IsTick(log: seq<Entry>, index: map<Client, PeerId>, cutoff: Time, size: nat, pages: nat,
                         records: map<Key, PeerId>, cursor: Time, r: Tick, records': map<Key, PeerId>, cursor': Time) {
    var from := Clamped(cursor, cutoff);
    match r
    case NoPeers => index == map[] && records' == records && cursor' == cursor
    case Failed => cursor' == cursor && IsWholePages(records, index, log, from, size, pages, records')
    case Imported(reached) =>
      && reached == Reaches(log, from, size, pages)
      && records' == Taken(records, index, log, 0, Covered(log, from, size, pages))
      && cursor' == Clamped(Advance(log, from, size, pages), cursor)
  }

  lemma NewerIs(log: seq<Entry>, from: Time, k: nat)
    requires k <= |log| && (forall i | 0 <= i < k :: log[i].time > from) && (k < |log| ==> log[k].time <= from)
    ensures Newer(log, from) == k
  {
    var n := Newer(log, from);
    assert !(n < k) && !(k < n);
  }

  lemma NewerOfPage(log: seq<Entry>, from: Time, pos: nat, m: nat)
    requires pos <= Newer(log, from) && pos <= m <= |log|
    ensures Newer(log[pos..m], from) == Least(Newer(log, from), m) - pos
  {
    NewerIs(log[pos..m], from, Least(Newer(log, from), m) - pos);
  }

  datatype Progress = More | Reached | Stopped

  /** The time of the last of the first `pos` entries, where the next page starts. */
  function EndTime(log: seq<Entry>, pos: nat): Time
    requires pos <= |log|
  {
    if pos == 0 then 0 else log[pos - 1].time
  }

  ghost predicate WalkEnds(log: seq<Entry>, from: Time, size: nat, pages: nat, newest: Time, deepest: Time, progress: Progress)
    requires size > 0
  {
    match progress
    case Stopped => true
    case Reached => Reaches(log, from, size, pages) && newest == if log == [] then 0 else log[0].time
    case More =>
      && !Reaches(log, from, size, pages)
      && (if pages == 0 then newest == 0 && deepest == 0
          else log != [] && newest == log[0].time && deepest == log[Least(|log|, Span(pages, size)) - 1].time)
  }

  /** Where the walk stands before a page: `pos` entries are behind it, all newer than the cursor. */
  ghost predicate WalkAt(log: seq<Entry>, from: Time, size: nat, page: nat, pos: nat) {
    && pos == Least(Span(page, size), |log|) && pos <= Newer(log, from)
    && (page > 0 ==> pos > 0 && Span(page - 1, size) < |log|)
  }

  lemma WalkReaches(log: seq<Entry>, from: Time, size: nat, pages: nat, page: nat, pos: nat, m: nat)
    requires size > 0 && page < pages && WalkAt(log, from, size, page, pos) && m == Least(pos + size, |log|)
    requires m == pos || Newer(log, from) < m
    ensures Covered(log, from, size, pages) == Least(Newer(log, from), m)
    ensures Reaches(log, from, size, pages)
  {
    SpanGrows(page, pages, size);
    if page < pages - 1 { SpanGrows(page, pages - 1, size); }
  }

  lemma WalkGoesOn(log: seq<Entry>, from: Time, size: nat, pages: nat, page: nat, pos: nat, m: nat)
    requires page < pages && WalkAt(log, from, size, page, pos) && m == Least(pos + size, |log|)
    requires pos < m <= Newer(log, from)
    ensures WalkAt(log, from, size, page + 1, m) && log[m - 1].time > 0
  {
  }

  lemma WalkIsCapped(log: seq<Entry>, from: Time, size: nat, pages: nat, pos: nat)
    requires size > 0 && WalkAt(log, from, size, pages, pos)
    ensures Covered(log, from, size, pages) == pos && !Reaches(log, from, size, pages)
    ensures pages > 0 ==> 0 < pos == Least(|log|, Span(pages, size))
  {
  }

  /** Inserting a page's rows imports the page's new entries. */
  lemma PageInserted(records: map<Key, PeerId>, index: map<Client, PeerId>, log: seq<Entry>, from: Time, pos: nat, m: nat)
    requires pos <= Newer(log, from) && pos <= m <= |log|
    ensures var page, end := log[pos..m], Least(Newer(log, from), m);
            var rows := RowsOf(index, page, Newer(page, from));
            Inserted(records, rows, |rows|) == Taken(records, index, log, pos, end)
  {
    var page := log[pos..m];
    NewerOfPage(log, from, pos, m);
    AllRowsInserted(records, index, page, Newer(page, from));
    TakenFromPage(records, index, log, pos, m, Newer(page, from));
  }

  lemma StoppedBetweenPages(records: map<Key, PeerId>, index: map<Client, PeerId>, log: seq<Entry>, from: Time,
                            size: nat, pages: nat, page: nat, pos: nat)
    requires page < pages && WalkAt(log, from, size, page, pos)
    ensures IsWholePages(records, index, log, from, size, pages, Taken(records, index, log, 0, pos))
  {
    SpanGrows(page, pages, size);
    assert pos == Least(Covered(log, from, size, pages), Span(page, size));
  }

  class BrowseWorker {
    var records: map<Key, PeerId>
    var cursor: Time

    method Sync(log: seq<Entry>, index: map<Client, PeerId>, cutoff: Time, size: nat, pages: nat, faults: Faults)
      returns (r: Tick)
      requires Descending(log) && size > 0
      modifies this
      ensures IsTick(log, index, cutoff, size, pages, old(records), old(cursor), r, records, cursor)
      ensures index != map[] && faults == Faults({}, map[], false) ==> r.Imported?
    {
      if index == map[] {
        return NoPeers;
      }
      var from := Clamped(cursor, cutoff);
      var newestSeen, deepestSeen, progress := WalkPages(log, index, from, size, pages, faults);
      if progress.Stopped? {
        return Failed;
      }
      var advance := newestSeen;
      if progress.More? && deepestSeen < newestSeen {
        advance := deepestSeen;
      }
      if faults.save {
        assert Covered(log, from, size, pages) == Least(Covered(log, from, size, pages), Span(pages, size));
        return Failed;
      }
      if advance > cursor {
        cursor := advance;
      }
      return Imported(progress.Reached?);
    }

    /** From the newest page backwards. */
    method WalkPages(log: seq<Entry>, index: map<Client, PeerId>, from: Time, size: nat, pages: nat, faults: Faults)
      returns (newestSeen: Time, deepestSeen: Time, progress: Progress)
      requires Descending(log) && size > 0
      modifies this`records
      ensures progress.Stopped? ==> faults.fetch != {} || faults.insert != map[]
      ensures if progress.Stopped? then IsWholePages(old(records), index, log, from, size, pages, records)
              else records == Taken(old(records), index, log, 0, Covered(log, from, size, pages))
      ensures WalkEnds(log, from, size, pages, newestSeen, deepestSeen, progress)
    {
      newestSeen, deepestSeen := 0, 0;
      var olderThan := 0;
      ghost var pos: nat, was := 0, records;
      for page := 0 to pages
        invariant WalkAt(log, from, size, page, pos) && olderThan == deepestSeen == EndTime(log, pos)
        invariant newestSeen == EndTime(log, Least(pos, 1))
        invariant records == Taken(was, index, log, 0, pos)
      {
        ghost var m := Least(pos + size, |log|);
        var entries, outcome := ImportPage(log, index, from, size, olderThan, page, faults, was, pos);
        if outcome.Stopped? {
          StoppedBetweenPages(was, index, log, from, size, pages, page, pos);
          return newestSeen, deepestSeen, Stopped;
        }
        if page == 0 && |entries| > 0 {
          newestSeen := entries[0].time;
        }
        if outcome.Reached? {
          WalkReaches(log, from, size, pages, page, pos, m);
          return newestSeen, if |entries| > 0 then entries[|entries| - 1].time else deepestSeen, Reached;
        }
        WalkGoesOn(log, from, size, pages, page, pos, m);
        deepestSeen := entries[|entries| - 1].time;
        pos := m;
        olderThan := deepestSeen;
        if olderThan == 0 {
          break;
        }
      }
      WalkIsCapped(log, from, size, pages, pos);
      return newestSeen, deepestSeen, More;
    }

    /** One page; an empty one means that the log has come to its end. */
    method ImportPage(log: seq<Entry>, index: map<Client, PeerId>, from: Time, size: nat, olderThan: Time, page: nat,
                      faults: Faults, ghost was: map<Key, PeerId>, ghost pos: nat)
      returns (entries: seq<Entry>, progress: Progress)
      requires Descending(log) && size > 0 && pos <= Newer(log, from) && olderThan == EndTime(log, pos)
      requires records == Taken(was, index, log, 0, pos)
      modifies this`records
      ensures progress.Stopped? ==> faults.fetch != {} || faults.insert != map[]
      ensures !progress.Stopped? ==> |entries| == Least(pos + size, |log|) - pos
      ensures !progress.Stopped? && entries != [] ==>
                entries[0] == log[pos] && entries[|entries| - 1] == log[Least(pos + size, |log|) - 1]
      ensures progress.More? ==> entries != [] && pos + |entries| <= Newer(log, from)
      ensures progress.Reached? ==> entries == [] || Newer(log, from) < pos + |entries|
      ensures records ==
                Taken(was, index, log, 0, if progress.Stopped? then pos else Least(Newer(log, from), Least(pos + size, |log|)))
    {
      if page in faults.fetch {
        return [], Stopped;
      }
      entries := FetchPage(log, olderThan, size, pos);
      if |entries| == 0 {
        return entries, Reached;
      }
      progress := StoreEntries(log, index, from, entries, page, faults, was, pos, Least(pos + size, |log|));
    }

    method FetchPage(log: seq<Entry>, olderThan: Time, size: nat, ghost pos: nat) returns (entries: seq<Entry>)
      requires Descending(log) && size > 0 && pos <= |log| && olderThan == EndTime(log, pos) && (pos > 0 ==> olderThan > 0)
      ensures entries == log[pos..Least(pos + size, |log|)]
      ensures entries != [] ==> entries[0] == log[pos] && entries[|entries| - 1] == log[Least(pos + size, |log|) - 1]
    {
      FetchIsSlice(log, pos, size);
      entries := Fetch(log, olderThan, size);
    }

    method StoreEntries(ghost log: seq<Entry>, index: map<Client, PeerId>, from: Time, entries: seq<Entry>, page: nat,
                        faults: Faults, ghost was: map<Key, PeerId>, ghost pos: nat, ghost m: nat)
      returns (progress: Progress)
      requires pos <= Newer(log, from) && pos <= m <= |log| && entries == log[pos..m]
      requires records == Taken(was, index, log, 0, pos)
      modifies this`records
      ensures progress.Stopped? ==> faults.insert != map[]
      ensures progress.More? ==> m <= Newer(log, from)
      ensures progress.Reached? ==> Newer(log, from) < m
      ensures records == Taken(was, index, log, 0, if progress.Stopped? then pos else Least(Newer(log, from), m))
    {
      NewerOfPage(log, from, pos, m);
      var rows, reached := RowsAbove(entries, from, index);
      var stop := if page in faults.insert then faults.insert[page] else |rows|;
      PageInserted(records, index, log, from, pos, m);
      TakenInTwo(was, index, log, 0, pos, Least(Newer(log, from), m));
      var ok := InsertBatch(rows, stop);
      if !ok {
        return Stopped;
      }
      return if reached then Reached else More;
    }

    /** The rows of a page above the first entry that is not newer than the cursor. */
    method RowsAbove(entries: seq<Entry>, from: Time, index: map<Client, PeerId>) returns (rows: seq<Row>, reached: bool)
      ensures rows == RowsOf(index, entries, Newer(entries, from))
      ensures reached == (Newer(entries, from) < |entries|)
    {
      rows, reached := [], false;
      for k := 0 to |entries|
        invariant k <= Newer(entries, from) && rows == RowsOf(index, entries, k)
      {
        if entries[k].time <= from {
          return rows, true;
        }
        var e := entries[k];
        if e.client in index && e.host != "" {
          rows := rows + [Row(KeyOf(e), index[e.client])];
        }
      }
    }

    /** One batch is one implicit transaction: a row that fails takes back the rows before it. */
    method InsertBatch(rows: seq<Row>, stop: nat) returns (ok: bool)
      modifies this`records
      ensures ok == (stop >= |rows|)
      ensures records == if ok then Inserted(old(records), rows, |rows|) else old(records)
    {
      var before := records;
      for k := 0 to |rows|
        invariant k <= stop && records == Inserted(before, rows, k)
      {
        if k == stop {
          records := before;
          return false;
        }
        if rows[k].key !in records {
          records := records[rows[k].key := rows[k].peer];
        }
      }
      return true;
    }
  }

  // ----- runs -----

  /** The log, newest entry first, and what the import has made of it. */
  datatype World = World(log: seq<Entry>, records: map<Key, PeerId>, cursor: Time)

  const FIRST := World([], map[], 0)

  /** Entries arrive; or a tick runs, to its end or until it fails after some number of pages. */
  datatype Step = Arrive(entries: seq<Entry>) | Poll(index: map<Client, PeerId>, cutoff: Time, stop: Option<nat>)

  predicate IsLog(log: seq<Entry>) {
    Descending(log) && forall i | 0 <= i < |log| :: log[i].time > 0
  }

  function From(w: World, step: Step): Time
    requires step.Poll?
  {
    Clamped(w.cursor, step.cutoff)
  }

  /** How many entries of the log, from the newest, a tick imports. */
  function Depth(w: World, step: Step, size: nat, pages: nat): (n: nat)
    requires step.Poll?
    ensures n <= |w.log|
  {
    var covered := Covered(w.log, From(w, step), size, pages);
    if step.index == map[] then 0 else if step.stop.Some? then Least(covered, Span(step.stop.value, size)) else covered
  }

  function Do(w: World, step: Step, size: nat, pages: nat): World {
    match step
    case Arrive(entries) => if IsLog(entries + w.log) then w.(log := entries + w.log) else w
    case Poll(index, cutoff, stop) =>
      w.(records := Taken(w.records, index, w.log, 0, Depth(w, step, size, pages)),
         cursor := if Succeeds(step) then Clamped(Advance(w.log, From(w, step), size, pages), w.cursor) else w.cursor)
  }

  predicate Succeeds(step: Step) { step.Poll? && step.index != map[] && step.stop.None? }

  function Run(steps: seq<Step>, size: nat, pages: nat): World {
    if steps == [] then FIRST else Do(Run(steps[..|steps| - 1], size, pages), steps[|steps| - 1], size, pages)
  }

  lemma OneMoreStep(steps: seq<Step>, step: Step, size: nat, pages: nat)
    ensures Run(steps + [step], size, pages) == Do(Run(steps, size, pages), step, size, pages)
  {
    assert (steps + [step])[..|steps|] == steps;
  }

  /** What the worker's method does is a step. */
  lemma TickIsStep(w: World, index: map<Client, PeerId>, cutoff: Time, size: nat, pages: nat, r: Tick, w': World)
    requires w'.log == w.log
    requires IsTick(w.log, index, cutoff, size, pages, w.records, w.cursor, r, w'.records, w'.cursor)
    requires r.NoPeers? <==> index == map[]
    ensures exists stop :: w' == Do(w, Poll(index, cutoff, stop), size, pages)
  {
    var from := Clamped(w.cursor, cutoff);
    if r.Failed? {
      var p :| 0 <= p <= pages && w'.records == Taken(w.records, index, w.log, 0, Least(Covered(w.log, from, size, pages), Span(p, size)));
      assert w' == Do(w, Poll(index, cutoff, Some(p)), size, pages);
    } else {
      assert w' == Do(w, Poll(index, cutoff, None), size, pages);
    }
  }

  ghost predicate Inv(w: World) {
    IsLog(w.log) && (w.cursor > 0 ==> w.log != [] && w.cursor <= w.log[0].time)
  }

  lemma StepKeepsInv(w: World, step: Step, size: nat, pages: nat)
    requires Inv(w)
    ensures Inv(Do(w, step, size, pages)) && w.cursor <= Do(w, step, size, pages).cursor
  {
    if step.Arrive? && w.log != [] {
      assert (step.entries + w.log)[|step.entries|] == w.log[0];
    }
  }

  lemma {:induction false} RunKeepsInv(steps: seq<Step>, size: nat, pages: nat)
    ensures Inv(Run(steps, size, pages))
  {
    if steps != [] {
      RunKeepsInv(steps[..|steps| - 1], size, pages);
      StepKeepsInv(Run(steps[..|steps| - 1], size, pages), steps[|steps| - 1], size, pages);
    }
  }

  /** The cursor never moves back, and it never passes the newest entry. */
  lemma {:induction false} CursorNeverMovesBack(steps: seq<Step>, more: seq<Step>, size: nat, pages: nat)
    ensures Run(steps, size, pages).cursor <= Run(steps + more, size, pages).cursor
    ensures Inv(Run(steps + more, size, pages))
  {
    RunKeepsInv(steps + more, size, pages);
    if more == [] {
      assert steps + more == steps;
    } else {
      var n := |more| - 1;
      CursorNeverMovesBack(steps, more[..n], size, pages);
      assert (steps + more)[..|steps + more| - 1] == steps + more[..n];
      StepKeepsInv(Run(steps + more[..n], size, pages), more[n], size, pages);
    }
  }

  // ----- what gets into the table -----

  ghost predicate CoversNow(w: World, step: Step, e: Entry, size: nat, pages: nat) {
    step.Poll? && exists i | 0 <= i < Depth(w, step, size, pages) :: w.log[i] == e
  }

  /** Tick `k` of the run imported the log down to `e` or further. */
  ghost predicate Covers(steps: seq<Step>, k: nat, e: Entry, size: nat, pages: nat)
    requires k < |steps|
  {
    CoversNow(Run(steps[..k], size, pages), steps[k], e, size, pages)
  }

  lemma KeyIsEntry(d: Entry, e: Entry)
    requires KeyOf(d) == KeyOf(e)
    ensures d == e
  {
  }

  lemma StepTakes(w: World, step: Step, e: Entry, size: nat, pages: nat)
    ensures KeyOf(e) in Do(w, step, size, pages).records <==>
              KeyOf(e) in w.records || (CoversNow(w, step, e, size, pages) && Attributable(step.index, e))
    ensures KeyOf(e) in w.records ==> Do(w, step, size, pages).records[KeyOf(e)] == w.records[KeyOf(e)]
    ensures KeyOf(e) !in w.records && KeyOf(e) in Do(w, step, size, pages).records ==>
              && TakesNow(w, step, e, size, pages)
              && Do(w, step, size, pages).records[KeyOf(e)] == step.index[e.client]
  {
    if step.Poll? {
      var n := Depth(w, step, size, pages);
      TakenKeys(w.records, step.index, w.log, n, KeyOf(e));
      if i :| 0 <= i < n && Attributable(step.index, w.log[i]) && KeyOf(w.log[i]) == KeyOf(e) {
        KeyIsEntry(w.log[i], e);
      }
    }
  }

  ghost predicate SomeTickTakes(steps: seq<Step>, e: Entry, size: nat, pages: nat) {
    exists k | 0 <= k < |steps| :: Covers(steps, k, e, size, pages) && Attributable(steps[k].index, e)
  }

  ghost predicate TakesNow(w: World, step: Step, e: Entry, size: nat, pages: nat) {
    CoversNow(w, step, e, size, pages) && Attributable(step.index, e)
  }

  lemma TickOfPrefix(steps: seq<Step>, step: Step, k: nat)
    requires k <= |steps|
    ensures (steps + [step])[..k] == steps[..k] && (steps + [step])[k] == (if k < |steps| then steps[k] else step)
  {
  }

  lemma OneMoreTick(steps: seq<Step>, step: Step, e: Entry, size: nat, pages: nat)
    ensures SomeTickTakes(steps + [step], e, size, pages) <==>
              SomeTickTakes(steps, e, size, pages) || TakesNow(Run(steps, size, pages), step, e, size, pages)
  {
    var all, n := steps + [step], |steps|;
    assert steps[..n] == steps;
    TickOfPrefix(steps, step, n);
    if SomeTickTakes(steps, e, size, pages) {
      var k :| 0 <= k < n && Covers(steps, k, e, size, pages) && Attributable(steps[k].index, e);
      TickOfPrefix(steps, step, k);
      assert Covers(all, k, e, size, pages);
    } else if TakesNow(Run(steps, size, pages), step, e, size, pages) {
      assert Covers(all, n, e, size, pages);
    } else if SomeTickTakes(all, e, size, pages) {
      var k :| 0 <= k < |all| && Covers(all, k, e, size, pages) && Attributable(all[k].index, e);
      TickOfPrefix(steps, step, k);
      assert k < n ==> Covers(steps, k, e, size, pages);
    }
  }

  /** After any run an entry is in the table exactly when some tick, finished or failed, covered it and could attribute it. */
  lemma {:induction false} RecordedExactly(steps: seq<Step>, e: Entry, size: nat, pages: nat)
    ensures KeyOf(e) in Run(steps, size, pages).records <==> SomeTickTakes(steps, e, size, pages)
  {
    if steps != [] {
      var before, step := steps[..|steps| - 1], steps[|steps| - 1];
      assert steps == before + [step];
      RecordedExactly(before, e, size, pages);
      OneMoreTick(before, step, e, size, pages);
      StepTakes(Run(before, size, pages), step, e, size, pages);
    }
  }

  ghost predicate TakesAt(steps: seq<Step>, k: nat, e: Entry, size: nat, pages: nat) {
    k < |steps| && TakesNow(Run(steps[..k], size, pages), steps[k], e, size, pages)
  }

  /** No tick before this one could import the entry. */
  ghost predicate FirstTakes(steps: seq<Step>, k: nat, e: Entry, size: nat, pages: nat) {
    TakesAt(steps, k, e, size, pages) && forall j | 0 <= j < k :: !TakesAt(steps, j, e, size, pages)
  }

  lemma TakesAtPrefix(steps: seq<Step>, step: Step, k: nat, e: Entry, size: nat, pages: nat)
    requires k <= |steps|
    ensures TakesAt(steps + [step], k, e, size, pages) <==>
              if k < |steps| then TakesAt(steps, k, e, size, pages) else TakesNow(Run(steps, size, pages), step, e, size, pages)
  {
    TickOfPrefix(steps, step, k);
    assert steps[..|steps|] == steps;
  }

  lemma NoneTook(steps: seq<Step>, e: Entry, size: nat, pages: nat)
    requires KeyOf(e) !in Run(steps, size, pages).records
    ensures forall k | 0 <= k < |steps| :: !TakesAt(steps, k, e, size, pages)
  {
    RecordedExactly(steps, e, size, pages);
  }

  /** A record belongs to the peer that its client had when the first tick that could import the entry ran. */
  lemma {:induction false} AttributedByFirst(steps: seq<Step>, e: Entry, size: nat, pages: nat) returns (k: nat)
    requires KeyOf(e) in Run(steps, size, pages).records
    ensures FirstTakes(steps, k, e, size, pages)
    ensures Run(steps, size, pages).records[KeyOf(e)] == steps[k].index[e.client]
  {
    var before, step := steps[..|steps| - 1], steps[|steps| - 1];
    assert steps == before + [step];
    StepTakes(Run(before, size, pages), step, e, size, pages);
    if KeyOf(e) in Run(before, size, pages).records {
      k := AttributedByFirst(before, e, size, pages);
    } else {
      k := |before|;
      NoneTook(before, e, size, pages);
    }
    forall j | 0 <= j <= k
      ensures TakesAt(steps, j, e, size, pages) <==>
                if j < |before| then TakesAt(before, j, e, size, pages) else TakesNow(Run(before, size, pages), step, e, size, pages)
    {
      TakesAtPrefix(before, step, j, e, size, pages);
    }
  }

  // ----- ticks that reach history -----

  /** Every tick that succeeds gets back to known history before the page cap. */
  ghost predicate AllReach(steps: seq<Step>, size: nat, pages: nat) {
    forall k | 0 <= k < |steps| && Succeeds(steps[k]) ::
      Reaches(Run(steps[..k], size, pages).log, From(Run(steps[..k], size, pages), steps[k]), size, pages)
  }

  /** A tick that moves the cursor past an entry. */
  ghost predicate PassesNow(w: World, step: Step, e: Entry, size: nat, pages: nat) {
    Succeeds(step) && e in w.log && w.cursor < e.time <= Do(w, step, size, pages).cursor
  }

  ghost predicate Passes(steps: seq<Step>, k: nat, e: Entry, size: nat, pages: nat)
    requires k < |steps|
  {
    PassesNow(Run(steps[..k], size, pages), steps[k], e, size, pages)
  }

  ghost predicate IsPassed(steps: seq<Step>, e: Entry, size: nat, pages: nat) {
    exists k | 0 <= k < |steps| :: Passes(steps, k, e, size, pages)
  }

  lemma StillPassed(steps: seq<Step>, step: Step, e: Entry, size: nat, pages: nat)
    requires IsPassed(steps, e, size, pages) || PassesNow(Run(steps, size, pages), step, e, size, pages)
    ensures IsPassed(steps + [step], e, size, pages)
  {
    var all := steps + [step];
    assert all[..|steps|] == steps && all[|steps|] == step;
    if k :| 0 <= k < |steps| && Passes(steps, k, e, size, pages) {
      assert all[..k] == steps[..k] && all[k] == steps[k];
      assert Passes(all, k, e, size, pages);
    } else {
      assert Passes(all, |steps|, e, size, pages);
    }
  }

  lemma OldEntry(w: World, step: Step, i: nat, size: nat, pages: nat)
    requires Inv(w) && i < |Do(w, step, size, pages).log| && Do(w, step, size, pages).log[i].time <= w.cursor
    ensures Do(w, step, size, pages).log[i] in w.log
  {
    var w' := Do(w, step, size, pages);
    if step.Arrive? && w' != w {
      assert w'.log[i].time > 0;
      assert w.log != [] && w'.log[|step.entries|] == w.log[0];
      assert i >= |step.entries|;
      assert w'.log[i] == w.log[i - |step.entries|];
    }
  }

  /** The cursor passes every entry by a tick that found it in the log. */
  lemma {:induction false} EveryEntryIsPassed(steps: seq<Step>, i: nat, size: nat, pages: nat)
    requires var w := Run(steps, size, pages); i < |w.log| && w.log[i].time <= w.cursor
    ensures IsPassed(steps, Run(steps, size, pages).log[i], size, pages)
  {
    RunKeepsInv(steps, size, pages);
    if steps != [] {
      var before, step := steps[..|steps| - 1], steps[|steps| - 1];
      var w, e := Run(before, size, pages), Run(steps, size, pages).log[i];
      assert steps == before + [step];
      RunKeepsInv(before, size, pages);
      if e.time <= w.cursor {
        OldEntry(w, step, i, size, pages);
        var j :| 0 <= j < |w.log| && w.log[j] == e;
        EveryEntryIsPassed(before, j, size, pages);
      }
      StillPassed(before, step, e, size, pages);
    }
  }

  /** A tick that reaches history covers exactly those of the entries it passes that its retention keeps. */
  lemma PassingCovers(w: World, step: Step, e: Entry, size: nat, pages: nat)
    requires Inv(w) && PassesNow(w, step, e, size, pages) && Reaches(w.log, From(w, step), size, pages)
    ensures CoversNow(w, step, e, size, pages) <==> e.time > step.cutoff
  {
    var i :| 0 <= i < |w.log| && w.log[i] == e;
    var n := Newer(w.log, From(w, step));
    assert Depth(w, step, size, pages) == n;
    if e.time > step.cutoff {
      assert i < n;
    }
  }

  /** Once the cursor has passed an entry no tick covers it. */
  lemma PassedIsNotCovered(w: World, step: Step, e: Entry, size: nat, pages: nat)
    requires e.time <= w.cursor
    ensures !CoversNow(w, step, e, size, pages)
  {
  }

  /** The passing tick could attribute the entry and its retention keeps it. */
  ghost predicate TakenWhenPassed(steps: seq<Step>, k: nat, e: Entry, size: nat, pages: nat)
    requires k < |steps|
  {
    Passes(steps, k, e, size, pages) && Attributable(steps[k].index, e) && e.time > steps[k].cutoff
  }

  /** Only a failed tick before the passing one can have imported the entry otherwise. */
  ghost predicate TakenByFailedTick(steps: seq<Step>, k: nat, e: Entry, size: nat, pages: nat)
    requires k < |steps|
  {
    !Succeeds(steps[k]) && Covers(steps, k, e, size, pages) && Attributable(steps[k].index, e)
  }

  lemma CoveringSuccessPasses(w: World, step: Step, e: Entry, size: nat, pages: nat)
    requires Inv(w) && Succeeds(step) && CoversNow(w, step, e, size, pages)
    ensures Reaches(w.log, From(w, step), size, pages) ==>
              PassesNow(w, step, e, size, pages) && e.time > step.cutoff
  {
    var i :| 0 <= i < Depth(w, step, size, pages) && w.log[i] == e;
    assert w.log[i].time > From(w, step);
    assert i > 0 ==> w.log[0].time > w.log[i].time;
    assert w.log[i] in w.log;
  }

  /**
    With ticks that reach history nothing is lost: every entry up to the cursor was passed by a successful tick that
    found it in the log, and it is in the table exactly when that tick could attribute it within its retention, or
    a tick that then failed could and had imported it already.
  */
  lemma NothingIsLost(steps: seq<Step>, i: nat, size: nat, pages: nat)
    requires AllReach(steps, size, pages)
    requires var w := Run(steps, size, pages); i < |w.log| && w.log[i].time <= w.cursor
    ensures var e := Run(steps, size, pages).log[i];
            && IsPassed(steps, e, size, pages)
            && (KeyOf(e) in Run(steps, size, pages).records <==>
                  || (exists k | 0 <= k < |steps| :: TakenWhenPassed(steps, k, e, size, pages))
                  || (exists k | 0 <= k < |steps| :: TakenByFailedTick(steps, k, e, size, pages)))
  {
    var e := Run(steps, size, pages).log[i];
    EveryEntryIsPassed(steps, i, size, pages);
    RecordedExactly(steps, e, size, pages);
    if k :| 0 <= k < |steps| && TakenWhenPassed(steps, k, e, size, pages) {
      RunKeepsInv(steps[..k], size, pages);
      PassingCovers(Run(steps[..k], size, pages), steps[k], e, size, pages);
      assert Covers(steps, k, e, size, pages);
    }
    if k :| 0 <= k < |steps| && TakenByFailedTick(steps, k, e, size, pages) {
      assert Covers(steps, k, e, size, pages);
    }
    if k :| 0 <= k < |steps| && Covers(steps, k, e, size, pages) && Attributable(steps[k].index, e) {
      if Succeeds(steps[k]) {
        RunKeepsInv(steps[..k], size, pages);
        CoveringSuccessPasses(Run(steps[..k], size, pages), steps[k], e, size, pages);
        assert TakenWhenPassed(steps, k, e, size, pages);
      } else {
        assert TakenByFailedTick(steps, k, e, size, pages);
      }
    }
  }

  lemma CursorLater(steps: seq<Step>, j: nat, k: nat, size: nat, pages: nat)
    requires j < k <= |steps|
    ensures Do(Run(steps[..j], size, pages), steps[j], size, pages).cursor <= Run(steps[..k], size, pages).cursor
  {
    OneMoreStep(steps[..j], steps[j], size, pages);
    assert steps[..j + 1] == steps[..j] + [steps[j]];
    CursorNeverMovesBack(steps[..j + 1], steps[j + 1..k], size, pages);
    assert steps[..j + 1] + steps[j + 1..k] == steps[..k];
  }

  /** Only one tick passes an entry. */
  lemma PassedOnce(steps: seq<Step>, j: nat, k: nat, e: Entry, size: nat, pages: nat)
    requires j < k < |steps| && Passes(steps, j, e, size, pages)
    ensures !Passes(steps, k, e, size, pages)
  {
    CursorLater(steps, j, k, size, pages);
  }

  /** Right after a successful tick of such a run all this holds for every entry of the log. */
  lemma CaughtUp(steps: seq<Step>, step: Step, i: nat, size: nat, pages: nat)
    requires AllReach(steps + [step], size, pages) && Succeeds(step) && Span(pages, size) > 0
    requires i < |Run(steps + [step], size, pages).log|
    ensures var all := steps + [step];
            var e := Run(all, size, pages).log[i];
            && e.time <= Run(all, size, pages).cursor
            && IsPassed(all, e, size, pages)
            && (KeyOf(e) in Run(all, size, pages).records <==>
                  || (exists k | 0 <= k < |all| :: TakenWhenPassed(all, k, e, size, pages))
                  || (exists k | 0 <= k < |all| :: TakenByFailedTick(all, k, e, size, pages)))
  {
    var all := steps + [step];
    var w := Run(steps, size, pages);
    OneMoreStep(steps, step, size, pages);
    assert all[..|steps|] == steps && all[|steps|] == step;
    RunKeepsInv(all, size, pages);
    assert Reaches(w.log, From(w, step), size, pages);
    assert Run(all, size, pages).cursor >= w.log[0].time;
    NothingIsLost(all, i, size, pages);
  }

  // ----- ticks that stop at the page cap -----

  /** What is not in the table when the cursor has passed it never gets there. */
  lemma {:induction false} BelowCursorStaysOut(steps: seq<Step>, more: seq<Step>, e: Entry, size: nat, pages: nat)
    requires KeyOf(e) !in Run(steps, size, pages).records && e.time <= Run(steps, size, pages).cursor
    ensures KeyOf(e) !in Run(steps + more, size, pages).records
  {
    if more == [] {
      assert steps + more == steps;
    } else {
      var n := |more| - 1;
      BelowCursorStaysOut(steps, more[..n], e, size, pages);
      CursorNeverMovesBack(steps, more[..n], size, pages);
      assert (steps + more)[..|steps + more| - 1] == steps + more[..n];
      PassedIsNotCovered(Run(steps + more[..n], size, pages), more[n], e, size, pages);
      StepTakes(Run(steps + more[..n], size, pages), more[n], e, size, pages);
    }
  }

  /** A record, once there, stays as it is. */
  lemma {:induction false} RecordsStay(steps: seq<Step>, more: seq<Step>, e: Entry, size: nat, pages: nat)
    requires KeyOf(e) in Run(steps, size, pages).records
    ensures KeyOf(e) in Run(steps + more, size, pages).records
    ensures Run(steps + more, size, pages).records[KeyOf(e)] == Run(steps, size, pages).records[KeyOf(e)]
  {
    if more == [] {
      assert steps + more == steps;
    } else {
      var n := |more| - 1;
      RecordsStay(steps, more[..n], e, size, pages);
      assert (steps + more)[..|steps + more| - 1] == steps + more[..n];
      StepTakes(Run(steps + more[..n], size, pages), more[n], e, size, pages);
    }
  }

  /**
    Exactly what a capped tick skips for ever: of the entries newer than the clamped cursor and not imported before,
    those older than the deepest entry examined, whatever ticks follow.
  */
  lemma CappedTickSkips(steps: seq<Step>, step: Step, more: seq<Step>, i: nat, size: nat, pages: nat)
    requires Succeeds(step) && Span(pages, size) > 0
    requires var w := Run(steps, size, pages);
             && !Reaches(w.log, From(w, step), size, pages)
             && i < |w.log| && w.log[i].time > From(w, step) && Attributable(step.index, w.log[i])
             && KeyOf(w.log[i]) !in w.records
    ensures var w := Run(steps, size, pages);
            KeyOf(w.log[i]) in Run(steps + [step] + more, size, pages).records <==>
              w.log[i].time >= w.log[Least(|w.log|, Span(pages, size)) - 1].time
  {
    var w := Run(steps, size, pages);
    var all := steps + [step];
    OneMoreStep(steps, step, size, pages);
    RunKeepsInv(steps, size, pages);
    var e, covered := w.log[i], Depth(w, step, size, pages);
    assert covered == Least(|w.log|, Span(pages, size));
    TakenKeys(w.records, step.index, w.log, covered, KeyOf(e));
    if i < covered {
      RecordsStay(all, more, e, size, pages);
    } else {
      assert e.time < w.log[covered - 1].time <= Run(all, size, pages).cursor;
      BelowCursorStaysOut(all, more, e, size, pages);
    }
  }

  /** A tick has something to skip exactly when the backlog is larger than its pages hold. */
  lemma SkipsExactlyLargeBacklogs(log: seq<Entry>, from: Time, size: nat, pages: nat)
    requires Descending(log) && Span(pages, size) > 0
    ensures Span(pages, size) == pages * size
    ensures (exists i | 0 <= i < |log| :: from < log[i].time < Advance(log, from, size, pages) && i >= Covered(log, from, size, pages)) <==>
              Newer(log, from) > Span(pages, size)
  {
    SpanIsProduct(pages, size);
    var span, n := Span(pages, size), Newer(log, from);
    if n > span {
      assert from < log[span].time < Advance(log, from, size, pages) && span >= Covered(log, from, size, pages);
    }
  }

  lemma {:induction false} SpanIsProduct(pages: nat, size: nat)
    ensures Span(pages, size) == pages * size
  {
    if pages > 0 { SpanIsProduct(pages - 1, size); }
  }

  /** One entry a second. */
  function Backlog(n: nat): (log: seq<Entry>)
    ensures |log| == n && IsLog(log)
    ensures forall i | 0 <= i < n :: log[i] == Entry(n - i, 0, "host")
  {
    if n == 0 then [] else [Entry(n, 0, "host")] + Backlog(n - 1)
  }

  /** A first tick whose pages hold one entry less than the log: that entry is never imported. */
  lemma OldestIsSkipped(more: seq<Step>, size: nat, pages: nat)
    requires Span(pages, size) > 0
    ensures var tick := Poll(map[0 := 0], 0, None);
            var steps := [Arrive(Backlog(Span(pages, size) + 1)), tick];
            KeyOf(Entry(1, 0, "host")) !in Run(steps + more, size, pages).records
  {
    var span := Span(pages, size);
    var log, tick := Backlog(span + 1), Poll(map[0 := 0], 0, None);
    OneMoreStep([], Arrive(log), size, pages);
    assert [] + [Arrive(log)] == [Arrive(log)] && log + [] == log;
    var w := Run([Arrive(log)], size, pages);
    assert w == World(log, map[], 0);
    NewerIs(log, 0, span + 1);
    assert 0 in tick.index;
    CappedTickSkips([Arrive(log)], tick, more, span, size, pages);
    assert [Arrive(log)] + [tick] == [Arrive(log), tick];
  }
}
